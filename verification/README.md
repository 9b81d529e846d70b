# aesdsocket and the AESD circular buffer: a verified model

This project models three parts of the repository and proves what they are for.

**The server's shared file.** Any number of connection threads and one timestamp thread append to
one file through one descriptor, and so share one offset; each connection thread also sends the
whole file back after every record. `Protocol.dfy` is a state machine in which every `recv`, every
partial `write`, every `read`, every seek, every flag test, thread creation, list insertion, join,
and signal is a step of its own, and a run is any interleaving of enabled steps. `Sections.dfy`
holds the invariant of all reachable states. On top of it, `AtomicSpec.dfy` and `SharedFile.dfy`
prove that every run is an atomic run of "append a record" and "append a record and echo the file",
`Accounting.dfy` that nothing is lost and no echo is cut short except by failed calls of the run,
`Progress.dfy` that the mutex is always released within a bound, by connection threads and by the
timestamp thread, and nobody is stuck, `Lifecycle.dfy` that teardown is safe and timestamps are
accounted for, and `EndToEnd.dfy` what the file contains in the end. `Shutdown.dfy` proves when the
server can be brought to its end, and `WholeRuns.dfy` builds runs from start to end in which it
serves any number of clients. `Alarms.dfy` proves when an alarm is answered by a timestamp. System
calls return anything their contract allows: short writes, failed writes, short reads, failed
reads.

**The packet splitter and the I/O loops**, as imperative methods: `Splitter.dfy` (cutting a token
off a buffer in place) with `Stopping.dfy` (when the loop that does so stops), `Receiver.dfy` (the
growing receive buffer, the drain loop and the connection handler), `Files.dfy` (`write_all` with
its retry budget, copying the file to the socket, handling one packet) and `ThreadLists.dfy` (the
linked list of threads). How the kernel answers each call is a function of the number of the call;
`WriteLoop.dfy`, `CopyLoop.dfy` and `Sessions.dfy` say, as functions of these answers, exactly what
the methods do, and prove what that amounts to. `Splitting.dfy` is the simple specification "cut at
newlines". `SoloRuns.dfy` connects the two halves: for all answers of the kernel, what these
methods do alone is a run of the state machine.

**The circular buffer**: `Rings.dfy` (the ring as a value against an unbounded history, and
positions in the concatenation of its entries), `RingSearch.dfy` (the search in wrap-around
`size_t` arithmetic) and `CircularBuffers.dfy` (the structure and its operations).

Four promises do not hold for every input, and the exact conditions are proved:

- The drain loop (`server/server.c:335-342`) is meant to cut a message into its lines. The shift in
  `extract_token_and_consolidate_buffer` leaves old bytes at the end of the buffer, and `strlen`
  stops at a NUL. The loop equals splitting if and only if every line but the last has *slack* (its
  length with its newline, plus the length of everything from it to the last newline, is at most
  the buffer's length) and no line holds a NUL. Without slack it yields more packets than there are
  lines, or never stops. It never stops if and only if it gets to two or more lines that are all *too
  long*: each with its newline longer than what is behind the last newline. With lines like that from
  the start it never stops, however many there are; for two lines that is the exact condition; and
  for any buffer it is decided after as many rounds as the square of the length of its lines. The
  server can be brought to its end, from any state, if and only if no connection has such a loop.
- A connection thread stops receiving at the first `recv` that does not fill its chunk
  (`server/server.c:317-342`). What it has received up to there is handled exactly if and only if it
  holds no line at all, or the last `recv` was short, its lines have slack and they hold no NUL. A
  line that arrives after that is never handled, whatever it is: two lines that arrive in two
  short reads are an example.
- A SIGALRM asks for a timestamp. It is answered if and only if it does not come while the timestamp
  thread writes a record or is about to clear the flag after it (`server/server.c:82-86`): then it
  is lost.
- The search of the circular buffer (`aesd-char-driver/aesd-circular-buffer.c:55-93`) adds in
  `size_t`. It equals indexing into the concatenation if and only if the ring is empty, or the
  offset is below the largest `size_t` and the entry it falls on ends within `size_t`.

Fields of the state machine described as records of the past (`received`, `sent`, `taken`, `wrote`,
`lost`, `echoed`, `cut`, `log`, `alarms`, `started`, `late`, `joined`) are never read by a guard;
they are what the theorems are stated about.

## Model

| member | source | states |
|---|---|---|
| Splitting.SplitJoins | server/server.c:219-255 | cutting at newlines loses no byte, and neither the lines nor the rest hold a newline |
| Splitting.SplitUnique | server/server.c:219-255 | there is only one way to cut a string into newline-free lines and a newline-free rest |
| Splitter.ExtractToken | server/server.c:221-255 | one extraction on the array, byte by byte: NULL and no change without a newline; otherwise the bytes before the first newline or NUL, the bytes behind it moved to the front, and the last ones left as they were with a NUL for the newline |
| Splitter.CutAndMove | server/server.c:230-251 | the found-a-newline branch: NUL written over the newline, token copied, data moved to the front |
| Splitter.MoveToFront | server/server.c:243-248 | the shifting loop leaves the moved data followed by the unmoved last bytes |
| Splitter.CopyString | server/server.c:235-241 | the token is the string up to the first NUL, padded with NULs |
| Splitter.ExtractionCount | server/server.c:224-251 | the newline count falls by one, plus the newlines among the bytes left behind |
| Splitter.ExtractionProgress | server/server.c:224-251 | exactly one newline goes if and only if no other newline lies in the last bytes of the buffer, as many as were cut |
| Splitter.StaleNewline | server/server.c:245-248 | an extraction leaves a newline behind if and only if its line is not the last and has no slack |
| Splitter.CleanExtraction | server/server.c:221-255 | an extraction that leaves no newline behind removes exactly the first line and keeps the remainder in front |
| Splitter.DrainWithSlack | server/server.c:335-342 | with slack the loop stops after one packet per line, the packets are the lines, the remainder is at the front and no newline is left |
| Splitter.DrainPacketCount | server/server.c:335-342 | whenever the loop stops it has cut off at least one packet per newline, and more without slack |
| Splitter.DrainEqualsSplit | server/server.c:335-342 | the loop stops with exactly the lines if and only if the lines have slack and hold no NUL |
| Stopping.ShiftedLines | server/server.c:243-248 | an extraction that leaves a newline behind takes off the first line, and adds the lines of the bytes left behind, the first of them joined to the rest of the buffer |
| Stopping.LastStays | server/server.c:243-248 | such an extraction leaves the last newline in its place and never lowers the number of lines |
| Stopping.DrainDiverges | server/server.c:335-342 | on two or more lines that are all too long the loop never stops |
| Stopping.StopsOrGetsTooLong | server/server.c:335-342 | on every buffer the loop, within a bound on the rounds, stops or gets to lines that are all too long |
| Stopping.StoppingIsDecided | server/server.c:335-342 | the loop stops if and only if it does not get to such lines within that bound, which is if and only if it has stopped by then |
| Stopping.TwoLines | server/server.c:335-342 | with two lines the loop stops if and only if one of them is not too long, and then after two or three packets |
| Stopping.TwoNewlines | server/server.c:335-342 | the same by the places of two newlines |
| Handling.SomeDrainsNeverStop | server/server.c:317-342 | the same for received bytes: when the loop stops is decided within a bound that their lines tell; it never does if these are all too long, and for two lines only then |
| Handling.DrainOutcome | server/server.c:335-342 | whenever the loop stops, its packets are the lines if and only if there is slack and no NUL |
| Handling.SimpleClientsAreHandled | server/server.c:335-342 | a single line, or at most half a buffer, of NUL-free data is handled exactly |
| Handling.LinesOfAllSent | server/server.c:317-342 | the lines of what was received are the lines of everything sent if and only if nothing after it holds a newline |
| Handling.SecondShortReadIsLost | server/server.c:317-342 | of two lines that arrive in two short reads the first is handled exactly and the second never |
| Receiving.FullKeepsShape | server/server.c:289-305 | after a full read the buffer is again everything received followed by one cleared chunk, and the next read lands inside it |
| Receiving.ShortEndsReceiving | server/server.c:317-334 | after a short read the buffer is everything received followed by zeros, and it never has to grow |
| Receiver.GrowAndClear | server/server.c:294-304 | realloc and memset: old content kept up to the index, one chunk cleared from there |
| Receiver.ReceivePieces | server/server.c:276-334 | the receive loop ends at the first piece that is not full, or at a failed recv, or waits; after a short read the buffer is all pieces received, in order, followed by zeros |
| Receiver.StringLength | server/server.c:339 | strlen is the length of the string before its first NUL |
| Receiver.DrainBuffer | server/server.c:335-341 | the packet loop cuts off the packets of the drain loop and does to the file and the socket what handling them in order does, for all answers of the kernel |
| Receiver.ReadUntilStopCondition | server/server.c:274-347 | packets are handled only after a short nonempty read; an orderly shutdown, a failed recv or a wait handles none, and only a failed recv returns NULL |
| Receiver.HandleConnection | server/server.c:349-379 | the packets handled are those of the drain loop; they are the lines received if and only if these are what the server handles, and then the lines of everything sent if and only if no newline comes later; such bytes need no more rounds than lines, and a loop that has not stopped after a number of rounds that the bytes tell never stops; after an orderly shutdown nothing is handled and the last cut drops the first line |
| WriteLoop.WriteConserves | server/utils.c:49-85 | bytes are neither lost, repeated nor reordered by partial writes |
| WriteLoop.WriteCounts | server/utils.c:51-82 | failures are counted over the whole call, and every other write makes progress |
| WriteLoop.WriteAllOutcome | server/utils.c:49-85 | at most len + 20 writes; 0 exactly with the whole buffer written and at most 20 failures; -1 exactly with a strict prefix and 21 failures |
| WriteLoop.FailuresAreRetried | server/utils.c:57-72 | up to 20 failed writes are retried, and if the next takes everything the result is 0 |
| WriteLoop.FailuresExhaust | server/utils.c:61-76 | after 21 failed writes in a row nothing is written and no further call is made |
| CopyLoop.AnyPieceIsRead | server/utils.c:16-18 | a read asks for 1024 bytes, and any number up to that, and a failure, is taken into account |
| CopyLoop.CopySendsPrefix | server/utils.c:13-28 | what is sent is a prefix of what follows the offset, and all of it unless a read failed or a write_all gave up |
| CopyLoop.CopyIsCutByFailures | server/utils.c:13-28 | the loop stops at the first failed read, and gives up only after 21 failed writes |
| Sessions.LostExactly | server/server.c:265-267 | a record is incomplete if and only if 21 writes of the packet or 21 writes of the newline failed |
| Sessions.NewlineIsTried | server/server.c:265-267 | whatever became of the packet, the newline is tried with 21 calls of its own, and is written exactly when one of them succeeds |
| Sessions.CutExactly | server/server.c:268 | an echo is all of the file unless a read failed or 21 writes failed; a failed read always cuts it short |
| Sessions.HandleIsAtomic | server/server.c:257-272 | handling a packet is one legal atomic operation |
| Sessions.HandleAllIsAtomic | server/server.c:335-341 | handling packets in a row is a legal atomic run, one operation per packet |
| Sessions.HealthyHandling | server/server.c:257-272 | when no call fails, each packet and its newline are appended and then the whole file is sent |
| Files.WriteAll | server/utils.c:49-85 | the loop writes, calls and returns exactly what the answers to its calls make of it |
| Files.DuplicateData | server/utils.c:13-28 | the copying loop sends, reads, leaves as offset and returns exactly what the answers to its calls make of it |
| Files.SpitFile | server/utils.c:30-47 | the copy starts at the start of the file wherever the offset was, and the offset ends at the end |
| Files.HandlePacket | server/server.c:257-272 | alone, a critical section does to file and socket exactly what the answers make of it, and leaves the mutex free and the offset at the end |
| SoloRuns.HandlingIsARun | server/server.c:257-272 | for all answers of the kernel, what handle_packet does alone is a run of the state machine that commits its operation |
| SoloRuns.DrainingIsARun | server/server.c:335-342 | for all answers of the kernel, handling all packets of the drain loop alone is a run of the state machine that commits their operations in order |
| SoloRuns.ConnectionIsARun | server/server.c:274-347 | a whole connection alone, from its first recv to its end by a short read or an orderly shutdown, is a run of the state machine: same file, same bytes sent, same operations |
| AtomicSpec.FileIsRecords | server/server.c:257-272 | in an atomic run the file is its first content followed by every record once, in order |
| AtomicSpec.EchoIsSnapshot | server/utils.c:30-47 | in an atomic run an echo is a prefix of the file right after its own record, all of it unless cut short |
| AtomicSpec.EchoesChain | server/utils.c:13-47 | in an atomic run complete echoes form a chain of prefixes and any two echoes agree as far as both go |
| Sections.SectionKeeps | server/server.c:263-270 | every step of a critical section keeps what is written, lost, read, sent and pending in agreement with the file and the offset |
| Sections.ReleaseIsLegal | server/server.c:263-270 | a whole critical section is a legal atomic operation |
| Sections.ClientKeeps | server/server.c:257-347 | every step of a connection thread keeps the invariant |
| Sections.ClockKeeps | server/server.c:71-90 | every step of the timestamp thread keeps the invariant |
| Sections.StepKeepsFileInv | server/server.c:45-401 | every step of any thread keeps the invariant |
| Sections.RunKeepsFileInv | server/server.c:45-401 | the invariant holds after every run |
| Accounting.LossesAreDiskFailures | server/utils.c:57-76 | in any run, a client's records are all complete if and only if no disk write of its thread gave up |
| Accounting.CutsAreEchoFailures | server/utils.c:18-25 | in any run, a client's echoes are all complete if and only if no read of its thread failed and no write to its socket gave up |
| Accounting.LossesArePrintFailures | server/server.c:82-85 | in any run, the timestamps are all complete if and only if no write of one failed |
| SharedFile.Linearizable | server/server.c:257-272 | every interleaving is a legal atomic run in the order of the releases, plus what the one thread inside its critical section has done so far |
| SharedFile.OnlyFailuresLose | server/server.c:257-272 | every record of that run is complete unless a disk write of its thread gave up, and every echo is the whole file at that point unless a read or a write of its thread failed |
| SharedFile.StepCommitsAtMostOne | server/server.c:82-85 | a step commits at most one operation, the mutex holder's, and a connection thread leaves the offset at the end |
| SharedFile.OffsetIsBytesRead | server/utils.c:18-25 | while a thread echoes, the shared offset is the number of bytes it has read |
| SharedFile.HolderIsUndisturbed | server/server.c:263-270 | while a thread holds the mutex nobody else changes the file, the offset, the mutex, the log or that thread |
| SharedFile.ClientsSeeOneHistory | server/utils.c:13-47 | in any run each echo is a prefix of the file right after the client's own record, all of it when no read failed and no write gave up, and echoes to all clients form one history |
| Progress.HolderCanStep | server/server.c:263-270 | the thread inside its critical section holds the mutex and has an enabled step |
| Progress.CriticalSectionEnds | server/utils.c:13-85 | every step of the holder, connection or timestamp thread, releases the mutex or lowers a bound |
| Progress.StepsAtAcquire | server/server.c:263-270 | that bound, linear in the packet and the file, when a connection thread takes the mutex |
| Progress.StepsAtBegin | server/server.c:82-85 | that bound, linear in the text, when the timestamp thread takes it |
| Progress.HolderStepsAreBounded | server/utils.c:13-85 | over any run, a thread makes at most that many steps inside one critical section |
| Progress.NobodyIsStuck | server/server.c:257-347 | every connection thread that has not ended can go on, or the thread that holds the mutex it waits for can; every recv has room for a chunk |
| EndToEnd.PacketsOfExited | server/server.c:274-347 | an ended connection thread has handled the packets of its stopped drain loop, or none without a short read |
| EndToEnd.HandlesExactlyTheLines | server/server.c:274-347 | in any run an ended connection thread has handled exactly the lines it received if and only if these are what the server handles |
| EndToEnd.HandlesEverythingSent | server/server.c:317-342 | an ended connection thread has handled the lines of everything its client sent exactly if, besides, no newline came after the short read |
| EndToEnd.TakenIsBounded | server/server.c:335-342 | in every reachable state a connection thread has cut off no more packets than its loop does until it stops, with slack no more than lines received |
| EndToEnd.EndlessThreadBlocksTeardown | server/server.c:335-342 | a connection thread whose loop does not stop, as with lines that are all too long, never ends, and the server then never closes the file, frees the flags or removes the file |
| EndToEnd.FileIsShuffleOfLines | server/server.c:427-526 | when the server has closed the file it is its first content followed by a shuffle of the lines each connection received, in order and each once, and the timestamp records, with the exact condition per connection, where no disk write gave up |
| Lifecycle.DescendingOnce | server/server.c:92-99 | head insertion lists every thread exactly once |
| Lifecycle.StepKeepsLife | server/server.c:125-217 | every step keeps list, joined threads, main's progress and resources in agreement |
| Lifecycle.TeardownIsSafe | server/server.c:500-523 | once anything is torn down, all threads have ended and every connection thread was joined exactly once, newest first |
| Lifecycle.NoThreadAfterTeardown | server/server.c:512-523 | from then on only the main thread and signals make steps |
| Lifecycle.FlagsUntouched | server/signal_handle.c:37-59 | steps that do not touch the flags do the same whatever the flags are, and leave them as they are |
| Lifecycle.OnlySignalsTouchFreedFlags | server/signal_handle.c:108-123 | once the flags are freed, the steps that still touch them are exactly the signal handlers |
| Lifecycle.FlagStep | server/signal_handle.c:108-123 | exactly SIGINT, SIGTERM and the shutdown clear the run flag; exactly SIGALRM sets the timestamp flag and the timestamp thread clears it after a record |
| Lifecycle.ThreadsEndOnlyWhenTold | server/server.c:71-90 | in every reachable state the listen thread and the timestamp thread have ended only if the run flag is clear |
| Lifecycle.ListIsComplete | server/server.c:507-510 | after the listen thread is joined the list and the joined threads are all connection threads there will be |
| Lifecycle.NoThreadWithoutConnection | server/server.c:156-209 | a thread is created only for an accepted connection |
| Lifecycle.RunFlagStaysClear | server/signal_handle.c:55-59 | the run flag, once cleared, stays clear in every run |
| Lifecycle.StepKeepsClockInv | server/signal_handle.c:108-123 | an alarm pays for each record begun and for the one announced, except one begun because the server stops |
| Lifecycle.TimestampsArePaidFor | server/server.c:75-88 | in every run at most one more timestamp than alarms, and that one only after the run flag was cleared |
| Lifecycle.CanStamp | server/server.c:82-85 | the timestamp thread can append a whole record, or any part of it when a write fails |
| Alarms.AlarmStaysDue | server/signal_handle.c:118-122 | after an alarm the timestamp flag is set over any run until the timestamp thread clears it |
| Alarms.FlagIsAnswered | server/server.c:75-88 | from its waiting loop, with the flag set and the mutex free, the timestamp thread appends one record, clears the flag and waits again |
| Alarms.NoRecordWithoutAlarm | server/server.c:75-81 | as long as the run flag is set no record is begun without an alarm |
| Alarms.AlarmIsAnswered | server/server.c:75-88 | in every reachable state of a running server in which no connection thread holds the mutex, an alarm makes the timestamp thread begin another record if and only if that thread is neither at a record nor about to clear the flag after it |
| Lifecycle.ExtraTimestampHappens | server/server.c:75-88 | the extra timestamp does happen, with any text: a run without any alarm that ends with one record |
| Shutdown.WindDownStep | server/server.c:500-523 | in a server told to stop whose loops all stop there is always a step that brings the end nearer |
| Shutdown.CanEnd | server/server.c:500-523 | so it can be brought to its end, and what is idle stays as it is meanwhile |
| Shutdown.ListenerStopsSoon | server/server.c:125-217 | once the run flag is clear, whatever listen and accept return, the listen thread makes at most four more steps, and no connection gets a thread but one whose thread is just about to be created |
| Shutdown.ServerCanFinish | server/server.c:494-526 | from every reachable state there is a run to the end of the process if and only if the loop stops of every connection that has seen its short read |
| WholeRuns.RetryChangesNothing | server/server.c:137-171 | a listen or accept that fails with EAGAIN changes nothing but that the run flag is tested before the next try |
| WholeRuns.AcceptIsARun | server/server.c:133-213 | however often listen and accept fail with EAGAIN, the listen thread can accept a connection, create its thread and put it on the list |
| WholeRuns.AcceptsFromAnywhere | server/server.c:125-217 | from every reachable state of a running server it can get to one more connection, and nothing else changes |
| WholeRuns.ServerServesAndEnds | server/server.c:427-526 | for any number of clients that send what the server handles there is a run that serves them all and ends, torn down, with the file its first content followed by all their lines |
| ThreadLists.ThreadList.Add | server/server.c:92-99 | the new node is in front and the others follow as before, none of them freed |
| ThreadLists.ThreadList.JoinAll | server/server.c:389-400 | each thread joined once and each node freed once, in list order; no freed node read; the list ends empty |
| Rings.AddRepresents | aesd-char-driver/aesd-circular-buffer.c:195-217 | adding to a ring that stands for a history gives one that stands for the history with the entry |
| Rings.RingRefinesHistory | aesd-char-driver/aesd-circular-buffer.c:156-230 | after any calls from init, offsets, flag and slots are those of the accepted entries |
| Rings.AcceptedOffers | aesd-char-driver/aesd-circular-buffer.c:165-170 | the accepted entries are those with bytes, each as often as offered |
| Rings.FillHoldsLatest | aesd-char-driver/aesd-circular-buffer.c:156-230 | after any calls from init the buffer holds the last ten accepted entries, oldest first |
| Rings.WindowIsLatest | aesd-char-driver/aesd-circular-buffer.c:156-222 | the entries read from the output offset are exactly the last ten accepted |
| Rings.SlotsAreWindowAndClear | aesd-char-driver/aesd-circular-buffer.h:75-78 | all slots together are the entries held, each as often as held, and clear slots |
| Rings.LocateIsInRange | aesd-char-driver/aesd-circular-buffer.c:55-93 | a position is found if and only if it is below the total size, in an entry that has that byte |
| Rings.LocateIsIndexing | aesd-char-driver/aesd-circular-buffer.c:45-54 | what is found is the byte of the concatenation at that position |
| Rings.LocateFindsEveryByte | aesd-char-driver/aesd-circular-buffer.c:62-88 | the position computed from an entry and a byte leads back to them |
| Rings.LocateIsMonotone | aesd-char-driver/aesd-circular-buffer.c:62-88 | larger positions are never in an earlier entry or earlier in the same one |
| Rings.WindowSlidesOverStream | aesd-char-driver/aesd-circular-buffer.c:149-217 | after any calls an offset reads the stream of all accepted bytes that far behind the evicted ones |
| Rings.AddShiftsOffsets | aesd-char-driver/aesd-circular-buffer.c:198-217 | adding to a full ring lowers the offset of every byte that stays by the evicted size, same slot and place |
| RingSearch.SearchIsLocate | aesd-char-driver/aesd-circular-buffer.c:62-90 | the search with wrap-around equals indexing if and only if the ring is empty or neither offset + 1 nor the end of the entry overflows |
| RingSearch.SearchIsLocateWhenAllFits | aesd-char-driver/aesd-circular-buffer.c:62-90 | in particular when all sizes fit and the offset is below the maximum |
| RingSearch.SearchSlotIsExact | aesd-char-driver/aesd-circular-buffer.c:55-93 | the slot and byte returned are those of the concatenation under exactly that condition |
| RingSearch.AddShiftsSearch | aesd-char-driver/aesd-circular-buffer.c:198-217 | adding to a full ring lowers the offset at which the search finds any byte that stays by the evicted size |
| RingSearch.SearchSlidesOverStream | aesd-char-driver/aesd-circular-buffer.c:55-93 | after any calls, what the search finds is the byte that far behind the evicted ones in the stream of all accepted bytes |
| RingSearch.SearchFindsEveryByte | aesd-char-driver/aesd-circular-buffer.c:62-88 | the search of the position of a byte of an entry in use leads to its slot and the byte |
| RingSearch.SearchIsMonotone | aesd-char-driver/aesd-circular-buffer.c:62-88 | the search never finds a smaller offset in a younger entry |
| CircularBuffers.CircularBuffer.constructor | aesd-char-driver/aesd-circular-buffer.c:227-230 | the cleared structure stands for the empty history |
| CircularBuffers.CircularBuffer.FindEntryOffset | aesd-char-driver/aesd-circular-buffer.c:55-93 | the loop with its once flag terminates, visits slots in use in order and each at most once, full or not, stops at the slot it finds or after all, and returns what the search over the window returns |
| CircularBuffers.CircularBuffer.ForEach | aesd-char-driver/aesd-circular-buffer.h:75-78 | the loop meets every entry held exactly as often as it is held, and otherwise clear slots |
| CircularBuffers.AddEntry | aesd-char-driver/aesd-circular-buffer.c:156-222 | refused are exactly NULL arguments, entries without bytes and offsets past 10, and these change nothing; any other entry is added, whatever the state, full or not; in a ring that stands for a history the window is then the last ten accepted; an input offset of exactly 10 is told apart as out of bounds |
| CircularBuffers.AddAll | aesd-char-driver/aesd-circular-buffer.c:156-230 | any calls on a new buffer leave the accepted entries as its history and the last ten of them in it |

## Left out

- DrainBuffer: stops after a given number of packets, because the loop of the source need not end; every theorem about the loop is for all numbers of rounds.
- AddEntry: for an input offset of exactly 10, which passes the checks of the source, it reports the write behind the array instead of performing it.
- FindEntryOffset: requires offsets inside the array, and a full flag only with equal offsets, as init and add leave them.
- Remove: only the branch of SLIST_REMOVE for the first node, the one the shutdown takes; sys/queue.h is not part of this model.
- HandlePacket: the imperative form runs the critical section alone; interleavings are in the state machine, of which it is a run (SoloRuns.HandlingIsARun).
- HandleConnection: after a failed `recv` (server/server.c:306-310) the source goes on to search a NULL buffer; the method ends there, and a failed `recv` is not a step of the state machine.
- SIGPIPE: a write to a socket whose other end is closed ends the process by default, before `write_all` counts a failure; the model only knows the failed write.
- Failed seeks, exhausted memory and the `exit` paths are not steps of the model.
- Signals after the flags have been freed only change model fields; the model says that they touch freed memory (Lifecycle.OnlySignalsTouchFreedFlags), not what that does.
- The timestamp text is any string followed by a newline, and a write of it may fail anywhere, which ends the printing; formatting and sleeping are left out.
- Sockets, addresses and names of threads (server/network_utils.c), daemon mode, logging and printing have no effect on the modelled state.
- `_is_listening_flag` is set once and never read.
- Clients that never send, and reads or writes that never return, are not excluded: safety, bounds on steps, absence of deadlock and the possibility of ending are proved, not that a scheduler takes the steps to it.
- finder-app, examples, scripts and build files.
- The printing of the circular buffer and its locking, which the source leaves to the caller.
