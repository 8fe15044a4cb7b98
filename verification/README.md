# Verified models of the operating-systems course programs

The course ships small, complete concurrent and network programs with its
lectures and labs. This project models twelve of them, operation by operation,
and proves what they promise for every interleaving, every network and every
input.

| module | program | what is proved about it |
|---|---|---|
| `Futex` | futex mutex around a shared counter | exclusion, no lost wake-up, can always finish, no lost update |
| `UdpServer`, `UdpClient`, `UdpTransfer`, `UdpRoom`, `FileChunks` | stop-and-wait file transfer over UDP | the transcript printed for each client, what a confirmation proves, when a part is printed twice, exactly when a transfer can still be completed |
| `BoundedBuffer` | ring buffer with three semaphores | first in first out, no overwriting, the exact condition for a complete run |
| `ReadersWriters` | monitor with one condition variable | exclusion, no lost update, whom the single signal wakes, nobody is stranded |
| `LineProtocol`, `LineServer`, `LineAnswers` | blocking line-command server | framing of every byte stream under every segmentation, exact answers |
| `EpollServer`, `EpollRefinement` | the same server as a non-blocking state machine | it refines the blocking one under any fragmentation and any partial writes |
| `Peterson` | Peterson's lock around bank transfers | exclusion, bounded waiting, money is conserved and moves as the transfers say |
| `DiningPhilosophers` | ring of semaphores | the full circle is the only deadlock, and the only fatal state |
| `BarrierGame` | dice game with two barriers a round | the scores after every round, that the shared rolls are stable while they are judged, and that the game ends |
| `Students` | year counters under deferred cancellation | counters are exact at every step, whom a cancellation reaches, every run ends |
| `KvStore` | fixed table of key/value slots | from the bytes sent to the bytes answered it agrees with a finite map, and exactly when it executes what was sent |

`Common.dfy` holds the vocabulary the models share: optional values, runs of a
step function, sums over threads, division with remainder.

## How a program is modelled

For a concurrent program there is a `State`, and a function `Step` that gives the
state after one operation of one thread, or `None` when that operation has to
wait. A run is any sequence of actions, each enabled in its turn (`Traces.Run`);
`Reaches(init, s)` says that some run leads from an initial state to `s`. Theorems
quantify over all reachable states, with the number of threads, the buffer size
and the iteration counts as parameters. The class at the end of each module holds
the shared variables in fields and arrays and changes them in place; each of its
methods is one operation and is proved to be the step of the specification. The
sequential programs are methods with the loops of the source, proved against
specification functions.

Assumptions about the platform:

- Atomics are sequentially consistent. `++`, `+=` and `-=` on plain variables are
  a load and a store.
- `FUTEX_WAIT` compares and sleeps in one step, and `pthread_cond_wait` releases
  the mutex and joins the wait set in one step. Either may also return for no
  reason. A wake or a signal wakes exactly one waiter if there is one.
- A barrier releases all threads together and elects one of them.
- A cancellation request that is pending when the thread calls `nanosleep` is
  acted upon in that call; one that arrives during the sleep may be acted upon or
  stay pending.
- The network loses, repeats and reorders datagrams in both directions, but does not
  forge or damage them. What it holds can be delivered any number of times until it
  drops its copies. Part numbers fit in `int32_t`.
- `read`, `recv`, `write` and `send` move any number of bytes they are allowed to
  move, or fail. Once a `send` of the blocking line server has failed, nothing more
  goes out on that connection; one that fails for a passing reason, after which the
  code goes on to the next command, is not modelled. Characters stand for bytes.
- `long` and `long long` are 64 bits wide and wrap around in `recursive_burn`; a
  number that does not fit is read as the nearest one that does.
- Random numbers, the scheduler, the kernel's choice of a sleeper and the clock
  are free choices of the run.

## Where the code differs from what is said about it

- The description of the UDP exercise (content/sop2/lab/l8/_index.en.md) promises that
  the server cannot print the same part more than once. It can:
  `UdpServer.EmptyFilePrintedTwice` gives the smallest run, and
  `UdpServer.ReprintsExactlyWhenRestarted` says exactly when.
- The same description wants lost packets and confirmations to be made up for. The
  loss of one confirmation, that of the last of several parts, cannot be: the last
  part has freed the slot, a resend of it claims a fresh one that expects part 1, and
  no answer comes. `UdpTransfer.LostReplyIsFatal` gives the run for every file of at
  least two parts, `UdpRoom.CompletesExactly` says exactly when a transfer can still
  be completed, and `UdpRoom.StrandedMeansPrinted` that otherwise, as long as the
  client has an attempt left and can have a slot, the server has the whole file.
- The same description gives the client five attempts and an error exit. The code
  makes a sixth exactly if none of the first five is confirmed
  (`UdpClient.SixthAttemptExactly`, `UdpClient.SilentNetwork`). The exit itself is not
  modelled; by reading content/sop2/lab/l8/l8-1_client.c:89-94, it is that of success.
- The key/value server receives at most 255 bytes of a WRITE's payload and takes
  the rest for the next requests. `KvStore.ParsedExactly` says when it executes what
  was sent, `KvStore.OverlongWriteDeletes` gives a WRITE that deletes its own key.
- The same server announces no text in its answer to FIRE and sends one. A client that
  reads as many bytes as each header announces reads what is meant if and only if it
  sends no FIRE (`KvStore.EndToEnd`). After a FIRE it reads one empty OK and then
  nothing until 0x69726521 more bytes have come, because it takes the text for a header
  that announces so many
  (`KvStore.FireEndsTheAnswers`). The course's own client exits after a FIRE.
- `main` of the bounded buffer divides the items among the consumers with an
  integer division. With a remainder the program still finishes as long as the
  remainder fits in the buffer, and otherwise gets stuck
  (`BoundedBuffer.MainFinishesExactly`).
- The two line servers do not answer every command alike.
  `EpollServer.AgreeExactly` says which ones they do.
- A line with more than 1022 bytes or with a NUL is not executed as such;
  `LineServer.FramingExact` says that these are the only exceptions, and
  `LineServer.RemaindersExecuted` what is executed of an overlong line.

## Model

| member | source | states |
|---|---|---|
| `Futex.StepKeepsInv` | content/sop2/wyk/sync/code/futex.c:23-62 | Every operation of every thread, every wake-up and every spurious return keeps the invariant: the lock word counts the owners, sleepers have a rescuer, the counter is the sum of the contributions. |
| `Futex.MutualExclusion` | content/sop2/wyk/sync/code/futex.c:23-42 | For any number of threads at most one is in the critical section or between the two stages of unlock; the lock word is 0, 1 or 2, and 0 exactly when there is no owner. |
| `Futex.NoLostWakeUp` | content/sop2/wyk/sync/code/futex.c:23-42 | While a thread sleeps, the word is 2 or some thread is about to store 0, about to wake, or awake and about to exchange in 2; in any case somebody is awake and unfinished. |
| `Futex.Progress` | content/sop2/wyk/sync/code/futex.c:23-62 | Unless all are done, some non-spurious step brings the program nearer its end. |
| `Futex.CanFinish` | content/sop2/wyk/sync/code/futex.c:23-62 | From every reachable state a finite continuation without spurious wake-ups ends all threads. |
| `Futex.FinalCounter` | content/sop2/wyk/sync/code/futex.c:44-62 | When all have ended the counter is increments minus decrements: no update is lost. |
| `Futex.BalancedProgramEndsAtZero` | content/sop2/wyk/sync/code/futex.c:64-93 | With as many decrementers as incrementers the printed counter is 0. |
| `Futex.CounterRange` | content/sop2/wyk/sync/code/futex.c:44-62 | At all times the counter lies between what all decrements and all increments amount to. |
| `Futex.FreeRound` | content/sop2/wyk/sync/code/futex.c:23-62 | At a free lock four operations and no system call take a thread through a round: the counter has moved by one in its direction, the lock is free again, nobody else is touched. |
| `Futex.TakenPutsToSleep` | content/sop2/wyk/sync/code/futex.c:23-35 | At a lock that is taken three operations put the thread to sleep, with the word at 2 and nothing else changed. |
| `Futex.UnlockWakesOne` | content/sop2/wyk/sync/code/futex.c:37-42 | The owner of a lock with a sleeper frees it in three operations and wakes that one sleeper, no other. |
| `Futex.Program.constructor` | content/sop2/wyk/sync/code/futex.c:13-17 | The program starts with the lock word and the counter at 0 and every thread at its loop test. |
| `Futex.Program.Lock` | content/sop2/wyk/sync/code/futex.c:23-35 | One atomic operation or system call of `lock`, in place, is the specified step. |
| `Futex.Program.Access` | content/sop2/wyk/sync/code/futex.c:44-62 | The load and the store of the counter are the specified steps. |
| `Futex.Program.Unlock` | content/sop2/wyk/sync/code/futex.c:37-42 | The stages of `unlock`, with the kernel's choice of a sleeper, are the specified steps. |
| `FileChunks.OneLastPart` | content/sop2/lab/l8/l8-1_client.c:50-57 | Exactly the last part is flagged last, also when the size is a multiple of 568; every part fills its datagram. |
| `FileChunks.PartsMakeTheFile` | content/sop2/lab/l8/l8-1_client.c:45-69 | The payloads of all parts in order, 568 bytes each, are the file followed by zeros, at least one and at most 568 of them. |
| `FileChunks.CyclicIsRepeat` | content/sop2/lab/l8/l8-1_server.c:82-101 | A log that runs through the parts over and over is a number of whole copies followed by the beginning of one. |
| `UdpServer.Server.constructor` | content/sop2/lab/l8/l8-1_server.c:67-71 | The table starts with five free slots and nothing printed. |
| `UdpServer.Server.FindIndex` | content/sop2/lab/l8/l8-1_server.c:42-63 | Returns the address's own slot if it has one, else claims the last free one, else -1; nothing else in the table changes. |
| `UdpServer.Server.Serve` | content/sop2/lab/l8/l8-1_server.c:82-110 | One turn of the server loop: the table, what is printed and whether the datagram is echoed, for the expected, an earlier and a later part. |
| `UdpServer.ReceiveMovesLive` | content/sop2/lab/l8/l8-1_server.c:82-101 | One datagram moves the expected part of its own sender by one, or back to the start after the last part, and nobody else's. |
| `UdpServer.ReceiveKeepsInv` | content/sop2/lab/l8/l8-1_server.c:42-101 | No two slots in use share an address, and each client's printed parts run through its file in cycles up to the number in its slot. |
| `UdpServer.Transcript` | content/sop2/lab/l8/l8-1_server.c:65-112 | For any genuine datagrams in any order: what is printed for a client is n complete copies of its parts, then parts 1 to c, with c the number in its live slot or 0. |
| `UdpServer.SixthClientIgnored` | content/sop2/lab/l8/l8-1_server.c:55-62 | While all slots serve others a datagram changes nothing and is not echoed. |
| `UdpServer.MoreMeansRestart` | content/sop2/lab/l8/l8-1_server.c:89-101 | More than one copy is printed if and only if a first part was delivered, with a slot to be had, after the last part. |
| `UdpServer.ReprintsExactlyWhenRestarted` | content/sop2/lab/l8/_index.en.md:76 | The promise that no part is printed twice fails exactly when such a delivery happened. |
| `UdpServer.EmptyFilePrintedTwice` | content/sop2/lab/l8/l8-1_server.c:89-101 | The only part of an empty file, delivered twice, is printed twice. |
| `UdpClient.InputFile.Read` | content/sop2/lab/l8/l8_common.h:101 | What `read` may do: fail, report the end, or deliver some of the bytes asked for. |
| `UdpClient.BulkRead` | content/sop2/lab/l8/l8_common.h:95-111 | Short reads are put together: the result is -1 or everything up to the count or the end of the file, written where it was asked for and nowhere else. |
| `UdpClient.ReadPart` | content/sop2/lab/l8/l8-1_client.c:47-57 | The datagram built from the file is part k, zero padded and flagged; its size is 568 exactly if more parts follow. |
| `UdpClient.SendUntilConfirmed` | content/sop2/lab/l8/l8-1_client.c:58-67 | The inner loop makes at most six attempts and ends confirmed or after exactly six. |
| `UdpClient.DoClient` | content/sop2/lab/l8/l8-1_client.c:37-70 | For any sequence of replies and timeouts the client ends, finished or given up, as the specification of its exchanges says. |
| `UdpClient.AfterInv` | content/sop2/lab/l8/l8-1_client.c:45-69 | After any number of exchanges each part was sent between once and six times if earlier, as often as the counter says if current, and never if later. |
| `UdpClient.WhatIsSent` | content/sop2/lab/l8/l8-1_client.c:45-69 | For any network only parts of the file are sent, each at most six times, only the last one flagged last; the client gives up only after six attempts. |
| `UdpClient.SilentNetwork` | content/sop2/lab/l8/_index.en.md:76 | Without any reply the client sends the first part six times and gives up. |
| `UdpClient.SixthAttemptExactly` | content/sop2/lab/l8/l8-1_client.c:58-67 | A part is sent a sixth time, at whatever later time one looks, if and only if none of the first five exchanges about it brought its confirmation. |
| `UdpTransfer.StepKeepsInv` | content/sop2/lab/l8/l8-1_client.c:19-69 | Sending, losing in either direction, repeating, reordering, echoing and timing out keep: a client is never ahead of what was printed for it and, before its last part, at most one part behind; an echo of part k means part k was printed. |
| `UdpTransfer.Transcript` | content/sop2/lab/l8/l8-1_server.c:65-112 | The transcript theorem for clients, server and network together. |
| `UdpTransfer.FinishedMeansPrinted` | content/sop2/lab/l8/l8-1_client.c:60-69 | If a client leaves through its size test, a complete copy of its file has been printed, in order and first. |
| `UdpTransfer.ConfirmedMeansPrinted` | content/sop2/lab/l8/l8-1_client.c:60-69 | Every part a client has moved past has been printed at its place. |
| `UdpTransfer.SixAttempts` | content/sop2/lab/l8/l8-1_client.c:58-67 | No part is sent more than six times; who has given up has sent its current part exactly six times. |
| `UdpTransfer.CanConfirm` | content/sop2/lab/l8/l8-1_client.c:60-69 | With a slot for the client, its current part can be confirmed if its reply is on its way, or the part and all that the server lacks before it are on their way or can be sent; the server then expects the next part. |
| `UdpTransfer.CompletesExactly` | content/sop2/lab/l8/l8-1_server.c:82-109 | From every reachable state with a slot for the client, its transfer can be completed if and only if it is through or its current part can be confirmed in that way. |
| `UdpTransfer.OnlyConfirmableCompletes` | content/sop2/lab/l8/l8-1_server.c:82-109 | With or without a slot: a transfer that can still be completed is through or has a confirmable part. |
| `UdpTransfer.QuietExactly` | content/sop2/lab/l8/l8-1_server.c:84-88 | With a slot, an attempt left and nothing of the client's on its way, it can be completed if and only if its part is not beyond the one the server expects. |
| `UdpRoom.MakeRoom` | content/sop2/lab/l8/l8-1_server.c:91-95 | A served client that can still bring its last part to the server frees its slot, without disturbing anybody else's transfer. |
| `UdpRoom.SlotExactly` | content/sop2/lab/l8/l8-1_server.c:42-63 | From every reachable state a client can get a slot if and only if it has one, one is free, or a served client can still bring its last part to the server. |
| `UdpRoom.CompletesExactly` | content/sop2/lab/l8/l8-1_server.c:82-109 | From every reachable state, whatever slots there are: a transfer can be completed if and only if it is through, or its part can be confirmed and the reply is on its way or the client has or can get a slot. |
| `UdpRoom.StrandedMeansPrinted` | content/sop2/lab/l8/l8-1_server.c:89-101 | A client with an attempt left that has or can get a slot and still can no longer complete is at the last of several parts, and its whole file has been printed. |
| `UdpTransfer.LostReplyIsFatal` | content/sop2/lab/l8/_index.en.md:76 | For every file of at least two parts there is a run in which one lost reply leaves the client, at its first attempt and with a slot, unable ever to complete. |
| `BoundedBuffer.StepKeepsInv` | content/sop2/wyk/sync2/code/bounded_buffer_sem.c:22-56 | Every operation keeps both token equations, the positions of `in` and `out`, and that what is unread is still in its slot. |
| `BoundedBuffer.Fifo` | content/sop2/wyk/sync2/code/bounded_buffer_sem.c:22-56 | For any producers, consumers and buffer size, the values consumed are a prefix of the items produced. |
| `BoundedBuffer.ProducerOrder` | content/sop2/wyk/sync2/code/bounded_buffer_sem.c:23-31 | Each producer's items are consumed in the order it made them, without gaps. |
| `BoundedBuffer.ConsumedNumbers` | content/sop2/wyk/sync2/code/bounded_buffer_sem.c:23-31 | The numbers consumed from producer `id` are id * 100, id * 100 + 1 and so on, in this order and without gaps. |
| `BoundedBuffer.ConsumedNumbersDiffer` | content/sop2/wyk/sync2/code/bounded_buffer_sem.c:24 | With at most 100 items each no number is consumed twice: the data are unique. |
| `BoundedBuffer.NoOverwriteNoUnderrun` | content/sop2/wyk/sync2/code/bounded_buffer_sem.c:29-31 | A store never hits a slot with an unread item; a load always finds the oldest one. |
| `BoundedBuffer.StuckExactly` | content/sop2/wyk/sync2/code/bounded_buffer_sem.c:22-56 | Where nobody can move, all are done if and only if between 0 and one buffer of items are left over by the consumers' shares. |
| `BoundedBuffer.AllDoneSemaphores` | content/sop2/wyk/sync2/code/bounded_buffer_sem.c:73-77 | When all have finished the semaphores are back, up to the items left in the buffer. |
| `BoundedBuffer.EveryRunEnds` | content/sop2/wyk/sync2/code/bounded_buffer_sem.c:22-56 | No schedule has more than six steps per item, and those of that length are the complete ones. |
| `BoundedBuffer.MainFinishesExactly` | content/sop2/wyk/sync2/code/bounded_buffer_sem.c:41-55 | The program of `main` completes if and only if what the integer division leaves over fits in the buffer; if it divides evenly everything is consumed and the semaphores are at their initial values. |
| `BoundedBuffer.SharedBuffer.constructor` | content/sop2/wyk/sync2/code/bounded_buffer_sem.c:69-93 | The initial indices and semaphores, and the processes that `main` forks. |
| `BoundedBuffer.SharedBuffer.ProducerStep` | content/sop2/wyk/sync2/code/bounded_buffer_sem.c:22-38 | One operation of a producer, in place, is the specified step. |
| `BoundedBuffer.SharedBuffer.ConsumerStep` | content/sop2/wyk/sync2/code/bounded_buffer_sem.c:40-56 | One operation of a consumer, in place, is the specified step; what it takes is what is logged as consumed. |
| `ReadersWriters.StepKeepsInv` | content/sop2/wyk/sync2/code/readers_writers_cv.c:18-75 | Every operation, signal, broadcast and spurious wake-up keeps the counts, the exclusion and that waiters have somebody bound to notify. |
| `ReadersWriters.Exclusion` | content/sop2/wyk/sync2/code/readers_writers_cv.c:24-73 | A writer inside excludes every other reader and writer. |
| `ReadersWriters.SharedData` | content/sop2/wyk/sync2/code/readers_writers_cv.c:33 | In every run the shared value is ten for each time a writer has left its body: no update is lost. |
| `ReadersWriters.EntersExactly` | content/sop2/wyk/sync2/code/readers_writers_cv.c:24-60 | With the mutex free a thread at the entry goes on to wait exactly if a writer is inside or, for a writer, anybody is; otherwise its next operations take it into its body. |
| `ReadersWriters.WhoWakes` | content/sop2/wyk/sync2/code/readers_writers_cv.c:36-72 | After a writer's broadcast nobody waits; only a reader that leaves nobody inside signals; any other reader wakes nobody. |
| `ReadersWriters.NoReaderWaits` | content/sop2/wyk/sync2/code/readers_writers_cv.c:54-58 | With the mutex free and no writer inside, no reader is in the wait set. |
| `ReadersWriters.SignalWakesWriter` | content/sop2/wyk/sync2/code/readers_writers_cv.c:67-72 | The single signal of the last reader can only reach a writer. |
| `ReadersWriters.WokenWriterCanProceed` | content/sop2/wyk/sync2/code/readers_writers_cv.c:25-42 | With nobody inside and the mutex free, a waiter implies a woken writer that can lock the mutex and passes its test. |
| `ReadersWriters.NobodyStranded` | content/sop2/wyk/sync2/code/readers_writers_cv.c:18-75 | From every reachable state every thread can still get inside, without any spurious wake-up. |
| `ReadersWriters.Monitor.constructor` | content/sop2/wyk/sync2/code/readers_writers_cv.c:10-16 | The initial counts and data, and the threads with their roles. |
| `ReadersWriters.Monitor.WriterStep` | content/sop2/wyk/sync2/code/readers_writers_cv.c:18-45 | One operation of a writer, in place, is the specified step. |
| `ReadersWriters.Monitor.ReaderStep` | content/sop2/wyk/sync2/code/readers_writers_cv.c:47-75 | One operation of a reader, in place, is the specified step. |
| `LineProtocol.ReadBack` | content/sop2/wyk/servers/code/dumb_common.c:132-137 | A number printed with `%lld` is read back by `atoll`, for the whole 64-bit range. |
| `LineProtocol.BurnIsTriangular` | content/sop2/wyk/servers/code/dumb_common.c:77-86 | The recursion computes the triangular number modulo 2^64. |
| `LineProtocol.BurnExact` | content/sop2/wyk/servers/code/dumb_common.c:77-86 | Up to a depth of 2^32 - 1 the result is the exact sum. |
| `LineProtocol.Decimal64` | content/sop2/wyk/servers/code/dumb_common.c:136-137 | The number in an answer takes at most 20 characters, so the answer fits its buffer. |
| `LineServer.SendStream` | content/sop2/wyk/servers/code/dumb_common.c:144-163 | However the chunks are accepted, exactly the requested bytes and the trailer go out, or a prefix if the connection breaks. |
| `LineServer.Execute` | content/sop2/wyk/servers/code/dumb_common.c:116-169 | One command line is answered with exactly its reply. |
| `LineServer.FindNewline` | content/sop2/wyk/servers/code/dumb_common.c:112 | The search stops at the first newline or NUL of the buffer's text and never leaves it. |
| `LineServer.MoveRest` | content/sop2/wyk/servers/code/dumb_common.c:171-176 | What follows the newline comes to the front of the buffer. |
| `LineServer.Drain` | content/sop2/wyk/servers/code/dumb_common.c:111-177 | The inner loop ends, with all indices in range, and executes the commands that feeding the buffer's bytes to the framing automaton gives. |
| `LineServer.Fill` | content/sop2/wyk/servers/code/dumb_common.c:102-109 | What is received joins what the buffer holds, as if fed byte by byte. |
| `LineServer.HandleClient` | content/sop2/wyk/servers/code/dumb_common.c:89-185 | For every byte stream and every segmentation the answers sent are those to the commands of the stream read so far, or a prefix if the connection breaks. |
| `LineServer.FeedAllConcat` | content/sop2/wyk/servers/code/dumb_common.c:101-114 | Feeding a stream in two pieces is feeding it whole. |
| `LineServer.FramingExact` | content/sop2/wyk/servers/code/dumb_common.c:101-114 | The commands are exactly the lines of the stream if and only if every line has at most 1022 bytes and no NUL. |
| `LineServer.RemaindersExecuted` | content/sop2/wyk/servers/code/dumb_common.c:101-182 | Of a stream without NUL every line is executed, short of its full buffers: what is left after the largest multiple of 1023 bytes. |
| `LineServer.SplitJoin` | content/sop2/wyk/servers/code/dumb_common.c:111-114 | Lines joined by newlines are split into the same lines. |
| `LineServer.AnswersToLines` | content/sop2/wyk/servers/code/dumb_common.c:101-182 | Fitting lines sent one after the other are the commands executed. |
| `LineAnswers.NumberReads` | content/sop2/wyk/servers/code/dumb_common.c:132 | A number is read from blanks, a sign and digits, whatever follows; one out of range is read as the nearest 64-bit number. |
| `LineAnswers.NoNumber` | content/sop2/wyk/servers/code/dumb_epoll.c:98-110 | Without digits there is no number: `atoll` gives 0, and `sscanf` leaves the default. |
| `LineAnswers.BurnAnswer` | content/sop2/wyk/servers/code/dumb_common.c:128-139 | `BURN n` is answered by both servers with RESULT and the sum of 1 to n, exactly for n up to 2^32 - 1 and off by a multiple of 2^64 beyond. |
| `LineAnswers.BurnNothing` | content/sop2/wyk/servers/code/dumb_epoll.c:95-106 | Without a number, or with one that is not positive, both servers answer RESULT 0. |
| `LineAnswers.BurnThree` | content/sop2/wyk/servers/code/dumb_common.c:77-86 | `BURN 3` is answered with RESULT 6. |
| `LineAnswers.StreamAnswer` | content/sop2/wyk/servers/code/dumb_common.c:140-163 | `STREAM n` is answered by both servers with n letters A and DONE. |
| `LineAnswers.StreamAnswersDiffer` | content/sop2/wyk/servers/code/dumb_epoll.c:107-114 | A negative size is DONE at once for the blocking server and never for the other; no size at all is 0 for the one and 65536 for the other. |
| `LineAnswers.PingAnswer` | content/sop2/wyk/servers/code/dumb_epoll.c:89-94 | Whatever begins with PING is answered with PONG by both servers. |
| `LineAnswers.WaitAnswer` | content/sop2/wyk/servers/code/dumb_common.c:121-127 | WAIT is answered with DONE by the blocking server only. |
| `LineAnswers.UnknownAnswer` | content/sop2/wyk/servers/code/dumb_common.c:165-169 | Any other line is UNKNOWN_COMMAND for the blocking server; the epoll server is silent. |
| `EpollServer.DispatchInv` | content/sop2/wyk/servers/code/dumb_epoll.c:85-126 | A complete command puts the connection at the beginning of its answer, with the mask of its phase; only a command without an answer keeps it reading. |
| `EpollServer.ReadKeepsInv` | content/sop2/wyk/servers/code/dumb_epoll.c:69-129 | Whatever bytes arrive, the mask is EPOLLIN exactly in the reading phase and the next read has room. |
| `EpollServer.ForgottenIsGone` | content/sop2/wyk/servers/code/dumb_epoll.c:115-126 | After a line it does not know, or a full buffer without a newline, the connection answers any further events byte for byte as a new connection does. |
| `EpollServer.WriteKeepsInv` | content/sop2/wyk/servers/code/dumb_epoll.c:132-211 | Whatever part of the offer is taken, the answer is continued where it stopped, and the connection reads again exactly when the answer is complete. |
| `EpollServer.WrittenIsPrefix` | content/sop2/wyk/servers/code/dumb_epoll.c:132-211 | In every writing phase the bytes written since the command are a proper prefix of its answer, unless the stream size is negative. |
| `EpollServer.NegativeStreamNeverEnds` | content/sop2/wyk/servers/code/dumb_epoll.c:170-190 | A negative size is never satisfied: each write offers a full chunk and nothing but the filling byte goes out. |
| `EpollServer.AgreeExactly` | content/sop2/wyk/servers/code/dumb_epoll.c:89-119 | The two servers answer a line alike if and only if it is PING, `BURN ` anything, or `STREAM ` with a size that is there and not negative. |
| `EpollServer.Client.constructor` | content/sop2/wyk/servers/code/dumb_epoll.c:53-59 | A new connection reads, with an empty buffer and EPOLLIN. |
| `EpollServer.Client.HandleRead` | content/sop2/wyk/servers/code/dumb_epoll.c:69-129 | The read handler, in place, makes the specified transition and tells whether the connection lives. |
| `EpollServer.Client.RunCommand` | content/sop2/wyk/servers/code/dumb_epoll.c:89-122 | The command branches, in place, including the answer formatted over the read buffer. |
| `EpollServer.Client.HandleWrite` | content/sop2/wyk/servers/code/dumb_epoll.c:132-211 | The write handler, in place, makes the specified transition and sends the taken part of the offer. |
| `EpollRefinement.StepKeepsInv` | content/sop2/wyk/servers/code/dumb_epoll.c:283-288 | Reads and writes of any size, EAGAIN and the client's moves keep: the buffer holds the line so far, or what was written is the beginning of its answer. |
| `EpollRefinement.OutputIsBlockingOutput` | content/sop2/wyk/servers/code/dumb_epoll.c:69-211 | At all times the client has received a prefix of what the blocking server answers to the lines so far. |
| `EpollRefinement.AnswerIsOneLine` | content/sop2/wyk/servers/code/dumb_common.c:116-169 | Every answer ends with a newline and has no other. |
| `EpollRefinement.ReadingMeansAnswered` | content/sop2/wyk/servers/code/dumb_epoll.c:132-211 | Once a line has been read and the connection waits for EPOLLIN again, all of the blocking server's answers so far have been received. |
| `EpollRefinement.NextLineMeansAnswered` | content/sop2/wyk/servers/code/dumb_epoll.c:132-211 | A client that only counts ends of line moves on exactly at the end of the complete answer, when the server reads again. |
| `EpollRefinement.RefinesBlockingServer` | content/sop2/wyk/servers/code/dumb_epoll.c:69-211 | After all lines a client that moves on at each end of line holds exactly the blocking server's answers to the same byte stream. |
| `EpollRefinement.CanFinish` | content/sop2/wyk/servers/code/dumb_epoll.c:251-297 | From every reachable state the conversation can be brought to its end. |
| `Peterson.StepKeepsInv` | content/sop2/wyk/sync/code/peterson_atomic.c:17-61 | Every load and store of either thread keeps the lock's and the money's invariant. |
| `Peterson.MutualExclusion` | content/sop2/wyk/sync/code/peterson_atomic.c:17-26 | The two threads are never inside together, although the guard is read in two loads. |
| `Peterson.BoundedWaiting` | content/sop2/wyk/sync/code/peterson_atomic.c:17-22 | After a thread has stored `turn`, the other enters at most once before it does. |
| `Peterson.NotBothBlocked` | content/sop2/wyk/sync/code/peterson_atomic.c:21 | If both wait, one of them gets in by its own next one or two loads. |
| `Peterson.MoneyIsConserved` | content/sop2/wyk/sync/code/peterson_atomic.c:31-61 | No balance becomes negative, and the total is the initial one whenever nobody transfers. |
| `Peterson.BalancesAreTheLedger` | content/sop2/wyk/sync/code/peterson_atomic.c:31-61 | In every run the visits of each thread are its transfers in order, and whenever nobody is inside the balances are the initial ones with these transfers paid one after the other in the order of the visits. |
| `Peterson.CanFinish` | content/sop2/wyk/sync/code/peterson_atomic.c:40-61 | From every reachable state both threads can finish all their transfers. |
| `Peterson.Bank.constructor` | content/sop2/wyk/sync/code/peterson_atomic.c:28-29 | The initial flags, turn and balances. |
| `Peterson.Bank.Lock` | content/sop2/wyk/sync/code/peterson_atomic.c:17-22 | One store or load of the lock, in place, is the specified step. |
| `Peterson.Bank.TransferAndUnlock` | content/sop2/wyk/sync/code/peterson_atomic.c:24-38 | One load or store of the transfer or the unlock, in place, is the specified step. |
| `Peterson.Bank.TotalBalance` | content/sop2/wyk/sync/code/peterson_atomic.c:63-69 | The loop returns the sum of all balances. |
| `DiningPhilosophers.StepKeepsInv` | content/sop2/wyk/deadlocks/code/dining_philosophers.c:20-35 | Every chopstick is on the table or in exactly one hand. |
| `DiningPhilosophers.NeighboursDoNotEat` | content/sop2/wyk/deadlocks/code/dining_philosophers.c:21-30 | Neighbours never eat at the same time. |
| `DiningPhilosophers.DeadlockExactly` | content/sop2/wyk/deadlocks/code/dining_philosophers.c:20-35 | A reachable state with work left has no enabled step if and only if everybody holds the left chopstick and waits for the right one. |
| `DiningPhilosophers.OnlyTheCircleIsFatal` | content/sop2/wyk/deadlocks/code/dining_philosophers.c:20-35 | From a reachable state all can still finish if and only if it is not that circle. |
| `DiningPhilosophers.DeadlockReachableExactly` | content/sop2/wyk/deadlocks/code/dining_philosophers.c:46-51 | For any N >= 2 the deadlock can be reached if and only if everybody has a meal to eat. |
| `DiningPhilosophers.EverybodyEats` | content/sop2/wyk/deadlocks/code/dining_philosophers.c:20-35 | A philosopher that is done has come to eat exactly as many times in the run as it has meals. |
| `DiningPhilosophers.Table.constructor` | content/sop2/wyk/deadlocks/code/dining_philosophers.c:46-51 | All chopsticks on the table, everybody at the loop test. |
| `DiningPhilosophers.Table.Philosophize` | content/sop2/wyk/deadlocks/code/dining_philosophers.c:17-38 | One operation, in place, is the specified step. |
| `BarrierGame.StepKeepsInv` | content/sop1/lab/l4/prog23.c:22-51 | Every roll, barrier release and array access keeps the players in the same phase of the same round, with the scores dealt so far. |
| `BarrierGame.RollsAreStable` | content/sop1/lab/l4/prog23.c:28-47 | While somebody gives points, all rolls are of that round, nobody else judges and nobody is about to roll. |
| `BarrierGame.ScoresSoFar` | content/sop1/lab/l4/prog23.c:24-48 | Whenever nobody gives points, after any number of rounds, a score is the number of rounds judged in which that player rolled the maximum. |
| `BarrierGame.LogsAreRolls` | content/sop1/lab/l4/prog23.c:25 | The rolls by which the scores are counted are the rolls of the run. |
| `BarrierGame.DiceHaveSixSides` | content/sop1/lab/l4/prog23.c:25 | A player that is to roll can roll each of 1 to 6 and nothing else, and the others see that roll. |
| `BarrierGame.FinalScores` | content/sop1/lab/l4/prog23.c:24-48 | The same at the end, for all rounds of the game. |
| `BarrierGame.ScoresAddUp` | content/sop1/lab/l4/prog23.c:39-45 | Each round gives at least one point. |
| `BarrierGame.NeverStuck` | content/sop1/lab/l4/prog23.c:24-48 | Until a player is done some step is possible. |
| `BarrierGame.EveryRunEnds` | content/sop1/lab/l4/prog23.c:24-48 | With n players no schedule has more than n (3n + 7) steps per round, so the game ends. |
| `BarrierGame.Game.constructor` | content/sop1/lab/l4/prog23.c:24 | Scores start at 0, everybody at the loop test. |
| `BarrierGame.Game.RollDice` | content/sop1/lab/l4/prog23.c:25 | The roll, in place, is the specified step. |
| `BarrierGame.Game.Advance` | content/sop1/lab/l4/prog23.c:28-47 | Arriving at either barrier and giving points, in place, are the specified steps. |
| `BarrierGame.Game.ReleaseBarrier` | content/sop1/lab/l4/prog23.c:28-47 | Releasing everybody from either barrier with one thread elected, in place, is the specified step. |
| `BarrierGame.AssignScores` | content/sop1/lab/l4/prog23.c:32-45 | The two loops together give a point to exactly those whose roll nobody exceeds. |
| `Students.StepKeepsInv` | content/sop1/lab/l3/prog20.c:99-153 | Every operation of a student, every cancellation and every kick keeps the mutexes, the counters and `present` exact. |
| `Students.CountersAreExact` | content/sop1/lab/l3/prog20.c:99-128 | At every step `values[y]` is the number of students that have counted themselves into year y and not yet out of it. |
| `Students.NoMutexIsLost` | content/sop1/lab/l3/prog20.c:115-128 | The holder of a mutex is neither asleep nor over, and its next operation is possible: cancellation leaves no mutex locked. |
| `Students.FinalCounters` | content/sop1/lab/l3/prog20.c:73-79 | After the joins years 0 to 2 are 0, engineers and cancelled students make up all, engineers are at least `present`, and somebody was struck off. |
| `Students.SomebodyToKick` | content/sop1/lab/l3/prog20.c:144-149 | `kick_student` has somebody to pick exactly while `present` is not 0. |
| `Students.RequestsAreHonoured` | content/sop1/lab/l3/prog20.c:99-113 | Struck off with a sleep still ahead, a student never becomes an engineer; never struck off, it always does. |
| `Students.EveryRunEnds` | content/sop1/lab/l3/prog20.c:99-113 | No schedule has more than 40 steps per student and one to join. |
| `Students.NeverStuck` | content/sop1/lab/l3/prog20.c:99-128 | While a student is not over, some student can make a step. |
| `Students.Faculty.constructor` | content/sop1/lab/l3/prog20.c:47-61 | Counters 0, mutexes free, everybody present and in the first year. |
| `Students.Faculty.Live` | content/sop1/lab/l3/prog20.c:99-128 | One operation of a student, in place, is the specified step. |
| `Students.Faculty.KickStudent` | content/sop1/lab/l3/prog20.c:141-153 | The picking loop ends at a student not yet removed, who is then removed, whatever was drawn before. |
| `KvStore.ShortPayload` | content/sop2/wyk/sockets/code/kv_store.c:96-112 | A payload of at most 255 bytes without NUL is stored unchanged. |
| `KvStore.StoredExactly` | content/sop2/wyk/sockets/code/kv_store.c:96-112 | What is stored is the beginning of the payload up to its first NUL, its end or 255 bytes. |
| `KvStore.FullExactly` | content/sop2/wyk/sockets/code/kv_store.c:102-106 | All slots are in use exactly when the map has as many keys as there are slots. |
| `KvStore.StoreIsUpdate` | content/sop2/wyk/sockets/code/kv_store.c:108-112 | Storing in the key's own or a free slot is the map update and keeps keys unique. |
| `KvStore.FreeIsRemove` | content/sop2/wyk/sockets/code/kv_store.c:133-137 | Releasing the key's slot removes the key from the map. |
| `KvStore.MapIsHistory` | content/sop2/wyk/sockets/code/kv_store.c:95-141 | The keys held are those written, while fewer than 100 others were held, and not deleted since, each with the value last written; there are never more than 100. |
| `KvStore.AnswersFromHistory` | content/sop2/wyk/sockets/code/kv_store.c:95-141 | After any requests a READ is answered with what was last written under the key and not deleted since, or NOT_FOUND; a DELETE with OK exactly if there is such a value; a WRITE with ERROR exactly for a new key while 100 are held. |
| `KvStore.RequestsOnTheWire` | content/sop2/wyk/sockets/code/kv_protocol.h:6-20 | Requests byte by byte: operation, key and length in network order, and the payload. |
| `KvStore.ResponsesOnTheWire` | content/sop2/wyk/sockets/code/kv_protocol.h:11-26 | Responses byte by byte: the status, the length in network order and the value; FIRE's text follows a header that announces none. |
| `KvStore.FullTableRefuses` | content/sop2/wyk/sockets/code/kv_store.c:102-116 | For a table that lacks the key: all slots are in use exactly when the map refuses a WRITE of it, and then the map stays. |
| `KvStore.ParseEncoded` | content/sop2/wyk/sockets/code/kv_store.c:80-99 | A request that fits is read back from its bytes, and the server goes on behind it. |
| `KvStore.OverflowIsParsed` | content/sop2/wyk/sockets/code/kv_store.c:96-99 | What a WRITE announces beyond 255 bytes is parsed as the next requests. |
| `KvStore.ParsedExactly` | content/sop2/wyk/sockets/code/kv_store.c:77-141 | The requests executed are those sent if and only if every WRITE announces at most 255 bytes. |
| `KvStore.AnswersToSent` | content/sop2/wyk/sockets/code/kv_store.c:77-141 | For requests that fit, answers and map are those of the requests as sent. |
| `KvStore.ReadBackExactly` | content/sop2/wyk/sockets/code/kv_store.c:88-160 | Answers read by their headers are read as they are meant if and only if none of them is that to a FIRE. |
| `KvStore.EndToEnd` | content/sop2/wyk/sockets/code/kv_store.c:77-160 | Encoded, parsed, executed, answered in bytes and read back, requests that fit yield what the map means to answer if and only if none is a FIRE; with WRITE, READ and DELETE only that is one answer for each. |
| `KvStore.OverlongWriteDeletes` | content/sop2/wyk/sockets/code/kv_store.c:96-99 | A WRITE of 264 bytes that ends like a DELETE: the READ after it finds no key, where the map has the value. |
| `KvStore.FireSwallows` | content/sop2/wyk/sockets/code/kv_store.c:142-160 | After a FIRE's answer one empty OK is read and nothing else, if and only if fewer than 0x69726521 bytes follow its text. |
| `KvStore.FireEndsTheAnswers` | content/sop2/wyk/sockets/code/kv_store.c:142-160 | The same for requests that fit: the answers to what is sent before the first FIRE are read, then one empty OK, and nothing of the answers to what is sent after it, if and only if these take fewer than 0x69726521 bytes. |
| `KvStore.Database.constructor` | content/sop2/wyk/sockets/code/kv_store.c:56 | The cleared table is the empty map. |
| `KvStore.Database.FindEntry` | content/sop2/wyk/sockets/code/kv_store.c:20-25 | The first slot in use with the key, or -1. |
| `KvStore.Database.FindFree` | content/sop2/wyk/sockets/code/kv_store.c:103-105 | A free slot, or -1 only if all are in use. |
| `KvStore.Database.DoWrite` | content/sop2/wyk/sockets/code/kv_store.c:95-118 | The WRITE branch, in place: the map's update and status; refused exactly for a new key and a full table, which stays as it is. |
| `KvStore.Database.DoDelete` | content/sop2/wyk/sockets/code/kv_store.c:133-141 | The DELETE branch, in place: OK exactly if the key has a slot, which alone is released; otherwise NOT_FOUND and the table stays as it is. |
| `KvStore.Database.Process` | content/sop2/wyk/sockets/code/kv_store.c:95-160 | One request changes the table as the map, and the response is the map's: a READ yields the value of the key's slot, READ and DELETE fail exactly without one, a WRITE exactly for a new key and a full table; a request that fails changes no slot. |
| `KvStore.Database.Serve` | content/sop2/wyk/sockets/code/kv_store.c:77-168 | For every byte stream received, from any table: the requests parsed from it are executed, and the bytes sent are the map's answers to them. |

## Left out

- `sendto` failing with EPIPE in the UDP server, which frees a slot: no client of the model closes its socket.
- The header's byte order and the `%s` printing of payloads: a datagram is its two numbers and a 568-byte block.
- Reclaiming of slots in the UDP table: any late part of a finished transfer claims a slot, before its number is compared, and keeps it until that transfer is repeated.
- Datagrams of foreign senders and of other sizes.
- EPOLLERR and EPOLLHUP, accepting connections, and the table of contexts by descriptor: one connection is modelled.
- Input sent to the epoll server before the previous answer is complete: the server drops what follows the newline.
- EpollRefinement.RefinesBlockingServer: covers the lines on which the two servers agree, which `EpollServer.AgreeExactly` characterises.
- LineServer.HandleClient: does not model how long WAIT sleeps, the request counters of the metrics server, or the stack that a deep BURN needs.
- LineServer.Socket.SendAll: a short answer goes out whole or not at all, because the source ignores the result of these sends.
- UdpClient.DoClient: the replies are an input of the call; `UdpTransfer` couples them to the server.
- Futex.CounterRange: states the range of the counter; that the source's constants keep it within `int` is arithmetic on them.
- Peterson.MoneyIsConserved: balances are unbounded integers; with the source's constants they stay within `int`.
- ReadersWriters.SharedData: the value is an unbounded integer; the source's endless loop would overflow an `int` in the end.
- KvStore.Database.Serve: what the server does when a connection ends inside a header or a payload, which it then executes from a partly filled buffer; failed sends, the sleeping of FIRE, and who is served when.
- The random selection of `kick_student` by retrying may take any time; the model takes the draws as an input.
- Fairness and starvation: none of these programs promises it, so theorems say "can finish", not "will finish", except where every run ends.
- The worker, reactor and coroutine variants of the server, which repeat the same state machine.
- The easier programs (test-and-set and swap locks, a semaphore, the condition-variable buffer, the chat server) and those that demonstrate races on purpose.
- Floating-point Monte Carlo programs, the course's web site and its traffic tools.
