# FlConc, modelled and proved in Dafny

FlConc is a multi-reactor RPC framework in C++. This project models the machinery under its sockets and
proves what that machinery is for. `dafny verify dfyconfig.toml` checks all of it.

Six parts are modelled.

* **Work sharing.** Every thread runs one reactor loop. `work_sharing.dfy` is the loops, the read and write
  hooks and the global coroutine queue as one state machine whose steps are single accesses to shared state,
  for any number of reactors, connections and steps. `work_sharing_invariant.dfy` finds for every connection
  the one place it is in, and `work_sharing_safety.dfy` draws the conclusions. `work_sharing_history.dfy` tells
  runs by their steps alone: the order of the loop and of the hooks, and what comes out of each queue;
  `work_sharing_pending.dfy` says what is kept and applied between two turns, `work_sharing_progress.dfy` that
  the loop goes on. `fd_event.dfy` and `event_batch.dfy` hold the same operations as classes updated in place.
* **The FlconcPb pipeline.** `tcp_buffer.dfy` is the self-compacting buffer, `pb_codec.dfy` the frame codec,
  `pipeline.dfy` what alternating input and execute do to a stream until the peer closes it,
  `tcp_connection.dfy` the loops themselves, output's included.
* **The time wheel.** `time_wheel.dfy` is the ring, the reference counts and the threads that hold references;
  `time_wheel_history.dfy` its rule in terms of the refreshes that were asked for, `time_wheel_objects.dfy` the
  objects.
* **The timer queue.** `timer.dfy` is the ordered multimap and its operations, `timer_objects.dfy` the objects,
  `timer_descriptor.dfy` the queue together with the descriptor that makes onTimer run.
* **HTTP.** `string_split.dfy`, `key_values.dfy`, `http_define.dfy`, `http_codec.dfy`, `http_acceptance.dfy` for what
  the parser accepts and refuses, `http_request.dfy`, and `http_pipeline.dfy` for execute over this codec.
* **The coroutine substrate.** `coctx.dfy` and `coroutine.dfy` for switching, `arena.dfy`,
  `coroutine_pool.dfy` and `pool_objects.dfy` for stacks, `async_channel.dfy` for the asynchronous call,
  `msg_req.dfy` for message numbers.

Most parts come twice: as functions on values, about which the properties are proved, and as classes whose
methods have the loops and assignments of the source and are each proved to do what the function says.
Counters and stamps that record history are marked as such where they are declared; no operation reads them.

What the outside world supplies is a parameter: bytes read and written, the result of `epoll_wait`, clock
readings, random bytes, the address `malloc` returns, the order in which `std::map` visits its keys. A C++
exception is an outcome (`Threw`, `Escaped`), and so is an access outside a buffer (`Overrun`).

## Where the code does not do what one would expect

These are proved too, each with the exact condition under which the code behaves.

* When `epoll_wait` reports neither EPOLLIN nor EPOLLOUT for an fd (EPOLLERR or EPOLLHUP alone, which the reset
  of a TCP connection does not give), it is unregistered without resuming its coroutine, which is then stranded
  for good (`WorkSharingSafety.ParkedIsFindable`, `WorkSharingSafety.ErrorStrandsForGood`,
  `WorkSharingSafety.ErrorOnlyEntryStrands`).
* When input reads a full buffer and then finds the peer gone, the messages completed by that input are never
  executed (`Pipeline.AllDeliveredIff`, `Pipeline.LostAtClose`, `Pipeline.LostInDefaultBuffer`).
* execute over the HTTP codec dispatches an empty request for ever when exactly a request line has arrived
  (`HttpPipelines.ExecuteEndsIff`, `HttpPipelines.EndsIffNeverStuck`, `HttpPipelines.LineAloneNeverEnds`).
* A failed write makes output send a byte again (`TcpConnections.OutputConservesIff`,
  `TcpConnections.FailedWriteRepeats`).
* A coroutine whose connection was closed by its peer gives the thread away inside its callback, so the pool
  never hands it out again (`CoroutinePools.ComesBackIff`, `CoroutinePools.NotBeforeItEnds`).
* `resetArriveTime` arms the descriptor for the last pending event, not the first
  (`TimerQueue.ArmedForFirstIff`, `TimerDescriptor.ArmedTooLate`), and leaves it disarmed when the last one is
  due by then, after which later events are not armed either (`TimerDescriptor.DeadIff`,
  `TimerDescriptor.AddedWhenDue`).
* `delTimerEvent` on an event that has already fired erases the next later event, if there is one
  (`TimerQueue.DeleteAbsent`, `TimerQueue.DeleteAfterFiring`), and on a repeating event that is being fired
  has no effect (`TimerQueue.DeleteWhileFiringIsUndone`).
* A cancelled event at the head of the queue stops every event behind it (`TimerQueue.CancelledHeadStops`,
  `TimerQueue.TakesAllDueIff`).
* A tail of an unfinished frame can be taken for a frame of its own; bytes of a message still on its way are
  then dropped (`Pipeline.ExecuteExactIff`, `Pipeline.ExactRoundsIff`, `Pipeline.LongTailQuietIff`,
  `Pipeline.ShortTailQuietIff`, `Pipeline.FalseFrameDropsBytes`).
* A NUL byte in a message's text fields cuts the field (`PbCodec.RoundTripIffNulFree`).
* The HTTP parser reports success without having parsed or consumed anything when exactly the request line has
  arrived (`HttpCodec.PrefixFailsUnlessLine`), never accepts a request without header lines
  (`HttpCodec.HeaderlessRefused`, `HttpCodec.PlainGetRefused`), and loses a header block of fewer than four
  characters (`HttpCodec.DecodeInvertsPrint`).
* What a GET declares with Content-Length has to arrive before the request is accepted, and is then left in the
  buffer, where it is taken for the next request (`HttpAcceptance.ArrivedIsRead`).
* Splitting throws for a non-empty string shorter than the separator (`StringSplit.SplitOfJoined`), and at a
  separator of two characters also for one that ends in an odd number of them (`StringSplit.PairThrowsIff`);
  a header block that ends so lets the exception out of decode (`HttpCodec.DecodeEscapesIff`).
* Giving back a block that is not taken makes the arena's count wrong (`Arenas.BackKeepsIff`,
  `Arenas.GivenBackTwice`).
* A second call on the same asynchronous channel finds `m_is_finished` and `m_need_resume` still set, so
  wait() can return too early and a callback can resume the caller elsewhere (`AsyncChannels.FlagsRemember`,
  `AsyncChannels.WaitReturnsAtOnceIff`, `AsyncChannels.StrayIff`, `AsyncChannels.SecondCallStrays`).
* A container asked for fd 0 or 1 that it does not hold yet is read past its end (`FdEvents.FdEventContainer.GetFdEvent`).

## Model

| member | source | states |
|---|---|---|
| WorkSharingSafety.EveryRunIsSafe | flconc/net/base/reactor.cc:196-347 | In every state of every run of any number of reactors, with any fd closed and accepted again any number of times: no coroutine runs on two threads, one held as first_coroutine is registered with that same reactor, a queued fd is registered nowhere, is queued once and is in nobody's hands; every m_fds equals its kernel interest set and the masks are the listened events; when all sub-reactors wait in epoll_wait the global queue is empty, and when each waits or has left its loop, what is queued was pushed by one that has left it |
| WorkSharingSafety.ParkedIsFindable | flconc/net/base/reactor.cc:251-292 | In every run a parked coroutine is registered with some reactor, queued, or in the hands of the thread that moves it, if and only if no epoll entry with neither EPOLLIN nor EPOLLOUT was handled for its fd before |
| WorkSharingSafety.ErrorStrandsForGood | flconc/net/base/reactor.cc:265-269 | After such an entry the fd's coroutine is parked, in every later state of the run, and nothing leads to it any more |
| WorkSharingSafety.ErrorOnlyEntryStrands | flconc/net/base/reactor.cc:265-269 | A concrete run of thirteen steps: a coroutine parks in a read, its fd is reported with EPOLLERR or EPOLLHUP alone, and it is stranded. The reset of a TCP connection is not such an entry: there EPOLLIN is set too |
| WorkSharingSafety.EveryResumeEnters | flconc/coroutine/coroutine.cc:165-190 | Whenever a loop resumes a coroutine in a run, the resume is not refused and the coroutine was fresh or parked, never running |
| WorkSharingSafety.NotStartedIsPending | flconc/net/base/reactor.cc:382-388 | In every run an accepted connection that has not started has its start pending with the reactor it was accepted for and with no other |
| WorkSharingSafety.WaitingHoldsNothing | flconc/net/base/reactor.cc:213-245 | In every run a thread in epoll_wait runs no coroutine, keeps no first_coroutine and has nothing taken from the queue |
| WorkSharingSafety.RunKeepsInv | flconc/net/base/reactor.cc:196-347 | Every state of every run has a placement of the connections that explains all queues, interest sets and program counters |
| WorkSharingSafety.InvNothingStranded | flconc/net/base/reactor.cc:218-245 | The placement gives that every queued item's pusher has not re-entered epoll_wait |
| WorkSharingHistory.HookWaits | flconc/coroutine/coroutine_hook.cc:34-151 | In every run a parked coroutine whose last hook was read_hook waits for reading, and one whose last hook was write_hook for writing: its FdEvent listens to that event alone, and every interest set that holds its fd maps it to that event alone |
| WorkSharingHistory.ParkedInHook | flconc/coroutine/coroutine_hook.cc:73-76 | In every run a parked coroutine has called a hook |
| WorkSharingHistory.FollowsHooks | flconc/coroutine/coroutine_hook.cc:52-84 | In every run a coroutine gets from one point of the hooks to the next in the order of the source and by its own steps, and otherwise only by being accepted, started or resumed |
| WorkSharingHistory.FollowsLoop | flconc/net/base/reactor.cc:207-344 | In every run a thread's place in the loop changes by its own steps on its main coroutine, along the edges of the source's loop; which of its branches an entry of epoll_wait takes is part of that |
| WorkSharingHistory.ExitedIffStopped | flconc/net/base/reactor.cc:209-209 | In every run a thread has left its loop if and only if it has taken a stop |
| WorkSharingHistory.QueueIsFifo | flconc/net/base/reactor.cc:416-432 | In every run what was pushed to the global queue is what was popped, followed by what is still queued, in order |
| WorkSharingHistory.EntriesInOrder | flconc/net/base/reactor.cc:245-252 | In every run a thread handles exactly the entries that epoll_wait has returned to it, each once and in order |
| WorkSharingHistory.TasksInOrder | flconc/net/base/reactor.cc:232-243 | In every run a thread runs the tasks that were made pending with it, start tasks and callbacks, read before write, each once and in order |
| WorkSharingHistory.ResumesTheDue | flconc/net/base/reactor.cc:213-227 | In every run a resume by a loop enters the coroutine that was due: first_coroutine, the one of the fd popped, of the start task, or of the entry in hand |
| WorkSharingPending.FollowsFirst | flconc/net/base/reactor.cc:278-291 | In every run first_coroutine is taken from a ready entry when there is none, given up behind its resume and, by the main reactor, behind the resume of another, and changed by nothing else |
| WorkSharingPending.PostsToOther | flconc/net/base/reactor.cc:78-115 | A coroutine whose FdEvent belongs to another thread's reactor leaves a pending add there, unless one for its fd is pending already, or a pending deletion, and changes nothing else of that reactor |
| WorkSharingPending.PendingTakesEffect | flconc/net/base/reactor.cc:323-342 | From any state, what is pending when a reactor takes it is in force at the head of its next turn, whatever other threads do meanwhile: the interest set is the old one with every pending add under its mask, less every pending deletion |
| WorkSharingProgress.ReturnsToWait | flconc/net/base/reactor.cc:207-344 | From every state of every run, steps of its own lead a thread that has not been stopped back to epoll_wait, whatever it and its coroutine were doing; then nothing that it pushed is queued |
| WorkSharingProgress.QueuedGetsPopped | flconc/net/base/reactor.cc:218-230 | What is queued can always be popped by the thread that pushed it, unless that was stopped |
| WorkSharingInvariant.CoStepKeeps | flconc/coroutine/coroutine_hook.cc:34-84 | Every step of the hooks (set reactor, set coroutine, listen, yield, stop listening, clear) keeps the placement invariant |
| WorkSharingInvariant.LoopStepKeeps | flconc/net/base/reactor.cc:207-344 | So does every step of Reactor::loop |
| WorkSharingInvariant.UnlistenKeeps | flconc/net/base/fd_event.cc:63-73 | A stolen coroutine that stops listening after Yield gets its fd registered with the thief, and only there |
| WorkSharingInvariant.QueueStepFits | flconc/net/base/reactor.cc:416-432 | Pushing to and popping from the global queue moves exactly one connection's place |
| Interest.AddAgrees | flconc/net/base/reactor.cc:151-174 | Registering issues a legal ADD or MOD, keeps m_fds duplicate-free and equal to the kernel set, and leaves exactly the requested mask |
| Interest.DelAgrees | flconc/net/base/reactor.cc:176-194 | Unregistering issues DEL only when it is legal and keeps that agreement |
| Interest.WithoutRemoves | flconc/net/base/reactor.cc:180-191 | Erasing from a duplicate-free m_fds removes that fd and nothing else |
| FdEvents.Reactor.AddEventInLoopThread | flconc/net/base/reactor.cc:151-174 | The in-place method keeps the agreement and ends with the fd registered under the mask |
| FdEvents.Reactor.DelEventInLoopThread | flconc/net/base/reactor.cc:176-194 | The in-place method keeps the agreement and ends with the fd unregistered |
| FdEvents.Reactor.AddEvent | flconc/net/base/reactor.cc:78-94 | On the loop's own thread at once; from another one a pending entry, where an earlier entry for the fd stays, and one wakeup if the reactor is looping |
| FdEvents.Reactor.DelEvent | flconc/net/base/reactor.cc:96-115 | As addEvent, with a list of pending deletions |
| FdEvents.FdEvent.AddListenEvents | flconc/net/base/fd_event.cc:53-61 | Adds the event; on the reactor's thread the kernel mask then is the listened events, from another thread a pending entry and a wakeup are all; an event already listened to changes nothing |
| FdEvents.FdEvent.DelListenEvents | flconc/net/base/fd_event.cc:63-73 | Takes the event away; on the reactor's thread the fd is then registered under what is left, also when it was not registered before, from another thread a pending entry and a wakeup are all |
| FdEvents.FdEvent.UpdateToReactor | flconc/net/base/fd_event.cc:75-86 | Picks the thread's reactor when none is set, registers on that reactor's own thread, and from another one leaves a pending entry and a wakeup |
| FdEvents.FdEvent.UnregisterFromReactor | flconc/net/base/fd_event.cc:88-96 | Ends with no listened events and no callbacks, and unregistered on the reactor's own thread; from another one with a pending deletion |
| FdEvents.FdEventContainer.constructor | flconc/net/base/fd_event.cc:183-188 | Position i holds the FdEvent of fd i |
| FdEvents.FdEventContainer.GetFdEvent | flconc/net/base/fd_event.cc:162-181 | Growing to one and a half times the fd reaches it exactly from fd 2 on; below that a container that does not hold it already is read past its end. The FdEvents handed out before stay |
| EventBatch.KeepsFirstQueuesRest | flconc/net/base/reactor.cc:275-292 | Of any batch of events a sub-reactor keeps the first ready coroutine, unless it keeps one already, and queues exactly the others in order |
| EventBatch.UnregistersQueued | flconc/net/base/reactor.cc:269-285 | After the batch exactly the queued fds and those with an error are no longer registered; the others keep their masks |
| EventBatch.TasksOfCallbacks | flconc/net/base/reactor.cc:294-315 | The callbacks of the entries without a coroutine become pending in the order of the entries, the read callback before the write callback, and nothing else does |
| EventBatch.MachineAgrees | flconc/net/base/reactor.cc:251-321 | One pass of that loop is the state machine's Handle step with the Detach and Push that follow it |
| EventBatch.SubReactorLoop.HandleEvents | flconc/net/base/reactor.cc:251-321 | The loop over the entries of connections, on the objects: first_coroutine, registrations and pending callbacks end as in the sorting the two lemmas above describe; what it pushed are the FdEvents of the queued fds in order, and they belong to no reactor |
| EventBatch.SubReactorLoop.HandleEvent | flconc/net/base/reactor.cc:265-318 | For one entry of a connection: unregistered on an error, kept, queued without a reactor, or its callbacks made pending |
| EventBatch.CoroutineTaskQueue.Push | flconc/net/base/reactor.cc:416-420 | Appends at the back |
| EventBatch.CoroutineTaskQueue.Pop | flconc/net/base/reactor.cc:422-432 | Takes the oldest, or null when empty |
| TcpBuffers.RunIsFifo | flconc/net/tcp/tcp_buffer.cc:36-120 | Over any sequence of writes, fills, reads, recycles and growth from a new buffer: readable bytes are everything put in minus everything taken out, in order, indices stay in range and bytes past the write index are zero |
| TcpBuffers.CapacityBound | flconc/net/tcp/tcp_buffer.cc:36-89 | Over any such run the capacity never exceeds max(initial size, 3 times the peak of readable bytes) |
| TcpBuffers.GrowthBound | flconc/net/tcp/tcp_buffer.cc:47-55 | When writeToBuffer grows the vector its size stays below 9/4 of the bytes then readable |
| TcpBuffers.StepIsFifo | flconc/net/tcp/tcp_buffer.cc:36-120 | One operation of such a run keeps read_index at most a third of the size, the zero tail, and the queue of bytes |
| TcpBuffers.AdjustIsFifo | flconc/net/tcp/tcp_buffer.cc:73-89 | Compaction changes no readable byte |
| TcpBuffers.WriteIsFifo | flconc/net/tcp/tcp_buffer.cc:47-55 | A write appends its bytes, whether or not it grows the vector |
| TcpBuffers.ConsumeIsFifo | flconc/net/tcp/tcp_buffer.cc:101-109 | Recycling drops exactly the first bytes |
| TcpBuffers.SizeAndIndex | flconc/net/tcp/tcp_buffer.cc:36-120 | The size and the read index after every operation: a write that does not fit makes the vector half as large again as needed, and reading on past a third of it, no sooner, moves the rest to the front |
| TcpBuffers.PastEndRefused | flconc/net/tcp/tcp_buffer.cc:101-119 | Recycling past the end of the vector changes nothing |
| TcpBuffers.TcpBuffer.constructor | flconc/net/tcp/tcp_buffer.cc:10-12 | An empty zeroed buffer of the size |
| TcpBuffers.TcpBuffer.ResizeBuffer | flconc/net/tcp/tcp_buffer.cc:36-45 | The array is replaced by one of the size with the readable bytes at its front and zeros behind them |
| TcpBuffers.TcpBuffer.WriteToBuffer | flconc/net/tcp/tcp_buffer.cc:47-55 | A full array is replaced by one of one and a half times the bytes needed; then the bytes are copied in behind those there are |
| TcpBuffers.TcpBuffer.ReadFromBuffer | flconc/net/tcp/tcp_buffer.cc:57-71 | Returns the first readable bytes, at most as many as asked for and as there are, and drops exactly those |
| TcpBuffers.TcpBuffer.AdjustBuffer | flconc/net/tcp/tcp_buffer.cc:73-89 | Moves the readable bytes to the front of a zeroed array when the read index has passed a third of it, and keeps the class invariant |
| TcpBuffers.TcpBuffer.RecycleRead | flconc/net/tcp/tcp_buffer.cc:101-109 | Drops that many bytes, or changes nothing when the index would leave the array |
| TcpBuffers.TcpBuffer.RecycleWrite | flconc/net/tcp/tcp_buffer.cc:111-120 | Makes that many bytes behind the write index readable, or changes nothing when the index would leave the array |
| Bytes.NetRoundTrip | flconc/net/base/byte.h:9-13 | Reading a 32-bit integer back from network order gives it back, negative ones too |
| Bytes.NetOrder | flconc/net/flconcpb/flconcpb_codec.cc:77-78 | The first byte written counts most, the last least; a negative integer is written in two's complement |
| PbCodec.DecodeInvertsFrame | flconc/net/flconcpb/flconcpb_codec.cc:146-295 | On a buffer that starts with a message's frame, whatever follows, decode returns its fields as C strings and consumes exactly pk_len bytes, for msg_req of 1 to 49 bytes, service name of 1 to 511 and err_info of 0 to 511 |
| PbCodec.RoundTripIffNulFree | flconc/net/flconcpb/flconcpb_codec.cc:205-270 | The message itself comes back if and only if its three text fields hold no NUL byte |
| PbCodec.FrameLayout | flconc/net/flconcpb/flconcpb_codec.cc:67-144 | A frame is 26 bytes longer than its texts and data together, starts with 0x02 and that length, holds every field at its place, and ends with 0, 0, 0, 1 and 0x03 |
| PbCodec.ScanFindsFrame | flconc/net/flconcpb/flconcpb_codec.cc:161-192 | The search for a frame stops at a frame that starts the readable bytes |
| PbCodec.DecodedIff | flconc/net/flconcpb/flconcpb_codec.cc:202-292 | From any bytes whatever, a message is decoded if and only if the lengths found in them fit: msg_req not empty, each text within the decoder's array of 50 or 512 bytes, the service name no longer than pk_len, every field before the end byte |
| PbCodec.DecodedFields | flconc/net/flconcpb/flconcpb_codec.cc:202-292 | And then every field is the one at its place, the texts cut at their first NUL |
| PbCodec.BadFrameIff | flconc/net/flconcpb/flconcpb_codec.cc:202-287 | A frame is refused, before anything is read or copied out of range, if and only if a length would have to be read at the end byte or behind it, msg_req is empty, the service name is longer than pk_len, or a text reaches the end byte |
| PbCodec.CStrCuts | flconc/net/flconcpb/flconcpb_codec.cc:219-222 | A text read as a C string ends before its first NUL |
| PbCodec.FlconcPbStruct.constructor | flconc/net/flconcpb/flconcpb_codec.cc:55-66 | An empty message, not yet decoded |
| PbCodec.EncodePbData | flconc/net/flconcpb/flconcpb_codec.cc:55-144 | Writes exactly the frame through an advancing index; no buffer without a service name; a missing msg_req is filled in first |
| PbCodec.EncodeTo | flconc/net/flconcpb/flconcpb_codec.cc:28-53 | Appends the frame to the buffer, or nothing when encoding failed |
| PbCodec.FindFrame | flconc/net/flconcpb/flconcpb_codec.cc:161-192 | The loop, with its inner read of the length, finds the frame that the decoder's specification names, or none, or leaves the buffer |
| PbCodec.DecodeFrom | flconc/net/flconcpb/flconcpb_codec.cc:146-295 | The decoder in place: fields filled one by one, decode_succ set exactly when all are, the frame recycled before they are parsed |
| Pipeline.ChunkIndependence | flconc/net/tcp/tcp_connection.cc:119-219 | However a stream of frames is cut into reads, alternating input and execute delivers exactly the complete messages in order and leaves exactly the incomplete tail, if every cut leaves nothing or a quiet tail; when an empty read closes the connection, that holds of the bytes before the input it belongs to, and what that input read is kept and never executed |
| Pipeline.AllDeliveredIff | flconc/net/tcp/tcp_connection.cc:163-169 | Of such a connection every complete message is delivered if and only if the input that finds the peer gone completes none: as many messages are complete before it as after it |
| Pipeline.LostAtClose | flconc/net/tcp/tcp_connection.cc:115-169 | Every sendable message that exactly fills the buffer, and after which the peer closes, has arrived and is not delivered |
| Pipeline.LostInDefaultBuffer | flconc/net/tcp/tcp_server.cc:217-217 | There is such a message for the server's buffers of 128 bytes |
| Pipeline.ExactRoundsIff | flconc/net/tcp/tcp_connection.cc:119-219 | Over a whole connection, closed or not, every execute there is delivers exactly the messages complete by then and leaves exactly the rest, if and only if every tail left is empty or quiet |
| Pipeline.SafeCutsAreQuiet | flconc/net/flconcpb/flconcpb_codec.cc:161-192 | Rounds that each leave a tail of no, one or at least five bytes in which no later 0x02 is followed by a cut-off length or one that points at a 0x03 of the tail or in front of it: every such tail is quiet, whatever the whole messages before it hold |
| Pipeline.MarkerFreeIsSafe | flconc/net/flconcpb/flconcpb_codec.cc:161-192 | Messages with no 0x02 after their first byte, cut anywhere but two to four bytes into a frame, leave only such tails |
| Pipeline.ExecuteExactIff | flconc/net/tcp/tcp_connection.cc:188-219 | One execute delivers exactly the complete frames and leaves exactly the tail if and only if that tail is empty or quiet: no byte of it stops the search, or a frame of length zero is met first |
| Pipeline.LeftAloneIffQuiet | flconc/net/tcp/tcp_connection.cc:188-219 | execute leaves a buffer untouched if and only if no readable byte is the start of a false frame, or one of length zero comes first |
| Pipeline.NotFoundIff | flconc/net/flconcpb/flconcpb_codec.cc:161-192 | The search finds nothing if and only if no byte from there on is a start byte whose length cannot be read, or whose end byte is in sight |
| Pipeline.QuietScan | flconc/net/flconcpb/flconcpb_codec.cc:161-192 | What quiet says of the bytes is what the search finds: nothing, or a frame of length zero |
| Pipeline.ShortTailQuietIff | flconc/net/flconcpb/flconcpb_codec.cc:161-192 | A tail of two to four bytes is quiet exactly when the vector reaches past its length field, the length read there is not zero or the frame is not at the front, and neither of the next two bytes starts a false frame |
| Pipeline.LongTailQuietIff | flconc/net/flconcpb/flconcpb_codec.cc:161-192 | A tail of one byte or at least five is quiet if and only if the bytes after its first hold no false frame, or one of length zero comes first |
| Pipeline.FalseFrameDropsBytes | flconc/net/flconcpb/flconcpb_codec.cc:161-192 | A concrete unfinished message whose bytes hold a false frame: execute drops bytes that belong to it |
| Pipeline.ExecuteDelivers | flconc/net/tcp/tcp_connection.cc:188-219 | execute delivers every frame at the front of the buffer in order, and then treats the rest as if it were alone |
| Pipeline.InputAppends | flconc/net/tcp/tcp_connection.cc:119-162 | Whatever the reads return, input appends exactly their bytes |
| TcpConnections.TcpConnection.Input | flconc/net/tcp/tcp_connection.cc:119-162 | The read loop in place, which doubles a full buffer and stops at a short or empty read; it reports an empty one |
| TcpConnections.TcpConnection.ServeRound | flconc/net/tcp/tcp_connection.cc:99-103 | Input and then execute, unless the input closed the connection: one round of the runs that the pipeline theorems are about |
| TcpConnections.TcpConnection.ExecuteAll | flconc/net/tcp/tcp_connection.cc:188-219 | Over the FlconcPb codec: the decode loop in place ends by itself; a server dispatches what it decoded in order, a client keeps replies |
| TcpConnections.TcpConnection.DecodeAndDeliver | flconc/net/tcp/tcp_connection.cc:198-215 | Over the FlconcPb codec: one turn of it delivers a decoded message at once, and nothing else |
| TcpConnections.TcpConnection.GetResPackageData | flconc/net/tcp/tcp_connection.cc:304-315 | A reply is handed out once and then gone |
| TcpConnections.FirstReplyWins | flconc/net/tcp/tcp_connection.cc:209-214 | Of several replies with one msg_req the first is the one kept |
| TcpConnections.Output | flconc/net/tcp/tcp_connection.cc:221-264 | The loop in place: what it writes, what it leaves and whether the read index left the buffer are as specified; otherwise it stops only when nothing is left, the connection is not connected, or time is over |
| TcpConnections.OutputConservesIff | flconc/net/tcp/tcp_connection.cc:238-246 | What one call of output writes, followed by what it leaves buffered, is what was buffered if and only if no write fails |
| TcpConnections.UnconnectedIsLast | flconc/net/tcp/tcp_connection.cc:226-235 | A turn of output that finds the connection not connected, or nothing to write, is the last one and writes nothing |
| TcpConnections.FailedWriteRepeats | flconc/net/tcp/tcp_connection.cc:240-246 | A failed write in any buffer whose read index is not 0: the last byte before it is readable again |
| TcpConnections.Send | flconc/net/tcp/tcp_connection.cc:238-246 | The bytes written are the first readable ones and leave the buffer; the negative count of a failed write moves the read index back |
| TimeWheel.ExpiredIffIdle | flconc/net/tcp/tcp_connection_time_wheel.cc:15-39 | In every state of every run a slot is gone exactly when no queued refresh or thread holds it and bucket_count ticks have passed since its last refresh; the wheel always has bucket_count buckets |
| TimeWheel.ExpiresOnNthTick | flconc/net/tcp/tcp_connection_time_wheel.cc:28-34 | A live slot held by nothing else goes on the bucket_count-th tick after its last refresh and on no other |
| TimeWheel.NeverRevived | flconc/net/tcp/abstract_slot.h:20-25 | Over any stretch of a run a slot that has gone stays gone, and no slot is destroyed and no connection shut down twice |
| TimeWheel.ShutDownIffExpiredLive | flconc/net/tcp/tcp_connection.cc:282-294 | In every step the connections shut down are exactly the live ones whose slot goes in that step |
| TimeWheel.NothingBlocks | flconc/net/tcp/tcp_server.cc:228-234 | The loop function can always run, so can the next queued refresh, and no reference is ever dropped that is not held |
| TimeWheel.RunKeeps | flconc/net/tcp/tcp_connection_time_wheel.cc:15-39 | In every run use counts count the references and bucket i holds what was refreshed n-1-i ticks ago |
| TimeWheel.StepKeeps | flconc/net/tcp/tcp_connection.cc:179-184 | Every step keeps that |
| TimeWheel.LiveIffRecent | flconc/net/tcp/tcp_connection_time_wheel.cc:36-39 | A slot has references exactly when it is in use or was refreshed within the last bucket_count ticks |
| TimeWheel.FreshReleaseKeeps | flconc/net/tcp/tcp_server.cc:229-232 | A queued refresh moves its reference to the back bucket |
| TimeWheel.ReleaseAllKeeps | flconc/net/tcp/tcp_connection_time_wheel.cc:30-32 | Destroying a popped bucket's references one by one keeps the counts right |
| TimeWheelHistory.ExpiredByHistory | flconc/net/tcp/tcp_server.cc:228-234 | The rule on what was asked of the wheel alone: in every run a slot that was made is gone if and only if no requested refresh of it is still to run, nobody holds a pointer to it, and the last refresh of it that was run, if any, was run bucket_count ticks ago or earlier; refreshes run in the order of the requests |
| TimeWheelHistory.RefreshCounts | flconc/net/tcp/tcp_server.cc:228-234 | After a refresh was requested its slot stays until that refresh has run, and then for bucket_count ticks from the request on at least: once it has run, the slot's last refresh is no older than the request |
| TimeWheelHistory.ConnByHistory | flconc/net/tcp/tcp_connection.cc:282-294 | In every run a shutdown comes to a connection that is connected or half-closed and leaves it half-closed; nothing else but setState and the freeing of the connection changes its state |
| TimeWheelHistory.RunAgrees | flconc/net/tcp/tcp_connection_time_wheel.cc:15-39 | In every run the queued refreshes are the requested ones that have not run, in order, and the pointers held are those made or locked and not dropped |
| TimeWheelObjects.SlotTable.Drop | flconc/net/tcp/abstract_slot.h:20-25 | Dropping the last reference runs the callback once, and only if the connection still exists |
| TimeWheelObjects.SlotTable.ShutdownConnection | flconc/net/tcp/tcp_connection.cc:282-294 | Nothing for a closed or never connected one; otherwise half-closed and shut down |
| TimeWheelObjects.SlotTable.DestroyBucket | flconc/net/tcp/tcp_connection_time_wheel.cc:30-30 | The references of a bucket go first to last |
| TimeWheelObjects.TcpTimeWheel.constructor | flconc/net/tcp/tcp_connection_time_wheel.cc:13-22 | As many empty buckets as asked for |
| TimeWheelObjects.TcpTimeWheel.LoopFunc | flconc/net/tcp/tcp_connection_time_wheel.cc:28-34 | The pointers of the front bucket are destroyed one by one and an empty bucket is appended: exactly the tick that the expiry theorems are about |
| TimeWheelObjects.TcpTimeWheel.Fresh | flconc/net/tcp/tcp_connection_time_wheel.cc:36-39 | The slot gains one reference, held by the back bucket |
| TimeWheelObjects.TcpServer.Register | flconc/net/tcp/tcp_connection.cc:64-73 | A new slot with a refresh queued |
| TimeWheelObjects.TcpServer.FreshTcpConnection | flconc/net/tcp/tcp_server.cc:228-234 | Queues a refresh that holds a reference |
| TimeWheelObjects.TcpServer.AfterRead | flconc/net/tcp/tcp_connection.cc:179-184 | A read refreshes a slot that is still there and does nothing for one that has gone |
| TimeWheelObjects.TcpServer.RunTask | flconc/net/tcp/tcp_server.cc:229-232 | Runs the oldest refresh and drops its reference |
| TimerQueue.EveryRunIsValid | flconc/net/base/timer.cc:46-85 | Over every run of adds, deletes, whole firings, cancels and resets of idle events: every key is its event's arrive time, no event is pending twice, ties stand in insertion order |
| TimerQueue.EveryFineRunIsValid | flconc/net/base/timer.cc:124-164 | The same when other threads add, delete, cancel and wake events between the erasing and each re-adding of onTimer; an event still to be re-added is not pending |
| TimerQueue.DeleteWhileFiringIsUndone | flconc/net/base/timer.cc:148-156 | Deleting a repeating event while onTimer is firing it has no effect: it is then pending again, one interval later, and not cancelled |
| TimerQueue.TakesAllDueIff | flconc/net/base/timer.cc:133-145 | onTimer takes the due events in order up to the first cancelled one, so it takes exactly all due events if and only if none of them is cancelled |
| TimerQueue.OnTimerKeeps | flconc/net/base/timer.cc:124-164 | onTimer fires distinct events, keeps every other entry, and has each fired event pending again exactly when it repeats, due one interval after its own clock reading and no longer cancelled |
| TimerQueue.RequeueKeeps | flconc/net/base/timer.cc:150-156 | The re-queueing loop ends, whatever the intervals, and puts each repeating event back once |
| TimerQueue.CancelledHeadStops | flconc/net/base/timer.cc:137-144 | With a cancelled event at the head nothing fires, however late it is |
| TimerQueue.DeletePending | flconc/net/base/timer.cc:67-85 | Deleting a pending event cancels it and removes that entry and no other, even among equal keys |
| TimerQueue.DeleteAbsent | flconc/net/base/timer.cc:71-82 | Deleting an event that is not pending erases the next later entry; the queue is unchanged if and only if nothing pending is due later |
| TimerQueue.DeleteAfterFiring | flconc/net/base/timer.cc:67-85 | A concrete run: of two events the first fires, deleting it then erases the second, which was never deleted |
| TimerQueue.DeleteKeeps | flconc/net/base/timer.cc:67-85 | Either way the queue stays valid |
| TimerQueue.AddKeeps | flconc/net/base/timer.cc:46-58 | An added event stands after everything due no later and before everything due later, and nothing else moves |
| TimerQueue.ArmedForFirstIff | flconc/net/base/timer.cc:97-103 | While all events are to come, the descriptor is armed for the last, so for the first if and only if all are due together |
| TimerDescriptor.DeadIff | flconc/net/base/timer.cc:46-164 | In every run of adds, onTimers and other operations, something is pending with nothing armed if and only if some resetArriveTime came too late for all of it, its clock at the last key or past it with nothing armed, and no step since has set the descriptor or left nothing pending |
| TimerDescriptor.DeadStepIff | flconc/net/base/timer.cc:97-103 | After an add or onTimer that found nothing armed and calls resetArriveTime, something is pending with nothing armed exactly when its clock has reached the last key |
| TimerDescriptor.ArmedAfter | flconc/net/base/timer.cc:87-122 | What every step leaves in the descriptor: for the last key if that is to come, nothing if it is due now, what was there if it has gone by; an expired descriptor is read empty by onTimer; an add behind the first event leaves it alone |
| TimerDescriptor.ArmedTooLate | flconc/net/base/timer.cc:97-103 | A concrete run: an event due at 20 is added and then, at 5, one due at 10: the descriptor is set for 20 |
| TimerDescriptor.AddedWhenDue | flconc/net/base/timer.cc:60-63 | A concrete run: an event added at the moment it is due disarms the descriptor, and one added behind it, due later, does not set it again |
| TimerDescriptor.EveryClockRunIsValid | flconc/net/base/timer.cc:46-85 | These runs too keep the queue valid |
| TimerObjects.TimerEvent.constructor | flconc/net/base/timer.h:24-28 | Due one interval after the clock reading, not cancelled |
| TimerObjects.TimerEvent.ResetTime | flconc/net/base/timer.h:30-35 | Due one interval after the clock reading, no longer cancelled |
| TimerObjects.Timer.AddTimerEvent | flconc/net/base/timer.cc:46-65 | The event goes behind its equals; the descriptor is armed anew exactly when asked for and the queue was empty or the event is due before its first |
| TimerObjects.Timer.DelTimerEvent | flconc/net/base/timer.cc:67-85 | The event is cancelled, and the search between the bounds erases what the specification of deletion says, also when it finds nothing |
| TimerObjects.Timer.ResetArriveTime | flconc/net/base/timer.cc:87-122 | The descriptor is set for the last key, disarmed when that is now, and left alone when it is past or nothing is pending |
| TimerObjects.Timer.OnTimer | flconc/net/base/timer.cc:124-164 | The callbacks to run are those of the taken events in order; every one that repeats is reset on the shared object and queued again before the descriptor is set |
| TimerObjects.Timer.TakeDue | flconc/net/base/timer.cc:133-147 | The first loop: what it collects is what it erases |
| StringSplit.SplitStrToVector | flconc/comm/string_util.cc:34-58 | The loop ends on every input and pushes the non-empty pieces in order, or throws |
| StringSplit.SplitOfJoined | flconc/comm/string_util.cc:34-58 | Splitting a join of parts free of the separator's characters gives its non-empty parts in order, and throws if and only if the join is non-empty and shorter than the separator |
| StringSplit.SplitOfTerminated | flconc/comm/string_util.cc:41-43 | The same with a separator at the end |
| StringSplit.SingleNeverThrows | flconc/comm/string_util.cc:45-56 | With a separator of one character the loop never throws |
| StringSplit.PairThrowsIff | flconc/comm/string_util.cc:34-58 | For every string, splitting at a separator of two characters, as CRLF, throws if and only if the string is a single character or ends in an odd number of the separator's characters |
| StringSplit.LoneLineFeedThrows | flconc/comm/string_util.cc:50-51 | So a line followed by a lone line feed makes the split at CRLF throw |
| StringSplit.SplitStrToMap | flconc/comm/string_util.cc:9-32 | The loop over the pieces; a piece without joiner, or with an empty key, is skipped, and a later key replaces an earlier one |
| KeyValues.TerminatedRoundTrip | flconc/comm/string_util.cc:9-32 | Key-value lines that each end with the separator are parsed back to the map they were printed from |
| KeyValues.JoinedRoundTrip | flconc/comm/string_util.cc:9-32 | So are lines with the separator between them only |
| KeyValues.OddPieces | flconc/comm/string_util.cc:20-28 | A piece without the joiner or with nothing before it is skipped, a key is cut at its first NUL, and a later value takes an earlier one's place |
| HttpDefine.HeaderRoundTrip | flconc/net/http/http_define.cc:53-59 | SplitStrToMap of toHttpString rebuilds the map, in whatever order it is visited |
| HttpDefine.CutBlockRoundTrip | flconc/net/http/http_codec.cc:92-95 | And so without the last CRLF, as the parser cuts the block |
| HttpDefine.HttpHeaderComm.GetHeaderTotalLength | flconc/net/http/http_define.cc:41-47 | The length returned is the length of what toHttpString prints |
| HttpDefine.HttpHeaderComm.ToHttpString | flconc/net/http/http_define.cc:53-59 | Prints one terminated line per key |
| HttpDefine.HttpHeaderComm.GetValue | flconc/net/http/http_define.cc:37-39 | A missing key is left behind with an empty value |
| HttpDefine.HttpHeaderComm.SetKeyValue | flconc/net/http/http_define.cc:49-51 | Keys end at their first NUL |
| HttpCodec.DecodeInvertsPrint | flconc/net/http/http_codec.cc:41-128 | Decoding a printed origin-form GET or POST with header lines and a right Content-Length, whatever follows it, gives method, version, path, query map, headers and body back and consumes exactly the request |
| HttpCodec.PrefixFailsUnlessLine | flconc/net/http/http_codec.cc:64-124 | On every proper prefix the parser fails and consumes nothing, except on the one that ends with the request line's CRLF, where it succeeds with nothing parsed and nothing consumed |
| HttpCodec.DecodeEscapesIff | flconc/net/http/http_codec.cc:56-124 | On every input decode lets an exception out if and only if the request line is accepted and the block before the first blank line, of four characters or more, ends in an odd number of CRs and LFs |
| HttpCodec.HeaderlessRefused | flconc/net/http/http_codec.cc:84-89 | A complete request without header lines is not accepted |
| HttpCodec.PlainGetRefused | flconc/net/http/http_codec.cc:84-89 | For instance GET / HTTP/1.1 and two line ends |
| HttpCodec.LineParses | flconc/net/http/http_codec.cc:130-193 | A printed request line is parsed back to method, version, path, query text and query map |
| HttpCodec.UrlParses | flconc/net/http/http_codec.cc:158-191 | An origin-form URL is cut at its question mark and its query parsed back |
| HttpCodec.BlankLineAtEnd | flconc/net/http/http_codec.cc:84-89 | The first blank line is the one after the last header line |
| HttpCodec.LengthRead | flconc/net/http/http_codec.cc:101-101 | A length printed in decimal behind any number of spaces is the length read |
| HttpAcceptance.LineAcceptedIff | flconc/net/http/http_codec.cc:130-193 | On every line: it is accepted if and only if it has two different outer spaces, the word before the first spells GET or POST, the word behind the last HTTP/1.1 or HTTP/1.0, capitals or not, and the target between does not end with its first "://" |
| HttpAcceptance.LineFields | flconc/net/http/http_codec.cc:138-156 | An accepted line sets the method it names, and the version it names in capitals |
| HttpAcceptance.DecodeAcceptsIff | flconc/net/http/http_codec.cc:56-124 | On every text: decode accepts if and only if the text is one line and its CRLF, of which nothing is consumed, or it holds a good line, a blank line behind it, a header block that splits, and as many characters as Content-Length says; so nothing is consumed behind any other line |
| HttpAcceptance.ArrivedIsRead | flconc/net/http/http_codec.cc:64-121 | What is then consumed and read, on every text: the line, the block and the blank line; for a POST also the declared length, which is its body, while a GET leaves it in the buffer |
| HttpAcceptance.SpelledLineParses | flconc/net/http/http_codec.cc:138-156 | Method and version in any mix of capitals and small letters are accepted, and the line is cut at its outer spaces whatever is between them |
| HttpAcceptance.AbsoluteLineParses | flconc/net/http/http_codec.cc:158-191 | From a line with an absolute-form target the path read is what stands between the slash behind the host and the question mark, the query what follows, for every scheme, host, path and query |
| HttpAcceptance.HostOnlyUrl | flconc/net/http/http_codec.cc:168-176 | A target of a scheme and a host, with a slash or without, leaves path and query as they are |
| HttpAcceptance.SignedLength | flconc/net/http/http_codec.cc:101-101 | A length is read behind any white space, with a sign or without, up to the first character that is no digit |
| HttpPipelines.ExecuteEndsIff | flconc/net/tcp/tcp_connection.cc:188-219 | execute over printed requests with header lines that have arrived up to any point: the complete ones are dispatched in order, and then the loop ends, with the rest kept, if and only if the rest is not exactly a request line with its CRLF; such a line is dispatched as an empty request on every further turn |
| HttpPipelines.EndsIffNeverStuck | flconc/net/tcp/tcp_connection.cc:188-219 | From any buffer, as long as no negative Content-Length is met, the loop ends if and only if no turn finds a text that decode accepts without consuming any of it |
| HttpPipelines.LineAloneNeverEnds | flconc/net/http/http_codec.cc:69-72 | A line without a CR, alone in the buffer with its CRLF, keeps the loop running for ever |
| HttpPipelines.StuckForEver | flconc/net/tcp/tcp_connection.cc:190-206 | A turn that consumes nothing is repeated by every later one, which dispatches the same request again |
| HttpRequests.ParseHttpRequestLine | flconc/net/http/http_codec.cc:130-193 | Fields are set one after the other as far as the parser gets; it returns false exactly where the specification rejects |
| HttpRequests.ParseHttpRequestHeader | flconc/net/http/http_codec.cc:195-202 | The header map gains the parsed lines; a block of fewer than four characters changes nothing |
| HttpRequests.DecodeText | flconc/net/http/http_codec.cc:56-124 | Success, failure or exception, the count of characters used, and the fields left in the request agree with the parser's specification on every input |
| HttpRequests.DecodeFrom | flconc/net/http/http_codec.cc:41-128 | decode on a buffer: bytes are consumed exactly on success, and decode_succ is set exactly then |
| HttpPipelines.HttpConnection.ExecuteTurns | flconc/net/tcp/tcp_connection.cc:188-219 | The loop in place, for any number of turns: dispatched requests, buffer and outcome are those of the specified turns |
| CoCtx.Machine.CoctxSwap | flconc/coroutine/coctx.h:18-57 | On one flat memory, with every load and store through the register the instruction names: if the two contexts do not overlap and the two stack words lie outside them, the caller's frame is saved where rdi pointed, and rbx, rcx, rdx, rbp, rsi, rdi, r8, r9, r12 to r15, the post-call rsp and the return address of the frame at rsi are restored; no other word changes but the one under the loaded stack pointer |
| CoCtx.Machine.SaveContext | flconc/coroutine/coctx.h:20-35 | Its first sixteen instructions store, through rdi and nowhere else, the frame that the call has to come back to, with the return address read through the stack pointer |
| CoCtx.Machine.LoadContext | flconc/coroutine/coctx.h:36-52 | Its other instructions, each loading through the rsi of that moment, leave the machine just past the call that the frame at rsi was saved in, although rsi and the stack pointer are overwritten and a word is pushed on the way |
| Coroutines.SwitchesAlternate | flconc/coroutine/coroutine.cc:143-190 | In any sequence of Resume, Yield and setCallBack, switches away from the main coroutine and back alternate |
| Coroutines.YieldReturnsToResume | flconc/coroutine/coroutine.cc:143-160 | Every Yield enters the frame saved by the Resume that started the coroutine |
| Coroutines.ResumeReturnsToYield | flconc/coroutine/coroutine.cc:165-190 | A coroutine that yielded inside its callback is entered again in the frame it yielded in, whatever ran in between, attempts to set its callback included |
| Coroutines.FirstResumeEntersCoFunction | flconc/coroutine/coroutine.cc:83-111 | After an accepted setCallBack the next Resume enters CoFunction with that coroutine as its argument, stack pointer and base at the top that was set, and zero in every other register |
| Coroutines.CoThread.Switch | flconc/coroutine/coroutine.cc:158-158 | A call of coctx_swap between two coroutines of a thread, in the memory that holds all their contexts: the machine ends in the other's saved frame, and no third context changes |
| Coroutines.CoThread.Yield | flconc/coroutine/coroutine.cc:143-160 | With real register files and contexts: refused on the main coroutine, else the machine ends in the main coroutine's saved frame, just past the Resume it was saved in, and the yielding one's frame is saved |
| Coroutines.CoThread.Resume | flconc/coroutine/coroutine.cc:165-190 | Refused off the main coroutine, for one that may not be resumed, or for itself; else the machine ends in the coroutine's saved frame |
| Coroutines.CoThread.SetCallBack | flconc/coroutine/coroutine.cc:83-111 | Refused, without a change, for the main coroutine and inside a callback; else the saved stack pointer and base are equal, divisible by 16, and at the end of the block or less than 16 bytes before it, the return address is CoFunction, its argument the coroutine, the other ten words are zero, and it may be resumed |
| Arenas.AddressRoundTrip | flconc/coroutine/memory.cc:61-69 | Block index to address and back is the identity, and every block lies inside its arena |
| Arenas.HasIndex | flconc/coroutine/memory.cc:64-69 | An address inside the arena has the index of the block it lies in |
| Arenas.TakeKeeps | flconc/coroutine/memory.cc:46-62 | The reference count stays the number of taken blocks |
| Arenas.BackKeepsIff | flconc/coroutine/memory.cc:64-74 | When a block is given back it stays so if and only if the block was taken |
| Arenas.GivenBackTwice | flconc/coroutine/memory.cc:64-74 | A block given back twice leaves the count at -1 with no block taken |
| Arenas.Memory.constructor | flconc/coroutine/memory.cc:11-22 | All blocks free, no references |
| Arenas.Memory.GetBlock | flconc/coroutine/memory.cc:46-62 | Takes the first free block; null exactly when all are taken |
| Arenas.Memory.BackBlock | flconc/coroutine/memory.cc:64-74 | Frees the block an address lies in; an address outside is ignored |
| Arenas.Memory.HasBlock | flconc/coroutine/memory.cc:76-78 | True exactly for addresses inside the arena |
| CoroutinePools.RunIsSafe | flconc/coroutine/coroutine_pool.cc:23-77 | In every run of whole gets and returns in which callers return what they hold, coroutines out have pairwise disjoint stacks, pooled or overflow, and every arena counts its taken blocks |
| CoroutinePools.RacingRunIsSafe | flconc/coroutine/memory.cc:46-74 | The same when every increment and decrement of an arena's counter, made outside the lock, is delayed and reordered at will: stacks stay disjoint; the counter, plus the increments and minus the decrements still to come, is the number of taken blocks; and it reads that number exactly when as many increments as decrements are still to come |
| CoroutinePools.GetKeeps | flconc/coroutine/coroutine_pool.cc:43-64 | What is handed out was not out, and its stack is disjoint from every stack that is |
| CoroutinePools.ReturnKeeps | flconc/coroutine/coroutine_pool.cc:66-77 | Returning what is out keeps all that |
| CoroutinePools.ReturnFreesOwnBlock | flconc/coroutine/coroutine_pool.cc:71-75 | Returning an overflow coroutine frees its own block and no other, in any arena |
| CoroutinePools.NewArenaIff | flconc/coroutine/coroutine_pool.cc:55-63 | A get makes a new arena if and only if no pooled coroutine is idle and no further arena has a free block |
| CoroutinePools.ReturnedIsReused | flconc/coroutine/coroutine_pool.cc:55-75 | So the get after the return of an overflow coroutine makes none |
| CoroutinePools.FirstIdleIsHanded | flconc/coroutine/coroutine_pool.cc:46-53 | While a pooled coroutine is idle the first such is handed out, on its own block, and its return changes nothing but its flag |
| CoroutinePools.NewPoolGets | flconc/coroutine/coroutine_pool.cc:23-53 | A new pool hands out its coroutines in order, each on the block of its index, and makes no arena |
| CoroutinePools.ComesBackIff | flconc/coroutine/coroutine_pool.cc:46-53 | A pooled coroutine that has been returned can be handed out again, by enough further gets, if and only if its callback has ended |
| CoroutinePools.NotBeforeItEnds | flconc/coroutine/coroutine_pool.cc:46-53 | In every run, a coroutine returned inside its callback is not handed out before the callback ends, whatever else is got and returned |
| CoroutinePools.OutDisjoint | flconc/coroutine/coroutine_pool.cc:43-64 | Two coroutines that are out never share a byte of stack |
| CoroutinePools.InitialInv | flconc/coroutine/coroutine_pool.cc:23-37 | The constructor's pool satisfies the invariant |
| PoolObjects.CoroutinePool.constructor | flconc/coroutine/coroutine_pool.cc:23-37 | The loop over getBlock leaves the first arena full and gives coroutine i block i |
| PoolObjects.CoroutinePool.GetCoroutineInstanse | flconc/coroutine/coroutine_pool.cc:43-64 | Hands out the first idle pooled coroutine, else a block of a further arena, else of a new one, with exactly the arenas changed that this needs |
| PoolObjects.CoroutinePool.ReturnCoroutine | flconc/coroutine/coroutine_pool.cc:66-77 | Clears the flag of a pooled coroutine; an overflow one is given back to every further arena that has its address |
| AsyncChannels.OncePerCall | flconc/net/flconcpb/flconcpb_rpc_async_channel.cc:77-101 | In every ordering the closure runs once per accepted call, and the caller is resumed in wait() once each time it parked there |
| AsyncChannels.NoLostWakeup | flconc/net/flconcpb/flconcpb_rpc_async_channel.cc:106-112 | A caller parked in wait() has a callback on its way if and only if it made a call |
| AsyncChannels.CallbackWakes | flconc/net/flconcpb/flconcpb_rpc_async_channel.cc:83-95 | That callback resumes it |
| AsyncChannels.OneCallIsSafe | flconc/net/flconcpb/flconcpb_rpc_async_channel.cc:77-116 | With at most one CallMethod the caller is never resumed outside wait(), and wait() does not return before the callback has run |
| AsyncChannels.FlagsRemember | flconc/net/flconcpb/flconcpb_rpc_async_channel.cc:106-116 | m_need_resume is set if and only if wait() was called before, m_is_finished if and only if a callback ran or a call was refused before: nothing clears them |
| AsyncChannels.StrayIff | flconc/net/flconcpb/flconcpb_rpc_async_channel.cc:83-95 | In every run, the caller has been resumed outside wait() if and only if at some step a callback came while it was parked elsewhere and it had called wait() at any earlier time, for whichever call |
| AsyncChannels.WaitReturnsAtOnceIff | flconc/net/flconcpb/flconcpb_rpc_async_channel.cc:106-112 | wait() does not park if and only if some callback has run on this channel, or a call was refused, whatever is still under way |
| AsyncChannels.SecondCallStrays | flconc/net/flconcpb/flconcpb_rpc_async_channel.cc:106-116 | A run with two calls in which wait() returns too early and the second callback resumes the caller elsewhere |
| AsyncChannels.FlconcPbRpcAsyncChannel.CallMethod | flconc/net/flconcpb/flconcpb_rpc_async_channel.cc:50-104 | Without saveCallee the call is refused and the channel marked finished; otherwise one more call is in flight |
| AsyncChannels.FlconcPbRpcAsyncChannel.Wait | flconc/net/flconcpb/flconcpb_rpc_async_channel.cc:106-112 | The caller yields exactly when the channel is not finished, and wants to be resumed either way |
| AsyncChannels.FlconcPbRpcAsyncChannel.RunCallBack | flconc/net/flconcpb/flconcpb_rpc_async_channel.cc:83-96 | The closure has run and the channel is finished before the caller is resumed, which happens exactly when wait() was called |
| MsgReq.SeedNumbersDistinct | flconc/comm/msg_req.cc:28-57 | The numbers one thread issues from one seed are pairwise distinct until all nines |
| MsgReq.NextAddsOne | flconc/comm/msg_req.cc:46-56 | The decimal value goes up by exactly one unless the number is all nines |
| MsgReq.IterateValue | flconc/comm/msg_req.cc:46-56 | The k-th number after a seed has its value plus k |
| MsgReq.NinesValue | flconc/comm/msg_req.cc:41-41 | All nines is the greatest value of its length and no other string has it |
| MsgReq.MsgReqUtil.GenMsgNumber | flconc/comm/msg_req.cc:21-60 | Seeds when empty or all nines, otherwise counts up by one in the same length; a short read of the random source gives the empty string and changes nothing |
| MsgReq.MsgReqUtil.CountUp | flconc/comm/msg_req.cc:46-55 | The carry loop on the characters in place; it never runs off the front |

## Left out

- AsyncChannels.OneCallIsSafe: one way only; the exact conditions, for any number of calls, are StrayIff and WaitReturnsAtOnceIff.
- Pipeline.SafeCutsAreQuiet: a sufficient condition that can be read off the bytes sent; the exact one also looks at the buffer behind them (ExactRoundsIff, LongTailQuietIff, ShortTailQuietIff).
- TcpConnections.TcpConnection.Input: the read loop only; the over-time flag, which only a client's timer sets and which breaks off the loop, closing the connection and the refresh of the time wheel behind it are not part of it (the refresh is TimeWheelObjects.TcpServer.AfterRead).
- TcpConnections.TcpConnection.ExecuteAll: with the FlconcPb codec; with the HTTP codec it is HttpPipelines.HttpConnection.ExecuteTurns.
- TcpConnections.TcpConnection.DecodeAndDeliver: as ExecuteAll.
- HttpPipelines.ExecuteEndsIff: requests with header lines; one without is refused when it stands alone (HttpCodec.HeaderlessRefused), and what it becomes together with the next one is left out.
- EventBatch.SubReactorLoop.HandleEvents: every entry is a connection's; the wake descriptor, which is read empty, and the timer descriptor, whose callback runs at once and makes the due callbacks pending, are not among the entries.
- EventBatch.SubReactorLoop.HandleEvent: as HandleEvents.
- WorkSharingProgress.ReturnsToWait: some steps of its own lead the thread back, not every schedule does: a coroutine whose reads keep succeeding may keep it.
- TcpBuffers.TcpBuffer.RecycleRead: a count that ends between the write index and the end of the vector is excluded.
- PbCodec.EncodePbData: frames are below 2^31 bytes.
- PbCodec.EncodeTo: as EncodePbData.
- CoCtx.Machine.CoctxSwap: memory is made of words that an address names whole; contexts, and the stack words a switch touches, are required not to overlap, so a stack that has grown into a context is not modelled.
- Reactor::loop is not one method: other threads act between its accesses to shared state, so it is the steps of the state machine. One method models the loop over a sub-reactor's events, where nothing else runs in between.
- The wake descriptor and the timer descriptor are not in the state machine: they never hold a coroutine. The wake descriptor is in `FdEvents.Reactor`.
- In the state machine every server coroutine waits on its own fd only: a nested call through TcpClient, connect_hook and sleep_hook are left out, because for a coroutine that waits on a second fd the ownership the model proves is not what the code keeps.
- epoll_ctl fails in the model only when the operation is illegal, not for lack of memory.
- Buffer indices and lengths are unbounded integers: the 32-bit overflow of `m_write_index + size` is not modelled.
- Reading or copying past a buffer, which some corrupt frames make decode do, ends the modelled call with the outcome Overrun.
- Resynchronising after garbage before a frame is left out, and so is a check of the checksum: the code writes it and never looks at it.
- std::atoi is modelled on values that fit an int.
- HTTP responses, dispatchers and servlets are left out: they add string building only.
- Absolute-form targets are left out of the printed requests that the round trip is about; what the parser makes of them is HttpAcceptance.AbsoluteLineParses.
- The word that the first switch to a new coroutine writes lies at the aligned top of its block, which can be just outside it; blocks are proved disjoint, containment of that word is not claimed.
- Mutual exclusion of CoroutineMutex is left out: the code clears its flag before it wakes a waiter.
- The asynchronous channel is modelled with the caller staying on its IO thread.
- Timer callbacks run as later operations of a run, after onTimer has done everything else, as in the source.
- resetTime on an event that is still pending would break the order of the queue; no caller does that, and runs exclude it.
- Logging, thread pools, configuration, addresses, MySQL, protobuf and the code generator are left out.
