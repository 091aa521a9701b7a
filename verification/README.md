# Easy-Reactor: verified model

Easy-Reactor is a C++ server framework for Linux: one epoll loop per thread, a timer queue behind a timerfd, framed
TCP connections over pooled buffers, and an acceptor that deals new connections out to worker threads. This project
states what those four parts promise and proves it. Code that changes objects in place is modelled by classes and
methods with the same branches and loops; each method is proved equal to a function on values, and the properties
of whole runs are proved about those functions. The kernel (epoll set, eventfd counter, timerfd, socket, descriptor
table) is abstract state with nondeterministic answers. `dafny verify dfyconfig.toml` checks everything.

| file | what it covers |
|---|---|
| TimerHeap, Timers, TimerRuns | the heap as functions, the queue as a state machine, whole runs of it |
| TimerDeadline | when the armed deadline can become late, and when it is at the root of the heap |
| TimerQueue | the class: vector, count, id-to-slot index, armed timerfd, updated in place |
| Framing, Pipe | wire format, incremental parser, chunking; one connection end to end under every schedule |
| IoBuffer, TcpBuffer, BufferWorld | linked free lists per size class, one owner of buffers, all owners of one pool |
| EventLoop, TcpConn, TcpClient | interest table, the callbacks of a connection, the client's writer |
| Company, EndToEnd | all connections on one pool together; the two ends of one connection |
| ThreadQueue, TcpServer, HandOff | queue and doorbell under every interleaving, round robin and accepting, ownership of descriptors |
| Kernel, Options | the outgoing side of a socket; an option type |

## What turns out not to hold

Each of these is stated with its exact condition in the table below.

- `heap_del` only sifts downward, so a deletion can break the heap order (`TimerHeap.HeapDelOrdersIff`), and the armed
  deadline can then become later than a pending timer (`TimerRuns.DeletionCanDelay`). Order is exactly what prevents
  that: a heap is ordered if and only if no continuation whose deletions meet the guard makes the deadline late
  (`TimerDeadlines.OrderedIffNeverLate`), so a run is safe if and only if all its deletions meet the guard
  (`TimerDeadlines.RunLateIff`).
- The framework's own README.md:40 says that the timerfd is always set to the timer at the top of the heap. Even with
  the order intact it lags behind after a deletion of the only timer due at the deadline while others are pending,
  and after nothing else (`TimerDeadlines.DelAtRootIff`, `TimerDeadlines.RunAtRootIff`); two insertions and a deletion
  suffice (`TimerDeadlines.DeadlineLagsBehind`). The next wakeup then fires nothing and moves the deadline.
- A frame with an empty body that ends a read aborts the process: popping the head gives the buffer back and the pop
  of the body trips the assertion at src/io_buffer.cc:182 (`Framing.ConsumeExact`, `Framing.ChunkingIndependence`).
- The rollback of a refused `send_data` pops from the front. With output pending it destroys that output and makes
  the next send trip an assertion (`TcpConns.RefusalIsUndoneIff`, `TcpConns.RollbackLosesOutput`).
- After a malformed frame `handle_read` still runs `ibuf.adjust()` on an object whose descriptor has been closed;
  by then another worker may own that object, or have an `adjust` of its own left over for it
  (`HandOffs.AdjustSharesIff`, `HandOffs.AdjustRacesIff`, `HandOffs.BadFrameRace`, `HandOffs.BothAdjusting`).
- README.md:89 and README.md:104 say that a write buffer is returned once it has been sent. The code keeps it
  attached until the connection is cleaned, or until a `send_data` is refused after its head has been appended to the
  empty buffer, whose rollback empties the buffer again; the model follows the code
  (`TcpBuffers.TcpBuffer.WriteFd`, `TcpConns.TcpConn.HandleWrite`, `TcpBuffers.TcpBuffer.Pop`).
- README.md:92 lists ten 4 MiB buffers and no 8 MiB ones; the constructor makes twenty and ten. The comment at
  src/io_buffer.cc:116 says 100 where the loop makes 200. The model follows the code.

## Model

| member | source | states |
|---|---|---|
| TimerHeap.Parent | src/timer_queue.cc:109-120 | C++ division truncates toward zero, so the parent of slot 0 is slot 0; of every other slot it is the earlier slot whose child it is |
| TimerHeap.RootIsMin | src/timer_queue.cc:24-26 | in an ordered heap no timer is earlier than slot 0 |
| TimerHeap.MinSlot | src/timer_queue.cc:169-178 | the slot `heap_hold` exchanges with is the smallest of a slot and its children |
| TimerHeap.SiftUpOrders | src/timer_queue.cc:109-121 | the upward loop restores the order whenever only the sifted slot is too small |
| TimerHeap.SiftDownOrders | src/timer_queue.cc:167-190 | `heap_hold` restores the order whenever only the sifted slot is too large |
| TimerHeap.SiftDownKeepsFront | src/timer_queue.cc:167-190 | `heap_hold` never touches a slot before the one it starts at |
| TimerHeap.HeapAddOrders | src/timer_queue.cc:100-122 | insertion keeps the order |
| TimerHeap.HeapDelOrdersIff | src/timer_queue.cc:124-142 | from an ordered heap, deletion as written leaves an ordered heap if and only if the slot is 0, or the last, or the rear timer is not earlier than the parent of the slot |
| TimerHeap.HeapDelIntendedOrders | src/timer_queue.cc:124-142 | with the upward loop added, deletion keeps the order at every slot |
| TimerHeap.HeapDelLosesOrder | src/timer_queue.cc:124-142 | deleting slot 3 of timestamps 1, 10, 2, 11, 12, 3 leaves 3 under 10 |
| TimerHeap.HeapAddPending | src/timer_queue.cc:100-122 | insertion is map update on the abstract queue (id to timer) |
| TimerHeap.HeapDelPending | src/timer_queue.cc:124-142 | deletion removes exactly the timer of the slot from the abstract queue, as written and as intended |
| Timers.Find | src/timer_queue.cc:34-40 | looking an id up yields the slot that holds it, or says that no slot does |
| Timers.NeverLate | src/timer_queue.cc:86-98 | in an ordered sound state the armed deadline is no later than any pending timer |
| Timers.AddTimerPending | src/timer_queue.cc:19-30 | `add_timer` adds the timer to the abstract map under an id that was not pending |
| Timers.AddTimerKeeps | src/timer_queue.cc:19-30 | `add_timer` keeps ids distinct and below the next id, the sentinel exactly while nothing is pending, the deadline at or before the root, and the order |
| Timers.AddTimerDeadline | src/timer_queue.cc:24-28 | the deadline becomes exactly the earlier of the old one and the new timer |
| Timers.DelTimerExact | src/timer_queue.cc:32-53 | `del_timer` removes exactly the given id, changes nothing when it is unknown, and keeps the run invariant even where it breaks the order |
| Timers.DelTimerOrderIff | src/timer_queue.cc:32-53 | the order survives `del_timer` if and only if the guard on the found slot holds |
| Timers.DelTimerNeverLowers | src/timer_queue.cc:48-52 | while the order holds, the second re-arming branch of `del_timer` is never taken |
| Timers.PopDueSplits | src/timer_queue.cc:58-68 | whatever the order, the expiry loop fires only timers at the deadline, each once, and loses none |
| Timers.PopDueExact | src/timer_queue.cc:58-68 | from an ordered heap with nothing earlier, it fires exactly the timers at the deadline |
| Timers.GetTimoKeeps | src/timer_queue.cc:55-84 | even without the order, `get_timo` keeps the run invariant, arms the root, and what is pending after is what did not fire plus each periodic one moved on under a fresh id |
| Timers.GetTimoExact | src/timer_queue.cc:55-84 | in an ordered state the fired timers are exactly those at the deadline and the rest stays, with every fired periodic one at ts + interval |
| Timers.GetTimoRefines | src/timer_queue.cc:55-84 | `get_timo` refines one step on the map from id to timer: drop those at the deadline, add the re-armed ones under the next ids |
| Timers.GetTimoStale | src/timer_queue.cc:55-84 | what a wakeup at a deadline that no root timer has does: nothing fires and only the deadline moves, whatever the order; TimerDeadlines.RunAtRootIff says when there is such a deadline |
| TimerRuns.RunSound | src/timer_queue.cc:19-84 | every run, with deletions as written, keeps ids distinct and fresh, the sentinel exactly while nothing is pending and the deadline at or before the root |
| TimerRuns.StepGoodIff | src/timer_queue.cc:19-84 | one operation keeps order and invariant if and only if it is not a deletion that fails the guard |
| TimerRuns.RunGoodIff | src/timer_queue.cc:19-84 | every state of a run keeps heap order and the run invariant if and only if every deletion in it met the guard |
| TimerRuns.NeverLateOnRuns | src/timer_queue.cc:19-84 | from an empty queue, without deletions or with the intended one, no state of any run has a deadline later than a pending timer |
| TimerRuns.SevenIsReachable | src/timer_queue.cc:19-30 | the queue of the next row is built by seven insertions |
| TimerRuns.DeletionCanDelay | src/timer_queue.cc:32-84 | from that reachable queue one deletion and two wakeups leave a timer due at 3 pending under a deadline of 10, and 10 fires first |
| TimerRuns.FiringOrder | src/timer_queue.cc:55-84 | over a run without insertions whose deletions meet the guard, the concatenated firings are nondecreasing in time |
| TimerRuns.OneShotDrains | src/timer_queue.cc:55-84 | one-shot timers are all fired, each once and sorted, within (distinct timestamps + 1) wakeups |
| TimerRuns.OneShotDrainsAnyOrder | src/timer_queue.cc:55-84 | what a deletion that broke the order leaves of this: they are all fired, each once, within (number of timers + 1) wakeups |
| TimerRuns.RearmedAreHeirs | src/timer_queue.cc:57-72 | what `get_timo` re-arms are the next occurrences of the periodic timers that fired, exactly one for each |
| TimerRuns.PeriodicExact | src/timer_queue.cc:57-72 | over any run that never deletes its pending occurrence, the firings of a periodic timer, under all the ids it gets, are at ts, ts + interval, ... with none skipped; its next occurrence is pending after, under a fresh id once it has fired; other timers may share its callback |
| TimerRuns.PeriodicApart | src/timer_queue.cc:57-72 | two pending periodic timers never turn into one |
| TimerDeadlines.SiftDownKeepsViolation | src/timer_queue.cc:167-190 | a downward sift that starts from a latest timer does not repair a heap broken elsewhere |
| TimerDeadlines.BrokenGetsLate | src/timer_queue.cc:19-84 | from every state with a broken heap there is a legal continuation, with deletions of the root only, after which a timer is pending before the deadline |
| TimerDeadlines.OrderedIffNeverLate | src/timer_queue.cc:19-84 | in any state a run can reach, the heap is ordered if and only if no continuation whose deletions meet the guard makes the deadline late |
| TimerDeadlines.DelTimerLateIff | src/timer_queue.cc:32-53 | a deletion meets the guard if and only if no such continuation of it makes the deadline late |
| TimerDeadlines.RunLateIff | src/timer_queue.cc:19-84 | a run is nowhere exposed to a late deadline if and only if every deletion in it met the guard |
| TimerDeadlines.AddAtRootIff | src/timer_queue.cc:19-30 | `add_timer` leaves the deadline at the root if and only if the new timer is no later than the deadline or the deadline was there |
| TimerDeadlines.DelAtRootIff | src/timer_queue.cc:32-53 | `del_timer` leaves the deadline at the root if and only if another timer is due at the deadline or no other is pending, whether or not it keeps the order |
| TimerDeadlines.StepAtRootIff | src/timer_queue.cc:19-84 | the same for any one operation; a wakeup always does |
| TimerDeadlines.RunAtRootIff | src/timer_queue.cc:19-84 | over a run that keeps the order, the timerfd is always set to the root if and only if every operation meets that condition |
| TimerDeadlines.DeadlineLagsBehind | src/timer_queue.cc:19-84 | two insertions and a deletion leave an ordered queue with the deadline before its only timer; the wakeup fires nothing |
| TimerQueues.ArmExact | src/timer_queue.cc:86-98 | the timerfd is set to the deadline, to the nanosecond, and disarmed only by 0 and the sentinel, 2^64-1 |
| TimerQueues.SwapIndex | src/timer_queue.cc:112-117 | exchanging two slots and their index entries keeps the index the inverse of slot to id |
| TimerQueues.MoveRearIndex | src/timer_queue.cc:128-139 | the index updates of `heap_del` keep it the inverse, also when the slot is the last |
| TimerQueues.PopIndex | src/timer_queue.cc:147-157 | erasing first and moving the rear afterwards, as `heap_pop` does, has the same effect |
| TimerQueues.TimerQueue.constructor | src/timer_queue.cc:8-12 | a new queue is empty, with the sentinel as deadline |
| TimerQueues.TimerQueue.ResetTimo | src/timer_queue.cc:86-98 | arms the timerfd at the deadline, changing nothing else |
| TimerQueues.TimerQueue.HeapAdd | src/timer_queue.cc:100-122 | the in-place loop computes the insertion of TimerHeap and keeps count and index exact |
| TimerQueues.TimerQueue.HeapHold | src/timer_queue.cc:167-190 | the recursion terminates, computes the downward sift and keeps count and index exact |
| TimerQueues.TimerQueue.HeapDel | src/timer_queue.cc:124-142 | computes the deletion as written and keeps count and index exact |
| TimerQueues.TimerQueue.HeapPop | src/timer_queue.cc:144-165 | computes the removal of the root, also from an empty heap, and keeps count and index exact |
| TimerQueues.TimerQueue.AddTimer | src/timer_queue.cc:19-30 | returns an unused id and performs the abstract `add_timer`; the timerfd agrees with the deadline after |
| TimerQueues.TimerQueue.DelTimer | src/timer_queue.cc:32-53 | performs the abstract `del_timer`, found through the index |
| TimerQueues.TimerQueue.TakeDue | src/timer_queue.cc:58-68 | the first loop of `get_timo` splits the heap as the abstract expiry does and collects the periodic ones |
| TimerQueues.TimerQueue.GetTimo | src/timer_queue.cc:55-84 | fired list and new state are those of the abstract `get_timo`, with index and timerfd exact |
| Framing.WordRoundTrip | include/msg_head.h:6-10 | every 32-bit value, negative ones included, is decoded from its four bytes |
| Framing.WordBytes | include/msg_head.h:6-10 | the bytes are little-endian and in two's complement, byte by byte |
| Framing.BytesRoundTrip | include/msg_head.h:6-10 | and every four bytes are those of the word they decode to |
| Framing.EncodeAllAppend | src/tcp_conn.cc:124-132 | appending a frame to a stream is appending its head and body |
| Framing.NextMonotone | src/tcp_conn.cc:63-85 | what the loop decides about the front of the buffer does not depend on later bytes |
| Framing.NextOfHead | src/tcp_conn.cc:63-85 | what any complete head decides, whatever follows: a length below 0 or above 65528 closes; then an incomplete body waits; then an unknown command closes; else the frame is the one at the front |
| Framing.NextOfEncoded | src/tcp_conn.cc:63-90 | a written frame is recognised as itself if the reader knows its command and its body has at most 65528 bytes, and is rejected otherwise, whatever follows |
| Framing.ConsumeExact | src/tcp_conn.cc:63-90 | the loop aborts if and only if the buffer ends on a frame with an empty body, and agrees with the one-shot parser on every other input |
| Framing.ResidueBound | src/tcp_conn.cc:63-91 | what is left unparsed is under 65536 bytes and begins with no complete frame |
| Framing.ParseSplit | src/tcp_conn.cc:63-91 | parsing any stream in two pieces, with the residue kept between, is parsing it at once |
| Framing.ParsePrefix | src/tcp_conn.cc:63-91 | what a prefix of a stream dispatches is a prefix of what the stream dispatches |
| Framing.SmallReadsFit | src/io_buffer.cc:192-239 | reads of up to 8 MiB less 65535 bytes always find a size class, whatever they contain |
| Framing.EmptyEndSplit | src/tcp_conn.cc:86-89 | whether a read ends on an empty body is decided by the residue and the bytes of that read |
| Framing.ReadStep | src/tcp_conn.cc:45-92 | one more read takes the one-shot parse of a stream to the one-shot parse of the longer stream, or aborts on an empty body at its end |
| Framing.ChunkingIndependence | src/tcp_conn.cc:45-92 | for arbitrary bytes cut into reads in any way, dispatches and the decision to close are those of a one-shot parse of the concatenation, unless a read ends on an empty body; exactly then the process aborts |
| Framing.SameStreamSameOutcome | src/tcp_conn.cc:45-92 | two ways of cutting one stream have the same outcome |
| Framing.ParseEncoded | src/tcp_conn.cc:63-90 | parsing what was written gives back what was written and nothing else |
| Framing.ArrivedPrefix | src/tcp_conn.cc:63-90 | at any point of a written stream the dispatched messages are a prefix of the written ones, and all of them once all has arrived |
| Framing.FrameSurvivesIff | src/tcp_conn.cc:66-89 | a single frame survives one send and one read if and only if its command is registered and its body has 1 to 65528 bytes |
| Pipe.InvStep | src/tcp_conn.cc:45-145 | every send, partial write and read keeps: sent frames are bytes arrived, in flight and pending, and the reader is where the one-shot parse is |
| Pipe.StepMoves | src/tcp_conn.cc:45-145 | what each of them moves, from output to wire to reader |
| Pipe.InvRun | src/tcp_conn.cc:45-145 | and so does every schedule |
| Pipe.RoundTrip | src/tcp_conn.cc:45-145 | under every schedule the reader has dispatched a prefix of what was sent and keeps the connection; with nothing pending or in flight it has dispatched exactly what was sent |
| Pipe.Progress | src/tcp_conn.cc:45-145 | while anything is pending or in flight, a write or a read is possible |
| Pipe.Drains | src/tcp_conn.cc:45-145 | and after any schedule some writes and reads leave nothing pending or in flight, with exactly what was sent dispatched |
| IoBuffers.IoBuffer.Adjust | include/io_buffer.h:25-35 | moves the contents to the front and changes none of them |
| IoBuffers.IoBuffer.Copy | include/io_buffer.h:37-43 | the contents become those of the other buffer, at the front |
| IoBuffers.IoBuffer.Pop | include/io_buffer.h:45-49 | drops the given number of bytes from the front |
| IoBuffers.IoBuffer.Append | src/io_buffer.cc:270-271 | adds the bytes behind the contents |
| IoBuffers.IoBuffer.PutBefore | src/io_buffer.cc:57-64 | an emptied buffer, linked in front of a list |
| IoBuffers.SizeClass | src/io_buffer.cc:12-30 | the least of the seven classes that is large enough, or none above 8 MiB |
| IoBuffers.ChainTail | src/io_buffer.cc:46-47 | unlinking the head of an acyclic list leaves an acyclic list of the rest, of the same capacity, without the head |
| IoBuffers.ChainCons | src/io_buffer.cc:63-64 | linking a cleared buffer in front gives an acyclic list of the same capacity |
| IoBuffers.ChainSnoc | src/io_buffer.cc:78-83 | linking a new buffer behind the last one does too |
| IoBuffers.PartitionedTake | src/io_buffer.cc:46-51 | taking the head of a list keeps every buffer either free once or held, never both |
| IoBuffers.PartitionedRevert | src/io_buffer.cc:54-67 | so does giving a held buffer back, and it was not on its list before |
| IoBuffers.PartitionedCreate | src/io_buffer.cc:40-44 | so does creating a buffer for a holder |
| IoBuffers.AccountedUniform | src/io_buffer.cc:78-84 | adding the memory of a list of equal buffers keeps the total equal to the sum over all buffers |
| IoBuffers.BufferPool.constructor | src/io_buffer.cc:69-163 | the seven lists are well formed and hold 5000, 1000, 500, 200, 50, 20 and 10 buffers; nothing is held, and the total is 334240 KiB |
| IoBuffers.BufferPool.BuildList | src/io_buffer.cc:73-83 | a list-building loop links exactly the given number of fresh buffers of one capacity |
| IoBuffers.BufferPool.Alloc | src/io_buffer.cc:12-52 | hands out an empty buffer of the least sufficient class that nobody held: the head of its list, which is then without it, or a new one exactly when the list is empty; fails exactly above 8 MiB; exits exactly when the list is empty and another buffer of the class would reach the memory limit |
| IoBuffers.BufferPool.LimitIs | src/io_buffer.cc:35-38 | the total stays below 5242880 KiB; when the process exits, in those numbers |
| IoBuffers.BufferPool.Revert | src/io_buffer.cc:54-67 | the buffer goes to the front of the list of its class, empty and held by nobody, and nothing else changes |
| IoBuffers.BufferPool.BelowLimit | src/io_buffer.cc:35 | with room for one more buffer of the largest class below the limit, no request can end the process |
| TcpBuffers.TcpBuffer.Clear | src/io_buffer.cc:171-178 | gives the buffer back, if any, and concerns no other owner |
| TcpBuffers.TcpBuffer.Pop | src/io_buffer.cc:180-190 | drops bytes from the front, and gives the buffer back exactly when that empties it |
| TcpBuffers.TcpBuffer.EnsureRoom | src/io_buffer.cc:201-226 | growth keeps the contents, makes enough room, fails exactly when the total exceeds 8 MiB, and then changes nothing; the process ends exactly when a buffer is needed and `alloc` exits for it |
| TcpBuffers.TcpBuffer.Replace | src/io_buffer.cc:222-224 | copying into a larger buffer and giving the old one back leaves one buffer held, with the old contents |
| TcpBuffers.TcpBuffer.ReadData | src/io_buffer.cc:192-239 | on success the bytes read are appended at the front-aligned contents and always fit; on failure the contents stay; the process ends exactly when a buffer is needed and `alloc` exits for it |
| TcpBuffers.TcpBuffer.SendData | src/io_buffer.cc:241-273 | all or nothing: the bytes are appended, or the total exceeds 8 MiB and buffer and contents stay; the process ends exactly when a buffer is needed and `alloc` exits for it |
| TcpBuffers.TcpBuffer.WriteFd | src/io_buffer.cc:275-293 | -1 exactly if the kernel reports an error, 0 exactly if the socket is full or takes nothing, otherwise the number of bytes taken; those leave the front and nothing else does; the emptied buffer stays attached |
| TcpBuffers.Apart | src/io_buffer.cc:171-293 | what an operation on one owner may touch has nothing to do with another owner |
| TcpBuffers.Conservation | src/io_buffer.cc:12-67 | every buffer ever created is on exactly one free list, once and of its capacity, or pointed to by exactly one owner, and not both; the total is the sum over all buffers and under the limit |
| BufferWorlds.Step | src/io_buffer.cc:171-293 | every operation of any owner has its effect on the contents of that owner, preserves the premises of Conservation for all owners, and changes no byte of any other owner |
| BufferWorlds.Attach | include/io_buffer.h:104-106 | a new owner joins holding nothing |
| EventLoops.AddThenRemove | src/event_loop.cc:83-142 | adding interest that was not there and removing it restores every mask |
| EventLoops.EventLoop.AddIoev | src/event_loop.cc:83-116 | table, listening set and kernel set agree after; the mask is the old one and the new bits; EPOLLIN sets the read callback and only that, EPOLLOUT alone the write callback and only that; no other entry changes |
| EventLoops.EventLoop.DelIoevMask | src/event_loop.cc:118-142 | they agree after; the bits go and the callbacks stay, the entry goes with the last bit, no other entry changes, and the kernel never refuses |
| EventLoops.EventLoop.DelIoev | src/event_loop.cc:144-149 | they agree after; the entry is gone and no other has changed |
| TcpConns.ConnCounter.IncConn | src/tcp_server.cc:190-195 | one more connection is counted |
| TcpConns.ConnCounter.DecConn | src/tcp_server.cc:204-209 | one less |
| TcpConns.InterestKept | src/tcp_conn.cc:112-143 | adding or removing write interest never disturbs read interest or its callback |
| TcpConns.RefusalIsUndoneIff | src/tcp_conn.cc:128-138 | a refused `send_data` leaves the output as it was if and only if nothing was pending or not even the head fitted; otherwise the next send fails an assertion |
| TcpConns.SendFacts | src/tcp_conn.cc:118-145 | a frame is accepted exactly if the output starts at the front of its buffer and head and body fit into 8 MiB behind it; a gap fails the assertion; a refused one keeps the length of the output |
| TcpConns.SendAllAccepts | src/tcp_conn.cc:118-145 | frames that fit into 8 MiB behind what is pending are all accepted and pending in order |
| TcpConns.FirstSends | src/tcp_conn.cc:118-145 | so from the start of a connection, frames of at most 8 MiB together are all accepted, and are what is pending |
| TcpConns.RollbackLosesOutput | src/tcp_conn.cc:132-138 | an example where the rollback destroys the front of a frame accepted before |
| TcpConns.ReadContinues | src/tcp_conn.cc:45-92 | a read that keeps the connection leaves it at the one-shot parse of everything read |
| TcpConns.TcpConn.ResidueIsSmall | src/tcp_conn.cc:62-91 | between callbacks a connection buffers less than 65536 unparsed bytes |
| TcpConns.TcpConn.Init | src/tcp_conn.cc:23-43 | a new or reused object starts with empty buffers, registered for reading only, and counted once |
| TcpConns.TcpConn.CleanConn | src/tcp_conn.cc:147-161 | afterwards the object holds no buffer, is deregistered and uncounted, and ready for reuse; no other owner of buffers is concerned |
| TcpConns.SendAllKeeps | src/tcp_conn.cc:118-145 | whatever is sent, accepted frames stay accepted in order, and after a rollback that left a gap nothing is accepted any more |
| TcpConns.TcpConn.DispatchOne | src/tcp_conn.cc:86-89 | the callback gets exactly the frame at the front, which then leaves the buffer, and its replies are sent; `Abort` only where the assertion on an empty body fails |
| TcpConns.TcpConn.Callback | src/tcp_conn.cc:88 | a message callback sends its replies between the two pops, each with the effect of `send_data`: output invariants and write interest hold throughout, and the input side is left alone; it ends the process only with the pool at its memory limit, or on a gap that a refused reply has left, exactly if there is one |
| TcpConns.TcpConn.ParseLoop | src/tcp_conn.cc:62-90 | the loop over the pooled buffer dispatches, keeps and decides what the parser on byte sequences does, and sends the replies to the messages it dispatches, in order |
| TcpConns.TcpConn.HandleRead | src/tcp_conn.cc:45-92 | whatever the kernel answers and whatever the message callbacks reply, dispatches and verdict are those of the incremental parser and the output is what the replies to the dispatched messages make of it, unless the process ends in a callback: at the memory limit, or exactly where one of those replies meets a gap that a refused one has left; a surviving connection holds a read buffer iff something is left over, and EPOLLOUT goes with its output; a closed one is clean; no other owner of buffers and no other entry of the table is concerned |
| TcpConns.TcpConn.AppendFrame | src/tcp_conn.cc:124-138 | 0 exactly if head and body fit into 8 MiB behind what is pending, and then they are appended; otherwise the output is as before if it was empty or not even the head fitted, and else has lost its first eight bytes and gained the head; the process ends only with the pool at its memory limit |
| TcpConns.TcpConn.SendData | src/tcp_conn.cc:118-145 | from a message callback or from anywhere between callbacks: a frame is accepted exactly if there is no gap and head and body fit into 8 MiB behind what is pending; accepted frames extend the output in order; write interest is added exactly when nothing was pending; bytes written and pending stay the concatenation of the accepted frames, EPOLLOUT is registered iff output is pending, and the input side is left alone; the process ends only at the memory limit |
| TcpConns.AnsweredIs | src/tcp_conn.cc:94-116 | what such an end says about the answers of the kernel one by one: all but the last took something |
| TcpConns.TcpConn.HandleWrite | src/tcp_conn.cc:94-116 | the connection is closed exactly if the last answer of the kernel is an error; otherwise everything was written or the last answer took nothing; exactly the bytes taken are sent and leave the front of the output, write interest is dropped exactly when nothing is pending, the buffer stays attached, and nothing else of the connection changes; a failed one is clean |
| TcpClients.TcpClient.Opened | src/tcp_client.cc:35-49 | a fresh connection starts with nothing pending and nothing accepted |
| TcpClients.TcpClient.Registered | src/tcp_client.cc:51-55 | after the user's callback, which may have sent, the client's read callback is registered, the write callback too iff output is pending, and no other entry has changed |
| TcpClients.TcpClient.SendData | src/tcp_client.cc:121-146 | 0 exactly with a connection and room for head and body in 4 MiB, and then the frame is appended and the write callback registered iff nothing was pending; otherwise -1, and nothing changes |
| TcpClients.TcpClient.HandleWrite | src/tcp_client.cc:215-248 | -1 exactly if the last answer of the kernel is an error, and then the connection is gone; otherwise everything was written or the last answer took nothing; exactly the bytes taken are sent and leave the front of the output; interest goes with pending output |
| EndToEnd.ClientToServer | src/tcp_client.cc:121-146 | with the two objects in any state between callbacks, the server has dispatched a prefix of what the client's `send_data` accepted, and exactly that once nothing is pending or in flight |
| EndToEnd.ServerToPeer | src/tcp_conn.cc:94-145 | the same for the frames a server connection accepted |
| EndToEnd.FrontKeepsOpen | src/tcp_conn.cc:45-92 | any front of the bytes in flight of accepted frames keeps a reader open and has it dispatch a prefix of them |
| EndToEnd.NextReadStaysOpen | src/tcp_conn.cc:45-92 | so the next read of the server connection keeps it open, whatever front of the bytes in flight it gets |
| EndToEnd.NextReplyStaysOpen | src/tcp_conn.cc:45-92 | the same for frames a server connection accepted |
| EndToEnd.Deliver | src/tcp_conn.cc:45-92 | the server's next read, performed on the objects, leaves both ends linked as before with that front no longer in flight and the replies sent, unless the process ends in a callback: at the memory limit, or on a gap that a refused reply has left |
| EndToEnd.Say | src/tcp_client.cc:121-146 | a send of the client leaves them linked; it is accepted exactly if it fits into 4 MiB, and a refused one changes nothing |
| EndToEnd.Flush | src/tcp_client.cc:215-248 | exactly what the client's socket takes leaves its output and is in flight, and they stay linked unless the socket fails |
| EndToEnd.Perform | src/tcp_conn.cc:45-145 | any one of these acts does to accepted, pending, in-flight, arrived, dispatched and reply bytes exactly what it should; `Gone` is a failed write of the client, `Torn` a reply that meets a gap |
| EndToEnd.Exchange | src/tcp_client.cc:121-146 | over any schedule of sends, partial writes and reads with replies on the two objects, each act does exactly that; at the end the server has dispatched a prefix of what the client's `send_data` accepted, and exactly that once nothing is pending or in flight; the schedule ends early only as for one act |
| Companies.Step | src/tcp_conn.cc:45-145 | a read, write or send of one connection does to it what its own contract says, and, unless that ends the process, leaves every connection on the same pool, in its own loop or another, with all its invariants between callbacks, and changes no byte and no message of any other |
| Companies.Open | src/tcp_conn.cc:23-43 | so does opening a connection in a new or reused slot, which starts empty, registered for reading and counted |
| Companies.Join | src/thread_pool.cc:24-28 | a new slot joins the others |
| ThreadQueues.RingsIff | include/thread_queue.h:34-42 | the eventfd is readable iff something is queued, even when writes to it fail at its maximum |
| ThreadQueues.ThreadQueue.SendMsg | include/thread_queue.h:34-42 | the message is queued last and the counter goes up by one, saturating at 2^64-2 |
| ThreadQueues.ThreadQueue.RecvMsg | include/thread_queue.h:44-52 | all messages are taken in order; the counter goes with the queue after if and only if the caller's own queue was empty |
| ThreadQueues.InvNext | include/thread_queue.h:34-61 | every single step of every sender and of the receiver keeps the invariant |
| ThreadQueues.NoLostWakeup | include/thread_queue.h:34-61 | in every reachable state: handled messages are a prefix of sent ones, the counter goes with the queue whenever the mutex is free, the receiver never reads an empty eventfd, and a queued message keeps it awake, even if sent before registration |
| ThreadQueues.OnePass | src/thread_pool.cc:8-39 | one pass of the receiver handles everything queued, in order |
| ThreadQueues.EverythingArrives | include/thread_queue.h:44-61 | from every reachable state with the mutex free and the descriptor registered, the receiver alone can handle everything sent |
| ThreadQueues.SendSteps | include/thread_queue.h:34-42 | the four steps of a sender without a rival are the method SendMsg |
| TcpServers.TurnsExact | src/thread_pool.cc:69-74 | of k turns, worker w gets k / n, plus one if w < k mod n |
| TcpServers.Balanced | src/thread_pool.cc:69-74 | after any number of turns no worker is more than one ahead of another |
| TcpServers.ThreadPool.constructor | src/thread_pool.cc:52-67 | as many distinct, empty queues as threads |
| TcpServers.ThreadPool.GetNextThread | src/thread_pool.cc:69-74 | the k-th call, from 0, picks worker k mod n |
| TcpServers.DealtBalanced | src/tcp_server.cc:163-170 | of connections handed off in turn no worker gets two more than another |
| TcpServers.DealtAt | src/tcp_server.cc:163-170 | the k-th handed-off connection is sent to the worker whose turn it is, behind those that went there before; descriptors may recur |
| TcpServers.DealtFrom | src/tcp_server.cc:163-170 | every message dealt to a worker is that of exactly one hand-off |
| TcpServers.ArrivalsAre | src/tcp_server.cc:113-131 | the arrivals are the descriptors given until `accept` would block; an interrupted call counts for nothing |
| TcpServers.BelowSplits | src/tcp_server.cc:147-151 | every arrival is either refused or goes on |
| TcpServers.BelowAll | src/tcp_server.cc:147-151 | with every counter on the same side of the limit, all of them go on, or are refused, in order |
| TcpServers.TcpServer.AcceptOne | src/tcp_server.cc:142-186 | a connection is refused exactly at the limit; else the assertion fails exactly if the descriptor is beyond the table; else it is handed to the worker whose turn it is, or initialised in its slot and counted |
| TcpServers.TcpServer.CleanSlot | src/tcp_conn.cc:147-161 | in single-thread mode the count goes down with the slot, which stays for reuse |
| TcpServers.TcpServer.DoAccept | src/tcp_server.cc:109-188 | over any sequence of answers of the kernel, refused descriptors given out again included: in single-thread mode connections are admitted in order of arrival up to the limit and refused beyond it, the count is exact and never above the limit; with workers an arrival is refused exactly if the counter read for it is at the limit and else dealt out in turn, both in order of arrival; the call ends early exactly at the first arrival below the limit whose descriptor is beyond the table, with those before it handled |
| HandOffs.AtStep | src/thread_pool.cc:8-39 | where each descriptor is after each step of acceptor and workers, in terms of where it was |
| HandOffs.InvStep | src/tcp_conn.cc:147-161 | every step of acceptor and workers keeps the ownership invariant |
| HandOffs.ExactlyOnePlace | src/thread_pool.cc:17-29 | in every run, with descriptors reused by the kernel at any time, an open accepted descriptor is in exactly one place and a closed one in none |
| HandOffs.ServedInTurn | src/thread_pool.cc:8-39 | in every run, each worker begins with the connections whose turn was its own, in order of acceptance, and those it has not begun with are waiting for it in that order |
| HandOffs.StartsEmpty | src/thread_pool.cc:19-28 | in every run, an object about to be initialised, new or reused, holds no bytes and belongs to no loop |
| HandOffs.CountExact | src/tcp_server.cc:190-209 | in every run `_curr_conns` is the number of initialised, uncleaned connections, between any two steps |
| HandOffs.TouchedIsOwn | src/tcp_conn.cc:147-161 | apart from the late `adjust`, a worker only touches objects of descriptors it owns |
| HandOffs.SharedByAdjust | src/tcp_conn.cc:77-91 | in every run: where two workers have events on one object, one of these is a late `adjust`; and either both are, or the descriptor is open again and off the queues |
| HandOffs.NoSharedObject | src/tcp_conn.cc:147-161 | in runs that close connections on end of file or errors only, no two workers are ever at one connection object |
| HandOffs.AdjustSharesIff | src/tcp_conn.cc:77-91 | the object of a late `adjust` is among those another worker works with if and only if the descriptor has been given out again and is off the queues, or another worker has a late `adjust` for it too |
| HandOffs.TouchesIff | src/tcp_conn.cc:147-161 | exactly when a worker has an event on an object, read off its program counter, its drained messages and its loop |
| HandOffs.AdjustRacesIff | src/tcp_conn.cc:77-91 | so exactly when another worker has an event on the object of a late `adjust` |
| HandOffs.BadFrameRace | src/tcp_conn.cc:77-91 | a run of ten steps that gets there |
| HandOffs.BothAdjusting | src/tcp_conn.cc:77-91 | and one of sixteen after which both workers have a late `adjust` for the object of a descriptor that is not open |

How to read the rows of methods: a method proved against a function on values (`Timers.GetTimo`, `Framing.Parse`,
`TcpConns.SendTo`, `EventLoops.Reduced`, ...) has the properties proved about that function in the rows of lemmas.
`TcpConn.Sending`, which also holds inside a message callback, says that sent plus pending bytes are the accepted
frames and that EPOLLOUT is registered iff output is pending. `TcpConn.Valid` adds, between callbacks, that the parse
of all bytes read is what was dispatched plus the residue.

A wakeup takes its whole list of fired timers before the first callback (src/event_loop.cc:11-20), so the timer calls
callbacks make are the `Add` and `Del` steps that follow `Wakeup` in a run of TimerRuns.

## Left out

- TimerRuns.RunSound: timestamps stay above 0 and below 2^64-1, the sentinel, as a condition on each step; a timer id that wraps at 32 bits is not modelled, ids are unbounded.
- TimerRuns.NeverLateOnRuns: for deletions as written it holds under the guard only; TimerDeadlines.RunLateIff states exactly when.
- TimerDeadlines.RunAtRootIff: over runs that keep the order; after a deletion that breaks it TimerDeadlines.DelAtRootIff covers that one step.
- Pipe.RoundTrip: bodies have 1 to 65528 bytes and reads fit the 8 MiB class; Framing.ConsumeExact and Framing.ChunkingIndependence say what happens outside that.
- TcpConns.TcpConn.SendData: lengths whose sum with 8 MiB overflows a C int are excluded; `alloc(datlen + length)` would wrap there. TcpClients.TcpClient.SendData excludes those whose sum with the head does.
- TcpBuffers.TcpBuffer.ReadData: a read returns the announced bytes, nothing at end of file, or an error; the assertion against a shorter read is not modelled, and the number announced is unbounded instead of a C int.
- IoBuffers.BufferPool.Alloc: one caller at a time, as the mutex enforces; failure of `new` ends the process and is not modelled.
- Companies.Step: one pool, no connection's step interrupted by another's; what a process that ends in the step leaves behind is not stated.
- EndToEnd.Exchange: from the client to a server connection; for replies the steps are TcpConns.TcpConn.HandleWrite and EndToEnd.NextReplyStaysOpen, not composed into a schedule.
- EventLoops.EventLoop.DelIoev: `epoll_ctl` fails only for a missing or doubled entry; exhaustion of kernel memory is not modelled.
- TcpServers.TcpServer.DoAccept: EMFILE and the reserve descriptor are not modelled, and with workers there is no bound on connections, because queued ones are not counted when the limit is checked; connection objects are slots with a flag here, and objects in TcpConn.
- HandOffs.NoSharedObject: malformed frames are excluded; HandOffs.SharedByAdjust covers every run, and HandOffs.AdjustSharesIff and HandOffs.AdjustRacesIff say exactly when a late `adjust` meets another worker at its object.
- HandOffs.ExactlyOnePlace: a step system on values; the acceptor's limit check is not part of it, and `Traffic` stands for any callback that keeps the connection.
- TcpConns.TcpConn.HandleRead: what the message callbacks of a read send is a parameter, one list of frames for each message in turn, on their own connection; a callback that sends on or closes other connections is not modelled, nor one that goes on differently when a send is refused, except by the frames it sends. The verdicts `Torn` and `Quit` are the process ending in a callback.
- TcpClients.TcpClient.Opened: the first connection only, completed through `connection_cb`; a connect that succeeds at once is not modelled.
- `tcp_client::handle_read` and its reconnection: the completeness test at src/tcp_client.cc:193 is reversed relative to the server's, and buffers survive a reconnect; the model has one connection and the server's reader.
- The order in which `process_evs` serves descriptors, and the functions queued with `add_task`.
- The broadcast form of `thread_pool::run_task`, which drops its arguments at src/thread_pool.cc:90.
- The clock behind `run_after` and `run_every`, and the conversion of seconds to an interval.
- connBuildCb and connCloseCb, the user's hooks at both ends of a connection.
- UDP client and server, config_reader, message dispatch tables beyond the set of known commands: no state across calls worth a proof.
- Socket options, bind, listen, connect, signals, logging.
