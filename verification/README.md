# SocksDirect in Dafny

SocksDirect moves socket bytes and control messages between processes through queues in shared
memory. This project models those queues, the index structures around them and the control protocol,
and proves what they promise. `dafny verify dfyconfig.toml` checks all of it.

Code that two processes execute at the same time is a step system: a state, the steps either side can
take, an invariant that every step keeps, and theorems over every run of steps. Code that changes data
in place is a class whose methods are proved against a specification on values, and the properties are
lemmas about that specification. The same operation often appears twice: `CreditQueue` has the steps of
`locklessqueue_t` interleaved in any way, `LocklessQueue` has its methods as the code writes them.

| files | what they model |
|---|---|
| `RingProtocol`, `ShmRing` | the single-producer single-consumer byte ring: its steps, and its methods |
| `DataPlane`, `DataCalls`, `SocketIo` | blocking send and recv over a futex counter with close, crash and watchdog; what each call reports; the non-blocking and vectored calls |
| `Handshake`, `Attach` | the monitor's registry of endpoint pairs, and how creator and joiner attach to a segment |
| `TombstoneFifo` | what both lockless queues implement: a FIFO with deletion in any order |
| `CreditQueue`, `LocklessQueue` | the queue with credits returned in batches |
| `TwoBlockQueue`, `BlockQueue` | the queue of two blocks |
| `PayloadChains`, `PayloadBuffer` | messages in chained blocks, with a lockless queue of free blocks |
| `LongMessage` | messages cut into 13-byte elements |
| `SlotPool`, `Rings`, `AdjList` | the growing slot pool, and cyclic lists that share one |
| `Dispatch`, `Listeners` | the monitor's listener table on top of these lists |
| `FdTable`, `FdRemapTable`, `FdOrder` | virtual file descriptors: the table on values, the class, and the order of registration |
| `Json`, `JsonReader`, `ControlCodec`, `ControlMessages`, `ControlServer` | the control protocol: grammar, readers, codec, and the line splitter of the daemon |
| `JsonText`, `LooseLines` | JSON objects as RFC 8259 defines them, and which of the lines the decoders accept are such objects |
| `Modular`, `Common` | 32-bit and 64-bit wrap-around, and buffer slots as remainders; shared types |

What is assumed. Shared memory is sequentially consistent, except that a side may read an older value
of the other side's ring index, never older than one it has read before, and that a consumer may read an
older value of its wake counter, but none from before an increment that made visible the bytes it has
already seen. The 16-byte copy of an element
is one step. FUTEX_WAIT compares and parks in one step. A process found dead or hung up takes no more
steps. Keys drawn by the registry are fresh and not zero. Chars of a `string` stand for bytes.

What the code does not give. Where a documented promise fails, the project keeps the code as it is,
names inputs or runs on which it fails, and proves exactly when it holds:

- `set` and `dup_to` drop the old binding while the forward map still shows it, so the rescan can find
  the very slot that is being dropped and the reverse index keeps a stale entry (`FdTable.DupToLosesReverse`;
  exactly when: `FdTable.BindKeepsReverse`, `FdTable.ApplyIndexed`).
- They leave the free list and the watermark in disagreement, and live_count wrong, unless the target is
  mapped or is the next new one (`FdTable.SetAboveWatermarkMiscounts`; exactly when:
  `FdTable.BindKeepsSlots`, `FdTable.ApplyInPlace`), and a target on the free list costs
  a reference count as soon as alloc hands it out again (`FdTable.SetOnFreeListLosesCount`; exactly when:
  `FdTable.ApplyCountable`).
- `reverse_lookup` is to answer the first virtual fd registered; after a rescan it answers the lowest
  (`FdOrder.RescanForgetsOrder`; exactly when: `FdOrder.NamesFirstExactly`).
- The iterator that `add_element` returns names itself as its predecessor, which is right for a list
  that was empty and wrong for every other (`AdjList.List.AddElement`).
- `pushdata` without enough free blocks leaves the last next field as it was (`PayloadBuffer.Buffer.PushData`);
  on cleared memory the chain becomes a cycle (`PayloadBuffer.ShortageOnClearedMemory`).
- A joiner never waits for its creator, and can attach after the creator has given up
  (`Attach.JoinerCanBeAlone`; the creator's verdict is exact, `Attach.VerdictIsExact`). A creator never
  asks whether the joiner is still there, and can attach after the joiner has left
  (`Attach.CreatorCanBeAlone`; exactly when: `Attach.MappedUnlessLeft`).
- A joiner that maps the segment before its creator has sized it faults at its first touch
  (`Attach.JoinerCanFault`; exactly when: `Attach.FaultsExactlyUnsized`).
- A long message's length travels as an int (`LongMessage.LengthsThatDoNot`, `LongMessage.CutShort`;
  exactly when: `LongMessage.LengthSurvives`).
- The decoders accept a comma before the closing brace, text that stops behind a comma, anything behind
  the closing brace, raw control characters inside strings, and bytes that are not UTF-8, where their
  comment says that they reject what they do not recognise (`LooseLines.CommaBeforeBrace`,
  `LooseLines.CutBehindComma`, `LooseLines.AnythingBehindBrace`, `LooseLines.ControlInString`,
  `LooseLines.BadByteInString`; exactly when: `LooseLines.CleanLinesAreObjects`).
- The bytes made from a \u escape are not UTF-8 for half of a surrogate pair (`Json.Utf8Exactly`).

## Model

| member | source | states |
|---|---|---|
| `Modular.Distance64` | include/socksdirect/shm_ring.hpp:93-104 | the 64-bit difference of two wrapped indices is the difference of the counts they stand for |
| `Modular.Slot64` | include/socksdirect/shm_ring.hpp:125-125 | masking the wrapped 64-bit index gives the slot of the unbounded count, because the capacity is a power of two |
| `Modular.Slot32` | common/locklessqueue_n.hpp:127-127 | the same for 32-bit pointers |
| `RingProtocol.StepKeeps` | include/socksdirect/shm_ring.hpp:119-152 | every index load (possibly old), byte copy in any order and index store of either side keeps the ring's invariant |
| `RingProtocol.FreeIsExact` | include/socksdirect/shm_ring.hpp:120-123 | the free space computed from an old head is exactly what that head leaves free, so never too much |
| `RingProtocol.AvailIsExact` | include/socksdirect/shm_ring.hpp:139-142 | the bytes available computed from an old tail are exactly those published by then and not consumed |
| `RingProtocol.SlotOfCount` | include/socksdirect/shm_ring.hpp:125-130 | a copy that wraps at the end of the buffer goes where the byte counts say, after any number of wraparounds |
| `RingProtocol.StreamProperty` | include/socksdirect/shm_ring.hpp:84-152 | in every interleaving, bytes received followed by the bytes between head and tail are the bytes published, and there is never more than the capacity between them |
| `RingProtocol.CopiesAreDisjoint` | include/socksdirect/shm_ring.hpp:126-130 | no byte the producer writes is one the consumer has yet to read or is reading |
| `RingProtocol.CallsAreExact` | include/socksdirect/shm_ring.hpp:113-152 | over every run, send_some copies exactly what fits beside the head it read, or nothing if that is full, and its store appends just that; recv_some takes exactly the next bytes, as many as asked for or as the tail it read shows, or none if that is where it stands; no other step adds to the stream or takes from it, and the ring is closed once it has been closed |
| `RingProtocol.SendGoesThrough` | include/socksdirect/shm_ring.hpp:119-133 | an idle sender gets as many of its bytes into the stream as there is room for, by its own steps, and changes nothing of the receiver's |
| `RingProtocol.RecvGoesThrough` | include/socksdirect/shm_ring.hpp:138-152 | an idle receiver gets as many bytes as it asks for, or as there are, by its own steps, and changes nothing of the sender's |
| `ShmRing.CopyInWrapped` | include/socksdirect/shm_ring.hpp:125-130 | the two memcpys put the bytes at consecutive slots modulo the capacity and touch no others |
| `ShmRing.CopyOutWrapped` | include/socksdirect/shm_ring.hpp:144-149 | the two memcpys read consecutive slots modulo the capacity |
| `ShmRing.Ring.constructor` | include/socksdirect/shm_ring.hpp:84-90 | an empty open ring, in the initial state of the step system |
| `ShmRing.Ring.Readable` | include/socksdirect/shm_ring.hpp:93-97 | the number of bytes published and not received |
| `ShmRing.Ring.Writable` | include/socksdirect/shm_ring.hpp:100-104 | the capacity less that number |
| `ShmRing.Ring.SetClosed` | include/socksdirect/shm_ring.hpp:113-115 | closing is the step of the same name and nothing else |
| `ShmRing.Ring.SendSome` | include/socksdirect/shm_ring.hpp:119-133 | exactly the bytes that fit are appended to what is unread, and the count says how many |
| `ShmRing.Ring.RecvSome` | include/socksdirect/shm_ring.hpp:138-152 | exactly the oldest unread bytes are taken, as many as asked for or as there are |
| `DataPlane.UsesRing` | src/lib/socket_api.cpp:187-294 | the data plane acts on the ring only through the ring's own steps, so the ring's theorems hold in it |
| `DataPlane.StepKeeps` | src/lib/socket_api.cpp:187-294 | every step of sender, receiver and watchdog keeps the invariant that ties calls, counter, closed flag and stream together |
| `DataPlane.ConsumerNeverStuck` | src/lib/socket_api.cpp:242-294 | a recv in progress always has a step, and every load can return what is in memory |
| `DataPlane.NoLostWakeup` | src/lib/socket_api.cpp:283-292 | over every run, with a capacity up to 2^31, a consumer parked while data is readable or the ring is closed has a counter bump or a wake still to come from a sender, a closing segment or the watchdog; senders cannot bring the 32-bit counter round between sample and wait, as their increments are bounded by the bytes published, and where 2^32 sweeps of the watchdog do, its next sweep is the wake to come |
| `DataPlane.PendingWakeArrives` | include/socksdirect/shm_segment.hpp:242-257 | a pending wake reaches the consumer by the other parties' steps alone and sends it back to try again |
| `DataPlane.CloseGoesThrough` | include/socksdirect/shm_segment.hpp:242-257 | closing closes the ring with all that was published in it, bumps the counter once and sends a parked recv back to try again, by the closer's own steps |
| `DataPlane.SweepGoesThrough` | src/lib/shm_conn.cpp:61-87 | once the peer has gone, a sweep does the same and leaves the watchdog ready for the next |
| `DataPlane.EofExact` | src/lib/socket_api.cpp:253-261 | once recv has returned 0 the ring is closed, all that was ever published has been received, and no continuation of the run adds to it; that recv does return 0 then is `DataCalls.EofArrives` |
| `DataPlane.ParkedWithDataArises` | src/lib/socket_api.cpp:283-292 | a run of a whole spin, sample and wait in which a byte is published behind a parked consumer, its wake still to come |
| `DataPlane.SentStaysInStream` | src/lib/socket_api.cpp:187-227 | over every run, the bytes that the last send reported stand contiguously in the stream, where that send began, as a prefix of its buffer |
| `DataCalls.SendEndsExactly` | src/lib/socket_api.cpp:187-227 | over every run, a send under way has put out just what it has counted, and a step of its own ends it exactly when the whole buffer is out, or it is not to block and finds the ring full, or its process crashes |
| `DataCalls.SendReportsWhatItSent` | src/lib/socket_api.cpp:187-227 | over every run, a send that returns reports the number of bytes published since it was called, which are that prefix of its buffer; the whole buffer if it may block, and less only if it may not and saw the ring full |
| `DataCalls.SendGoesOn` | src/lib/socket_api.cpp:195-224 | from the top of its loop a send puts out, by its own steps, what there is room for and counts it; with no room it returns what it has sent, or tries again if it may block |
| `DataCalls.SendGoesThrough` | src/lib/socket_api.cpp:187-227 | a send of no more than there is room for puts out its whole buffer and returns its length, by its own steps |
| `DataCalls.RecvEndsExactly` | src/lib/socket_api.cpp:242-294 | over every run, a recv returns exactly when it has taken bytes, when it finds the tail at what it has received on a ring it has seen closed, or when it found nothing and is not to block; with the next bytes of the stream and no more than asked for, with 0, or with EAGAIN; and until then it takes nothing |
| `DataCalls.RecvAnswers` | src/lib/socket_api.cpp:242-294 | a recv that need not wait for its peer returns by its own steps: the next bytes if there are any, otherwise 0 on a closed ring or when the peer has crashed, otherwise EAGAIN if it is not to block |
| `DataCalls.RecvGetsData` | src/lib/socket_api.cpp:253-258 | from the top of its loop, with bytes in the ring, it returns as many of them as asked for, or all |
| `DataCalls.EofArrives` | src/lib/socket_api.cpp:253-261 | from the top of its loop, on a closed ring with everything received, it returns 0 |
| `DataCalls.WouldBlockArrives` | src/lib/socket_api.cpp:259-266 | from the top of its loop, on an open ring with everything received, it returns EAGAIN if it is not to block |
| `DataCalls.CrashGivesEof` | src/lib/socket_api.cpp:253-276 | after the peer has crashed, a blocking recv that has received everything finds its socket hung up, closes the ring and returns 0 |
| `DataCalls.RecvComesBack` | src/lib/socket_api.cpp:242-294 | wherever it stands, a recv returns or is back at the top of its loop by its own steps, the timeout being one of them |
| `DataCalls.SleepsAfterSpinning` | src/lib/socket_api.cpp:277-292 | over every run, a recv turns to waiting when it has found nothing 101 times since it was called or last stopped waiting, neither sooner nor later |
| `SocketIo.ShmSend` | src/lib/socket_api.cpp:187-227 | a non-blocking send appends what fits and reports it, or -1 when nothing fits |
| `SocketIo.ShmRecv` | src/lib/socket_api.cpp:242-266 | a non-blocking recv takes what is there; nothing there is 0 on a closed ring and -1 on an open one; peeking is refused |
| `SocketIo.SendMsg` | src/lib/socket_api.cpp:364-391 | sendmsg does and reports what one send of the concatenated buffers would; ancillary data is refused |
| `SocketIo.RecvMsg` | src/lib/socket_api.cpp:394-415 | recvmsg takes and reports what one recv for all the room would, the buffers filled in order |
| `Handshake.Make` | include/socksdirect/shm_handshake.hpp:56-58 | the name of a pair holds the same two endpoints, in order |
| `Handshake.LessIsLexicographic` | include/socksdirect/shm_handshake.hpp:56-58 | the order in which a name holds its endpoints is the lexicographic order of strings: the first difference decides, and a proper prefix comes first |
| `Handshake.SameNameSamePair` | include/socksdirect/shm_handshake.hpp:43-58 | two pairs have the same name if and only if they are the same endpoints in either order |
| `Handshake.SortedTwice` | src/lib/shm_conn.cpp:127-129 | sorting in the client first changes nothing for the monitor |
| `Handshake.Registry.RegisterEndpoint` | include/socksdirect/shm_handshake.hpp:71-92 | the answer and the new table: creator with the fresh key on a first call, joiner with the stored key after that, the first joiner's pid kept |
| `Handshake.Registry.UnregisterEndpoint` | include/socksdirect/shm_handshake.hpp:95-98 | exactly this pair is removed, and whether it was there |
| `Handshake.Registry.ReapPid` | include/socksdirect/shm_handshake.hpp:102-114 | nothing left names this process on either side, pairs that did not name it stay as they were, and the count is of those that did |
| `Handshake.StepKeeps` | include/socksdirect/shm_handshake.hpp:71-114 | every registration, removal and reaping keeps the table in step with the log of answers |
| `Handshake.OneCreatorOneKey` | include/socksdirect/shm_handshake.hpp:71-114 | over every run, answers with the same key are for the same pair, only the first of them makes a creator, who is told of itself alone, the others are told of that creator and of the first who joined, and two answers for a pair share a key if and only if the pair was not removed in between |
| `Handshake.ReapedStartOver` | include/socksdirect/shm_handshake.hpp:71-114 | over every run, once a process named in the current answer for a pair is reaped, the next to register the pair becomes its creator, alone and under the new key |
| `Attach.StepKeeps` | include/socksdirect/shm_segment.hpp:117-268 | every step of creator and joiner keeps the invariant of header, pids and reference count |
| `Attach.JoinerSeesAll` | include/socksdirect/shm_segment.hpp:174-207 | in every run, a joiner past the magic check sees a sized segment with complete header and initialised rings |
| `Attach.WaitsMeanWhatTheySay` | include/socksdirect/shm_segment.hpp:214-240 | in every run, a creator whose wait succeeded had a joiner that mapped the segment, saw its magic and stored its pid; the joiner's wait succeeds at once |
| `Attach.MappedUnlessLeft` | include/socksdirect/shm_segment.hpp:224-239 | when the creator's look succeeds, the joiner is still mapped if and only if it has not left before |
| `Attach.CreatorCanBeAlone` | include/socksdirect/shm_segment.hpp:224-268 | a run in which the joiner leaves before the creator looks, and the creator attaches |
| `Attach.FaultsExactlyUnsized` | include/socksdirect/shm_segment.hpp:174-207 | in every run, a joiner that has mapped the segment faults at its first touch if and only if the creator has not sized it yet, and reads the header otherwise |
| `Attach.JoinerCanFault` | include/socksdirect/shm_segment.hpp:117-207 | the run create, open, map, touch, in which it faults |
| `Attach.VerdictIsExact` | include/socksdirect/shm_segment.hpp:224-239 | the creator attaches when the joiner's pid was stored before its look and gives up when it was not |
| `Attach.JoinerVerdictIsExact` | include/socksdirect/shm_segment.hpp:117-207 | over every run, a joiner fails, for good, if at its last look for the name the creator has not made it yet or has left, or if at its last read of the header the creator has not published it yet; it finds the name in between, and is let in, for good, once the header is published |
| `Attach.JoinerCanBeAlone` | src/lib/shm_conn.cpp:207-218 | a run in which the creator gives up and removes the name while the joiner attaches |
| `Attach.LastOneRemovesTheName` | include/socksdirect/shm_segment.hpp:242-268 | in every run the reference count is the number of sides counted in, and once all are out the name is gone |
| `Attach.RingOutbound` | include/socksdirect/shm_segment.hpp:287-295 | each side's outbound ring is the other's inbound ring and not its own |
| `Attach.WakeOutbound` | include/socksdirect/shm_segment.hpp:299-307 | the same for the wake counters, and each goes with its ring |
| `TombstoneFifo.LiveIsPushedMinusDeleted` | common/locklessqueue_n.hpp:221-249 | reading from the first unreleased place finds everything pushed minus everything deleted, in order |
| `TombstoneFifo.MarkRemoves` | common/locklessqueue_n.hpp:221-225 | deleting an element takes out that one and moves no other |
| `TombstoneFifo.ReleaseHidesNothing` | common/locklessqueue_n.hpp:228-232 | advancing over tombstones changes nothing a reader sees |
| `CreditQueue.StepKeeps` | common/locklessqueue_n.hpp:108-249 | every step of push, pop, set and del by either side keeps pointers, slots and credits in agreement |
| `CreditQueue.RefinesFifo` | common/locklessqueue_n.hpp:108-249 | each step performs the stated action of the tombstone FIFO, or none |
| `CreditQueue.CreditConservation` | common/locklessqueue_n.hpp:108-140 | in every interleaving, sender credits, slots in use, receiver credits and a batch in the flag add up to SIZE |
| `CreditQueue.ReturnsAreNeverLost` | common/locklessqueue_n.hpp:234-236 | the receiver never sets a flag that is set or is about to be cleared, so the sender's read, add and clear erases no return |
| `CreditQueue.PushNeverOverwrites` | common/locklessqueue_n.hpp:127-128 | in every interleaving a push lands on a slot that is not valid |
| `CreditQueue.PushFitsSlots` | common/locklessqueue_n.hpp:111-128 | the slot of a push into a queue with room is not valid, and taking it disturbs no other |
| `CreditQueue.CirculationFits` | common/interprocess_t.cpp:40-137 | with credits disabled, in every interleaving in which fewer than SIZE things circulate between pushes and pops at the head, no push lands on a valid slot and the slots show what is in the queue |
| `CreditQueue.EachKeyInOrder` | common/locklessqueue_n.hpp:197-249 | in every interleaving whose dels take the first element of their key and whose sets keep the key, the elements taken of any key followed by those left of it are those pushed of it, as last set, in order |
| `CreditQueue.FirstCanBeTaken` | common/locklessqueue_n.hpp:197-249 | as long as an element of a key is live, there is a first one, and an idle receiver can take it |
| `CreditQueue.SenderNeverStarves` | common/locklessqueue_n.hpp:111-118 | a sender without credits and without a return to collect faces an undeleted element |
| `CreditQueue.RefusedExactly` | common/locklessqueue_n.hpp:111-118 | a push is refused if and only if credits are in use, are used up, and the flag is down; and then nothing changes |
| `CreditQueue.PushGoesThrough` | common/locklessqueue_n.hpp:108-140 | any other push appends its element by the sender's own steps, with nothing of the receiver's changed |
| `CreditQueue.ScanFindsTheLive` | common/locklessqueue_n.hpp:251-274 | between dels the slots show, in pointer order, exactly the elements pushed and not deleted |
| `LocklessQueue.Queue.constructor` | common/locklessqueue_n.hpp:73-106 | an empty queue with all credits at the sender |
| `LocklessQueue.Queue.PushNb` | common/locklessqueue_n.hpp:108-140 | refused if and only if credits are in use and exhausted with no return waiting; otherwise the element is appended |
| `LocklessQueue.Queue.Del` | common/locklessqueue_n.hpp:221-249 | that element becomes a tombstone, and tombstones at the head are given back as far as they go |
| `LocklessQueue.Queue.PopNb` | common/locklessqueue_n.hpp:169-195 | the oldest live element is taken, or there is none |
| `LocklessQueue.Queue.Peek` | common/locklessqueue_n.hpp:197-206 | a slot is valid if and only if its place has been pushed, and then shows the data and the delete flag of that element |
| `LocklessQueue.Queue.Set` | common/locklessqueue_n.hpp:208-219 | the data of that element is replaced and nothing else |
| `LocklessQueue.Queue.IsEmpty` | common/locklessqueue_n.hpp:251-274 | true if and only if nothing live is left |
| `TwoBlockQueue.StepKeeps` | common/locklessq_v3.hpp:97-240 | every step of push and iterator del keeps blocks, flags and slots in agreement |
| `TwoBlockQueue.RefinesBoundedFifo` | common/locklessq_v3.hpp:132-161 | each step performs the stated action of the tombstone FIFO or none, which never holds more than 2*SIZE elements |
| `TwoBlockQueue.PushNeverOverwrites` | common/locklessq_v3.hpp:227-236 | in every interleaving a push lands on a slot that is not valid |
| `TwoBlockQueue.RefusedOnlyWhileBlockIsOut` | common/locklessq_v3.hpp:210-224 | over every run, the call of a push is refused if and only if its block is full and the other has not been handed back; then nothing is pushed, at least SIZE elements wait, and the other block holds an undeleted element or is on its way |
| `TwoBlockQueue.PushGoesThrough` | common/locklessq_v3.hpp:210-240 | any other push appends its element by the sender's own steps, with nothing of the receiver's changed |
| `TwoBlockQueue.ReturnsAreNeverLost` | common/locklessq_v3.hpp:144-157 | a block's return flag is raised only when it is down and not about to be cleared |
| `TwoBlockQueue.SuccIsNextPlace` | common/locklessq_v3.hpp:115-126 | incrementing an iterator moves it to the next place, across blocks |
| `TwoBlockQueue.ScanFindsTheLive` | common/locklessq_v3.hpp:107-178 | between dels an iterator from begin finds exactly the elements pushed and not deleted, in order |
| `BlockQueue.Queue.CheckNextAvail` | common/locklessq_v3.hpp:97-105 | a raised flag is taken down and makes the block available; otherwise the sender's own note decides |
| `BlockQueue.Queue.PushNb` | common/locklessq_v3.hpp:210-240 | appended, or refused exactly when the step system refuses, and then at least SIZE elements wait |
| `BlockQueue.Queue.Del` | common/locklessq_v3.hpp:132-161 | that element becomes a tombstone, the head advances over tombstones and hands blocks back, and an iterator at the head moves with it |
| `PayloadChains.FillExtends` | common/interprocess_t.cpp:66-90 | a block filled and linked behind the last one adds its chunk to the bytes of the chain |
| `PayloadChains.TakeKeepsOwned` | common/interprocess_t.cpp:46-49 | free blocks that become a message keep every block either free or on exactly one message |
| `PayloadChains.GiveKeepsOwned` | common/interprocess_t.cpp:126-131 | so does giving back the first block of a message |
| `PayloadBuffer.Buffer.constructor` | common/interprocess_t.cpp:221-229 | cleared memory with blocks 0 to 1023 free, in order |
| `PayloadBuffer.Buffer.PushData` | common/interprocess_t.cpp:40-100 | with enough free blocks the bytes are stored as a terminated chain of the first of them and no other message changes; otherwise all are used, a prefix is stored and the last next field is what it was |
| `PayloadBuffer.Buffer.PopData` | common/interprocess_t.cpp:102-137 | the next bytes of the message, the emptied blocks given back in order, the rest of the message and all others unchanged, -1 if and only if it is used up |
| `PayloadBuffer.Drain` | common/interprocess_t.cpp:102-137 | any sequence of sizes reads the message in order, and reading it all returns each of its blocks once |
| `PayloadBuffer.RoundTrip` | common/interprocess_t.cpp:40-137 | what was pushed is what any sequence of pops reads, and the blocks used end up at the end of the free queue, which therefore never overflows |
| `PayloadBuffer.ShortageOnClearedMemory` | common/interprocess_t.cpp:50-61 | more bytes than the buffer holds, pushed on cleared memory, make a cycle of all blocks |
| `LongMessage.LengthSurvives` | common/metaqueue.h:160-165 | the receiver reads the sender's length if and only if it is below 2^31 or within 2^31 of 2^64 |
| `LongMessage.LengthsThatDoNot` | common/metaqueue.h:160-165 | 2^31 is read as 2^64 - 2^31, and 2^32 + 5 as 5 |
| `LongMessage.FragmentsPrefix` | common/metaqueue.h:167-200 | reassembling for any shorter length gives exactly that much of the data |
| `LongMessage.CutShort` | common/metaqueue.h:160-201 | a message whose length is read as less is cut to that length |
| `LongMessage.FragmentsReassemble` | common/metaqueue.h:167-200 | the fragments give back the data whatever the element held before and whatever follows in the queue |
| `LongMessage.PushLongMsg` | common/metaqueue.h:160-178 | the head and the fragments are appended to the queue, sharing one buffer of 13 bytes |
| `LongMessage.PopLongMsg` | common/metaqueue.h:182-201 | fails if and only if one of the elements it takes is not a fragment; otherwise the bytes, and the queue behind them |
| `LongMessage.RoundTrip` | common/metaqueue.h:160-201 | a message shorter than 2^31 arrives whole and what follows stays in the queue |
| `SlotPool.Pool.Add` | common/darray.hpp:33-53 | an unoccupied slot is filled and no other changes, growing when needed; the search for the next cursor ends; slots are handed out in order as long as none was deleted |
| `SlotPool.Pool.Del` | common/darray.hpp:54-63 | exactly that slot becomes free, and the pool stays in order if and only if it was taken |
| `SlotPool.Pool.GetTotalSize` | common/darray.hpp:76-79 | the number of occupied slots |
| `SlotPool.Pool.GetHighestPossible` | common/darray.hpp:80-83 | the highest occupied slot, or 0 when none is |
| `SlotPool.Pool.IsValid` | common/darray.hpp:84-88 | true if and only if the slot is occupied |
| `SlotPool.Pool.FirstFrom` | common/darray.hpp:90-109 | the lowest occupied slot from there on, or -1 when there is none |
| `Rings.ReplaceRing` | common/adjlist_t.hpp:43-61 | a change that leaves the other lists' links alone and makes one list a cycle of its slots keeps all lists disjoint cycles that cover the occupied slots |
| `AdjList.List.AddKey` | common/adjlist_t.hpp:80-88 | a new key with an empty list |
| `AdjList.List.Init` | common/adjlist_t.hpp:193-202 | the keys 0 to size - 1, each with the given data and an empty list |
| `AdjList.List.Begin` | common/adjlist_t.hpp:250-264 | an iterator on the first element with its predecessor in hand, or an ended one |
| `AdjList.List.AddElement` | common/adjlist_t.hpp:102-144 | the element heads its list and nothing else changes; the returned iterator is usable if and only if the list was empty |
| `AdjList.List.AddElementAt` | common/adjlist_t.hpp:146-191 | the element stands behind the iterator's, or starts an empty list; the iterator stays good |
| `AdjList.List.DelElement` | common/adjlist_t.hpp:219-248 | that element leaves its list and the pool; the iterator is on the next one, or ended |
| `AdjList.List.SetPtrTo` | common/adjlist_t.hpp:211-216 | the list is read from the iterator's element on |
| `AdjList.List.Next` | common/adjlist_t.hpp:265-280 | the list is read from behind the element, and the iterator is there, or ended where it started |
| `AdjList.Walk` | common/adjlist_t.hpp:250-303 | a walk from begin to end visits each element of its key exactly once, in order, and leaves the list as it was |
| `Dispatch.AcceptingAre` | monitor/sock_monitor.cpp:172-191 | the accepting listeners, over which the round robin is stated, are exactly those whose accepting flag is set |
| `Dispatch.ConnectRotatesAccepting` | monitor/sock_monitor.cpp:172-203 | a connect goes to the first listener whose accepting flag is set, and sends it behind the other accepting ones |
| `Dispatch.RefusedConnectChangesNothing` | monitor/sock_monitor.cpp:184-191 | a connect finds nobody if and only if no listener has its accepting flag set, and then the rotation stays |
| `Dispatch.RoundRobin` | monitor/sock_monitor.cpp:161-203 | with k listeners accepting, the i-th of any number of connects in a row goes to accepting listener i modulo k |
| `Dispatch.OneRound` | monitor/sock_monitor.cpp:161-203 | k connects in a row reach the k accepting listeners once each, in order |
| `Listeners.Table.constructor` | monitor/sock_monitor.cpp:99-107 | a list for each of the 65536 ports, none of them listening |
| `Listeners.Table.Listen` | monitor/sock_monitor.cpp:133-157 | refused if and only if the port is taken without address reuse; otherwise the listener heads the list; the reuse flag is set by the first |
| `Listeners.Table.Accept` | monitor/sock_monitor.cpp:111-129 | the first listener with that process id is marked accepting and the list is read from it on; without one nothing changes, and no other port does |
| `Listeners.Table.Connect` | monitor/sock_monitor.cpp:161-203 | the listener chosen is the first whose accepting flag is set, and the list is read from behind it on; nobody is found if and only if none accepts, and then nothing changes; no other port does |
| `Listeners.ConnectTimes` | monitor/sock_monitor.cpp:161-203 | of n connects in a row to a port with k accepting listeners, the i-th is answered by accepting listener i modulo k, and all are refused if there are none |
| `Listeners.Table.Close` | monitor/sock_monitor.cpp:252-277 | the first listener with that process id is taken out, or nothing changes; no other port does |
| `Dispatch.FilterAre` | monitor/sock_monitor.cpp:283-304 | what is kept of a list is exactly its members that pass |
| `Listeners.Table.GcPort` | monitor/sock_monitor.cpp:283-304 | exactly the listeners whose process exists remain, in order; the loop ends although deleting the last of a round starts another |
| `Listeners.Table.Gc` | monitor/sock_monitor.cpp:281-307 | the same for every port |
| `FdTable.RescanFinds` | include/socksdirect/fd_remap.hpp:263-276 | the rescan finds the lowest virtual fd bound to the resource, or none |
| `FdTable.AllocKeeps` | include/socksdirect/fd_remap.hpp:82-98 | with nothing mapped on the free list or above the watermark, alloc returns a virtual fd that was unmapped and binds it alone; counts, reverse index and watermark stay right, each whatever the state of the other two |
| `FdTable.DupKeeps` | include/socksdirect/fd_remap.hpp:156-173 | dup binds an unmapped virtual fd to the same resource and counts it, or fails and changes nothing; counts, reverse index and watermark stay right as with alloc |
| `FdTable.FreeKeeps` | include/socksdirect/fd_remap.hpp:223-233 | free unmaps that virtual fd alone, returns how many are left on the resource, and keeps counts, reverse index and watermark right |
| `FdTable.BindKeepsCounts` | include/socksdirect/fd_remap.hpp:103-122 | set and dup_to keep every refcount equal to the number of virtual fds bound, whatever the state of free list, watermark and reverse index |
| `FdTable.ApplyCountable` | include/socksdirect/fd_remap.hpp:82-233 | an operation leaves a table that goes on counting right if and only if it binds no virtual fd that is on the free list |
| `FdTable.EveryRunCounts` | include/socksdirect/fd_remap.hpp:82-233 | over every run of all five operations that binds no virtual fd on the free list, every refcount is the number of virtual fds bound |
| `FdTable.SetOnFreeListLosesCount` | include/socksdirect/fd_remap.hpp:82-122 | alloc, free, set and alloc of the same virtual fd leave a resource with a reference that nobody holds |
| `FdTable.SetAboveWatermarkMiscounts` | include/socksdirect/fd_remap.hpp:103-122 | one set above the watermark makes live_count 2 with one virtual fd mapped |
| `FdTable.BindKeepsReverse` | include/socksdirect/fd_remap.hpp:253-278 | given right counts, and whatever the state of free list and watermark, the reverse index survives set and dup_to if and only if the rescan does not find the slot being dropped |
| `FdTable.BindKeepsSlots` | include/socksdirect/fd_remap.hpp:111-121 | whatever the state of counts and reverse index, free list and watermark survive, and live_count is right, if and only if the target was mapped or is the next new one |
| `FdTable.BindExactly` | include/socksdirect/fd_remap.hpp:103-122 | set keeps everything in agreement if and only if both conditions hold |
| `FdTable.SetBindsOne` | include/socksdirect/fd_remap.hpp:103-122 | set binds the virtual fd it is given and no other, or refuses a negative fd and leaves the table as it is |
| `FdTable.ClearingFirstKeepsReverse` | include/socksdirect/fd_remap.hpp:223-233 | with the slot cleared first, as free does, the reverse index always survives |
| `FdTable.DupToReports` | include/socksdirect/fd_remap.hpp:183-218 | dup_to binds dst alone to what src is bound to and returns the previous binding and the number of virtual fds it leaves there; from an unbound src or to a negative dst it fails, and onto itself it returns how many share the binding, and both leave the table as it is |
| `FdTable.DupToLosesReverse` | include/socksdirect/fd_remap.hpp:183-218 | a table reached by alloc, dup, alloc on which dup_to leaves the reverse index stale |
| `FdTable.ApplyExactly` | include/socksdirect/fd_remap.hpp:82-233 | any one operation keeps the table in agreement if and only if it is safe |
| `FdTable.ApplyIndexed` | include/socksdirect/fd_remap.hpp:82-233 | any one operation keeps the reverse index right, and what it depends on, if and only if its target is off the free list and is not found by its own rescan |
| `FdTable.EveryRunIndexes` | include/socksdirect/fd_remap.hpp:82-278 | over every run of all five operations with such targets, the reverse index names a holder exactly when there is one, whatever has become of watermark and live_count |
| `FdTable.ApplyInPlace` | include/socksdirect/fd_remap.hpp:82-238 | any one operation keeps free list, watermark and live_count right if and only if its target is mapped or the next new one |
| `FdTable.EveryRunLive` | include/socksdirect/fd_remap.hpp:82-238 | over every run of all five operations with such targets, live_count is the number of mapped virtual fds, whatever has become of counts and reverse index |
| `FdTable.RunKeeps` | include/socksdirect/fd_remap.hpp:82-233 | over every run of safe operations, of all five kinds, all structures stay in agreement |
| `FdTable.EveryRunAgrees` | include/socksdirect/fd_remap.hpp:82-238 | over every run of alloc, dup and free all structures agree and live_count is the number of mapped virtual fds |
| `FdOrder.NamesFirstExactly` | include/socksdirect/fd_remap.hpp:15-17 | any one operation keeps reverse_lookup answering the first virtual fd registered if and only if its rescan, if it makes one, finds the first of those that stay |
| `FdOrder.EveryRunNamesFirst` | include/socksdirect/fd_remap.hpp:82-278 | over every run of all five operations whose rescans do, with targets off the free list, reverse_lookup answers the first one registered |
| `FdOrder.RescanForgetsOrder` | include/socksdirect/fd_remap.hpp:253-278 | after alloc, alloc, dup, free, dup and free it answers 0, although 2 was registered before |
| `FdRemapTable.RemapTable.constructor` | include/socksdirect/fd_remap.hpp:72-76 | the initial table |
| `FdRemapTable.RemapTable.Alloc` | include/socksdirect/fd_remap.hpp:82-98 | computes the specification's table and virtual fd |
| `FdRemapTable.RemapTable.ReverseLookup` | include/socksdirect/fd_remap.hpp:132-138 | computes the specification's answer, which with a right index is a holder, or -1 if and only if there is none |
| `FdRemapTable.RemapTable.Set` | include/socksdirect/fd_remap.hpp:103-122 | computes the specification's table |
| `FdRemapTable.RemapTable.Dup` | include/socksdirect/fd_remap.hpp:156-173 | computes the specification's table and virtual fd |
| `FdRemapTable.RemapTable.DupTo` | include/socksdirect/fd_remap.hpp:183-218 | computes the specification's table, previous binding and count |
| `FdRemapTable.RemapTable.Free` | include/socksdirect/fd_remap.hpp:223-233 | computes the specification's table and count |
| `FdRemapTable.RemapTable.DecRef` | include/socksdirect/fd_remap.hpp:253-278 | computes the specification's decref, its loop finding the first holder |
| `FdRemapTable.RemapTable.LiveCount` | include/socksdirect/fd_remap.hpp:235-238 | computes the specification's live count |
| `Json.JsonEscape` | include/socksdirect/monitor_ipc.hpp:70-91 | appends the quoted, escaped string |
| `Json.EscapingSpells` | include/socksdirect/monitor_ipc.hpp:70-91 | the escape of any byte string is a string of section 7 of RFC 8259 whose value is that string |
| `Json.EscapingKeepsUtf8` | include/socksdirect/monitor_ipc.hpp:70-91 | the escape of a byte string is valid UTF-8 (section 4 of RFC 3629) if and only if the string is |
| `Json.StringsAreRead` | include/socksdirect/monitor_ipc.hpp:101-155 | every string literal spelled from plain characters, short escapes and \u escapes is read, as its value, whatever follows |
| `Json.Utf8Decodes` | include/socksdirect/monitor_ipc.hpp:137-145 | the bytes made from a \u escape decode to its code point, by the table in section 3 of RFC 3629 and in its shortest form, surrogates included |
| `Json.Utf8Exactly` | include/socksdirect/monitor_ipc.hpp:137-145 | those bytes are valid UTF-8 (section 4 of RFC 3629) if and only if the code point is not half of a surrogate pair |
| `Json.Utf8Means` | include/socksdirect/monitor_ipc.hpp:137-145 | what counts as UTF-8 is exactly the encodings, as section 3 of RFC 3629 defines them, of code points that are not surrogates, one after the other |
| `Json.ReadsOnlyStrings` | include/socksdirect/monitor_ipc.hpp:101-155 | conversely, whatever is read was spelled so |
| `Json.QuotedIsRead` | include/socksdirect/monitor_ipc.hpp:70-155 | an escaped string is read back whole, whatever follows it |
| `Json.ArraysAreRead` | include/socksdirect/monitor_ipc.hpp:157-175 | every array of string literals with blanks anywhere between is read, as their values |
| `Json.ReadsOnlyArrays` | include/socksdirect/monitor_ipc.hpp:157-175 | conversely, whatever is read as an array was spelled so |
| `JsonReader.SkipAt` | include/socksdirect/monitor_ipc.hpp:94-97 | the position behind the blanks |
| `JsonReader.UnescapeAt` | include/socksdirect/monitor_ipc.hpp:108-149 | the loop over four digits and the UTF-8 bytes are those of the parser |
| `JsonReader.ParseStringAt` | include/socksdirect/monitor_ipc.hpp:101-155 | reads at a position what the parser reads from the text there |
| `JsonReader.ParseArrayAt` | include/socksdirect/monitor_ipc.hpp:157-175 | reads at a position what the parser reads from the text there |
| `ControlCodec.ObjectsAreRead` | include/socksdirect/monitor_ipc.hpp:230-255 | every object of the grammar is read, as what it says: fields in any order, later ones overriding, unknown keys skipped |
| `ControlCodec.ReadsOnlyObjects` | include/socksdirect/monitor_ipc.hpp:230-255 | conversely, whatever is accepted is an object of the grammar |
| `ControlCodec.RequestsExactly` | include/socksdirect/monitor_ipc.hpp:219-257 | a line decodes to a request if and only if it spells an object with op and args that says so |
| `ControlCodec.ResponsesExactly` | include/socksdirect/monitor_ipc.hpp:259-302 | a line decodes to a response if and only if it spells an object with ok that says so |
| `LooseLines.CleanLinesAreObjects` | include/socksdirect/monitor_ipc.hpp:219-302 | an accepted line is a JSON object (sections 2 to 7 of RFC 8259, in the encoding of its section 8.1) if and only if the loop ends at a closing brace that no comma precedes and only blanks follow, no string holds a raw control character, and the line is UTF-8 |
| `LooseLines.EncodedLinesAreObjects` | include/socksdirect/monitor_ipc.hpp:179-213 | an encoded request or response is a JSON object if and only if the strings in it are UTF-8 |
| `JsonText.QuietText` | include/socksdirect/monitor_ipc.hpp:101-155 | a scan of the text finds a control character inside a string if and only if some string of the object is not one of section 7 of RFC 8259 |
| `LooseLines.CommaBeforeBrace` | include/socksdirect/monitor_ipc.hpp:230-255 | every request with a comma before its closing brace is accepted, and is no JSON object |
| `LooseLines.CutBehindComma` | include/socksdirect/monitor_ipc.hpp:230-255 | every request cut off behind a comma is accepted, and is no JSON object |
| `LooseLines.AnythingBehindBrace` | include/socksdirect/monitor_ipc.hpp:230-257 | every request with anything behind its closing brace is accepted, and is a JSON object only if that is blank |
| `LooseLines.ControlInString` | include/socksdirect/monitor_ipc.hpp:101-155 | a request whose op holds a raw control character is accepted, ends cleanly, and is no JSON object |
| `LooseLines.BadByteInString` | include/socksdirect/monitor_ipc.hpp:101-155 | so is one whose op holds a byte that begins no UTF-8 character |
| `ControlCodec.RequestRoundTrip` | include/socksdirect/monitor_ipc.hpp:179-257 | every encoded request decodes to itself, with or without the line end |
| `ControlCodec.ResponseRoundTrip` | include/socksdirect/monitor_ipc.hpp:195-302 | every encoded response decodes to itself without the field that is not sent |
| `ControlCodec.OneLine` | include/socksdirect/monitor_ipc.hpp:179-213 | no control character appears in an encoded message before its line end |
| `ControlMessages.EncodeRequest` | include/socksdirect/monitor_ipc.hpp:179-193 | computes the line of the request and a line end |
| `ControlMessages.EncodeResponse` | include/socksdirect/monitor_ipc.hpp:195-213 | computes the line of the response and a line end |
| `ControlMessages.DecodeRequest` | include/socksdirect/monitor_ipc.hpp:219-257 | the decoding loop computes the specified decoding |
| `ControlMessages.DecodeResponse` | include/socksdirect/monitor_ipc.hpp:259-302 | the decoding loop computes the specified decoding |
| `ControlServer.Connection.Feed` | src/monitor/main.cpp:407-430 | the bytes of one read: over the limit the connection ends, otherwise the complete lines are answered in order and the rest is kept |
| `ControlServer.ReadsDoNotMatter` | src/monitor/main.cpp:396-430 | however the bytes are cut into reads, a surviving connection has answered exactly the lines of the whole stream and keeps exactly its tail |
| `ControlServer.NeverCutOff` | src/monitor/main.cpp:408-412 | with no line longer than 2^20 - 4096 the limit is never reached |
| `ControlServer.RequestsArePerformed` | src/monitor/main.cpp:396-430 | encoded requests arriving in reads of any size are performed in order, each answered by one line, and nothing is left over |

## Left out

- RDMA: the queue, buffer and connection variants that write to a remote side.
- `common/locklessq_v2.hpp` and its RDMA variant.
- The legacy socket library (`lib/`): fork migration, receive takeover, the receive scan and its delete-then-next.
- Hardware memory ordering beyond old index and counter values, and the system calls themselves.
- `popdata_nomemrelease`, `next_no_move_ptr`, `del_key` and `is_full`: variants that add no new property.
- `connect_handler` after the listener is chosen: allocation of the shared buffer and the message to the listener.
- The daemon's operations other than the registry, its counters, a write to the client that fails, and the parsing of pids and keys as decimal text.
- Drawing of random keys, and failures of shm_open, ftruncate and mmap.
- SocketIo.SendMsg: blocking mode, and another sender between two buffers (the send lock is taken per buffer), are not modelled.
- LongMessage.PopLongMsg: waiting for elements is not modelled; it takes the elements that will have arrived.
- PayloadBuffer.Buffer.PopData: sender and reader act one call at a time, and a negative size, which would be handed to mempcpy, is excluded; for interleaved steps the free queue between them is proved in CreditQueue.CirculationFits, the blocks themselves are not.
- Listeners.Table.Gc: whether a process exists is one answer for the whole collection.
