# Verified model of a real-time chat server

A Dafny 4.11 model of a repository that holds a chat server in several
implementations, the lock-free transport between its threads, its containers,
and the load generator that measures it. Each `.dfy` file is one module;
`dafny verify dfyconfig.toml` checks all of them.

| files | what they model |
|---|---|
| `SpscRing`, `Mesh`, `MeshProgress`, `CloseNotify`, `CloseMesh` | the two-thread byte ring, the framed pipe on top of it and its progress, the worker-to-acceptor protocol that must never drop, and that protocol over that pipe, as step relations over every interleaving |
| `RingBuffer`, `FrameParser` | the ring as one thread uses it, and frame parsing over a string and over that ring, for an arbitrary handler |
| `ChatConn`, `ChatSends`, `TickContainer`, `ChatCore`, `ChatMeaning`, `ChatLoop`, `ChatEvents`, `ChatTicks`, `ChatServer`, `DoomedPass` | `server.cpp`: one connection and how many bytes it sends, the protocol on a value state, what it means to the people connected, the event loop as functions on values, what an event and a tick mean, and the loop itself with its doomed and dirty lists, and one pass from the empty server that ends with a doomed connection |
| `SdsConn`, `RoomNames`, `RoomStore`, `RoomIndex`, `SdsLoop`, `SdsServer` | `server_sds.cpp`: the linear send queue, room names and the buffers that hold them, the intrusive room lists with free list and C-string index, that index over the real hash map, what the loop does on `server.cpp`'s states, and the server composed of these, rings, lists and loop included. Every run of it is a run of `SdsLoop`, and one whose room names are seen whole is a run of `server.cpp` |
| `CstrHashMap`, `PacketPool`, `SessionTable`, `ThreadLifecycle` | the chained hash map, the block pool, the session authority and the start/stop protocol of a server thread |
| `ClientNet`, `ClientParser`, `Histogram`, `TickScheduler` | the load generator's send, receive and parse paths, histogram recording, dump and fleet merge, and the tick of the budget experiment |
| `Wire`, `Counting`, `Modulo`, `Words` | the frame format, and facts about counting, remainders and bits |

How the parts of the system that are outside the model enter it:

- The kernel is a script of outcomes: `send` takes any number of bytes, is
  interrupted, would block or fails; `recv` returns any bytes, end of stream,
  an interruption or an error. Every theorem holds for every script. Past the
  end of a script a socket would block.
- A load of another thread's cursor returns any value that thread published
  since the last one observed. The bytes of one copy land in any order.
- The iteration order of an unordered set is arbitrary.
- The heap of the hash map and the memory of the packet pool are explicit maps
  from addresses; `new` returns any unused address.

## What the proofs found

- **A full receive slot is taken for a dead peer.** `read_available` in the
  load generator loops after a `recv` that exactly filled the slot, and then
  gives up because there is no room, although the slot may hold only whole
  frames. Its comment gives up only on "a frame that never completes".
  `ClientNet.FullSlotIsGivenUp` is the instance, and
  `ClientNet.ReadAvailable` states exactly when a connection survives.
- **A malformed length does not stop the client.** `consume_frames` discards
  what is buffered and goes on with what arrives later, so a cut stream and
  the whole stream can be counted differently (`ClientParser.CutIsCounted`).
  `ClientParser.SplitAgreesIff` gives the exact condition on the bytes; with
  lengths that count the payload only it always holds.
- **Rooms merge at a NUL.** The sds index compares C strings, so two people
  meet there exactly when their room names agree up to the first NUL, and in
  `server.cpp` exactly when the names are equal (`RoomStores.TwoJoins`;
  `RoomStores.NulMergesRooms` is an instance). A join is handled as in
  `server.cpp` exactly when the index sees its whole name
  (`SdsLoop.SameIffClean`, `RoomStores.KeyIsWhole`), and a run of such joins
  is `server.cpp`'s run (`SdsLoop.RunClean`).
- **A room shows what an earlier room left in its record.** The answer to a
  join is copied out of the room record at the length that was asked for, and
  records are reused without being cleared. It is the name that was asked for
  exactly when the room is new or the record's buffer begins with that name
  (`RoomNames.AnswerIsAskedIff`). After SECRETROOM was left and S was made, a
  join of S, NUL and eight bytes is answered with CRETROOM behind the NUL
  (`RoomStores.OldNameShows`); `RoomStores.NameLingers` says it for all names.
- **A long chat line is lost without a word.** The parser accepts a payload
  that with nick and separator no longer fits a frame, and the broadcast then
  skips everybody. `ChatMeaning.LineIsToldIff` is the exact condition,
  `ChatMeaning.LongLineIsLost` an instance; coalesce mode records that line.
- **Batch mode can end a pass with a doomed connection.** The goodbye notices
  of the reap are sent by the second flush, which may fail:
  `DoomedPass.SecondFlushMayDoom` is a whole pass from the empty server.
  `ChatServer.Server.BatchTail` states exactly when the doomed list is empty
  at the end: when no dirty connection faces a failing send as the second
  flush begins.
- **A percentile of a small sample is 0.** `pct` truncates its rank, and rank 0
  is met by the first bucket whatever it holds: the median of one sample of
  5 microseconds is 0 (`Histograms.MedianOfOne`). `Histograms.Percentile`
  states that the answer is the bucket of the ranked sample exactly when the
  fraction of the total reaches 1.
- **`release()` takes any address in its region.** The pool is sound again
  exactly when the block was held: after any other accepted address, no
  reading of the list as free and held blocks is left
  (`PacketPools.PacketPool.Release`). A block released twice while another is
  out passes every check (`PacketPools.ReleaseTwice`).
- **A colon in a nick hides the stamp.** The client looks for the first colon
  of a line, so every stamp arrives exactly when the nick holds none
  (`ClientParser.StampArrives`). The load generator's own nicks hold none.
- **`join()` on a thread that was never started traps**, and only then
  (`ThreadLifecycle.JoinTrapsIffUnstarted`, `ThreadLifecycle.JoinUnstartedTraps`).

## Model

| member | source | states |
|---|---|---|
| `SpscRing.SlotIsMod` | engine-uring/src/sds/ring_buffer.h:96-101 | the split copy of `write_at` puts byte i of a copy at position cursor + i modulo the capacity, on both sides of the wrap |
| `SpscRing.SlotIsMasked` | engine-uring/src/sds/ring_buffer.h:96-101 | the positions of that copy are the ones the source computes with its mask, for every power-of-two capacity |
| `SpscRing.GatherSlotIsMod` | engine-uring/src/sds/ring_buffer.h:140-148 | the two regions of `enqueue2`, each split on its own, together form one run of positions |
| `SpscRing.StoreMissesUnread` | engine-uring/src/sds/ring_buffer.h:140-148 | in every state the invariant allows, no byte store in flight, in either region, lands on a published unread position |
| `SpscRing.ProducerKeepsInv` | engine-uring/src/sds/ring_buffer.h:124-148 | every producer step (read own cursor, acquire a stale peer cursor, refuse, store one byte, publish) keeps the invariant: cursors ordered within the capacity, unread bytes intact |
| `SpscRing.ConsumerKeepsInv` | engine-uring/src/sds/ring_buffer.h:168-195 | every consumer step (probe, acquire, load one byte, finish a peek or dequeue) keeps it |
| `SpscRing.FinishKeepsInv` | engine-uring/src/sds/ring_buffer.h:174-195 | a finished copy holds exactly the published bytes at the read cursor, whatever was written meanwhile |
| `SpscRing.RunInv` | engine-uring/src/sds/ring_buffer.h:62-71 | the invariant holds in every state of every interleaving |
| `SpscRing.RingIsFifo` | engine-uring/src/sds/ring_buffer.h:62-71 | over every run, occupancy stays within 0..N, and what was dequeued by any moment is a growing prefix of what was published |
| `Mesh.PostKeepsInv` | server-uring/src/mesh.h:56-62 | every step of `mesh_post`, refusals included, keeps: the published bytes are the encodings of the accepted frames and every published cursor is a frame boundary |
| `Mesh.RecvKeepsInv` | server-uring/src/mesh.h:76-103 | every step of `mesh_try_recv` keeps: the consumer stands at a frame boundary or inside the frame whose header it peeked |
| `Mesh.PeekDoneKeepsInv` | server-uring/src/mesh.h:83-86 | a peek started on four visible bytes returns the header of the next frame, so the check on its length cannot trap |
| `Mesh.CheckPasses` | server-uring/src/mesh.h:88-94 | once a header is visible the whole frame is: the second size test never sends the reader away |
| `Mesh.FramesArriveInOrder` | server-uring/src/mesh.h:76-103 | over every interleaving the received frames are, with type, length and body, a prefix of the accepted ones; only a body over the receiver's buffer can trap; that a visible frame is received is `MeshProgress.ObservedFrameArrives` |
| `Mesh.IncompleteFrameConsumesNothing` | server-uring/src/mesh.h:73-90 | over every run, a receive that returns without a frame returns at its first test, leaves the read cursor and the bytes taken as they were, and observed a producer cursor equal to its own: it saw no byte of a further frame |
| `Mesh.BeginSeesFrame` | server-uring/src/mesh.h:80-81 | the first size test sends the receiver away exactly when it observes no byte past the read cursor |
| `MeshProgress.RecvProgress` | server-uring/src/mesh.h:76-103 | once a byte of a frame was observed, every step of the receiver hands over the next posted frame, whole, or brings it strictly closer |
| `MeshProgress.RecvEnabled` | server-uring/src/mesh.h:76-103 | and there is always such a step |
| `MeshProgress.ObservedFrameArrives` | server-uring/src/mesh.h:76-103 | over every interleaving, once the receiver has taken more steps of its own than its distance, the frame it had observed is received with its length, type and body |
| `MeshProgress.ReceiverFinishes` | server-uring/src/mesh.h:76-103 | some steps of the receiver alone, at most as many as its distance, end in that delivery |
| `MeshProgress.FreshLoadEngages` | server-uring/src/mesh.h:80-81 | in every reachable state, a receiver that loads the newest cursor while a frame is waiting begins to receive it |
| `MeshProgress.AnyLoad` | server-uring/src/mesh.h:53-81 | either side may observe any cursor the other has published since it last looked |
| `MeshProgress.BodiesFit` | server-uring/src/mesh.h:92-94 | no body over the receiver's buffer is ever handed out |
| `MeshProgress.PostBegins` | server-uring/src/mesh.h:53-61 | an idle producer can begin a post of any frame |
| `MeshProgress.PostProgress` | server-uring/src/mesh.h:56-62 | a post looks at the consumer once, is refused exactly when its frame does not fit behind what it saw, and otherwise comes closer with every step to being accepted |
| `MeshProgress.PostEnabled` | server-uring/src/mesh.h:56-62 | and is never stuck |
| `Mesh.RefusedPostWritesNothing` | server-uring/src/mesh.h:53-61 | over every run, from the begin of a post to its refusal, whatever the consumer does meanwhile: storage, write cursor, stream and accepted frames are as before, and the frame did not fit behind the cursor that was observed |
| `CloseNotify.CloseFits` | server-uring/src/mesh.h:111-131 | with one close per slot and reuse only after consumption, a close fits the pipe even when the worker decides on a stale cursor |
| `CloseNotify.StepKeepsInv` | server-uring/src/mesh.h:116-121 | allocation, adoption, posting and consumption keep: closes the worker cannot know to be consumed belong to different slots that are not in its hands |
| `CloseNotify.CloseNeverDrops` | server-uring/src/mesh.h:111-131 | in every run no close notification is refused and the bytes in flight never exceed one frame per session |
| `CloseNotify.ClosesAreOwed` | server-uring/src/mesh.h:111-131 | in every run, a slot that waits for the consumption of its close has one that is posted and not consumed |
| `CloseNotify.SlotsMove` | server-uring/src/mesh.h:116-121 | every other slot can move on: allocated, adopted with the cursor its adopt carries, closed whatever cursor is observed, returned |
| `CloseNotify.OldestIsFreed` | server-uring/src/mesh.h:116-121 | two steps of the acceptor consume the oldest close and free its slot |
| `CloseNotify.ShippedSizesFit` | server-uring/src/mesh.h:126-131 | the shipped sizes (256 slots, 28-byte frames, 16 KiB) meet the compile-time rule |
| `CloseMesh.AdmitIsPost` | server-uring/src/mesh.h:56-62 | the decision of `mesh_post` on a close, with the cursor it observed, is the decision of the protocol |
| `CloseMesh.StepKeepsInv` | server-uring/src/mesh.h:56-103 | every step of slots, `mesh_post` and `mesh_try_recv` together keeps: seen as closes and cursors the pipe is a state of the protocol |
| `CloseMesh.NothingIsDropped` | server-uring/src/mesh.h:111-131 | in such a state no post of a close can be refused, whatever cursor the producer observes |
| `CloseMesh.NoCloseIsRefused` | server-uring/src/mesh.h:111-131 | over every interleaving of bytes, slots and stale cursors `mesh_post` never returns false for a close, and the acceptor receives the closes in the order posted |
| `CloseMesh.OwnerCanPost` | server-uring/src/mesh.h:56-62 | a worker that posts nothing else can begin the close of any session it owns |
| `CloseMesh.PostIsAdmitted` | server-uring/src/mesh.h:56-62 | and whatever cursor it then observes, the post is admitted and the close on its way |
| `CloseMesh.InFlightFits` | server-uring/src/mesh.h:111-131 | and the bytes in the pipe never exceed one frame per slot |
| `RingBuffers.RingBuffer.WriteAt` | engine-uring/src/sds/ring_buffer.h:96-101 | the two flat copies write each byte at its position and nothing else |
| `RingBuffers.RingBuffer.Enqueue2` | engine-uring/src/sds/ring_buffer.h:140-148 | the queue grows by header and body together, or not at all exactly when they do not fit |
| `RingBuffers.RingBuffer.Enqueue` | engine-uring/src/sds/ring_buffer.h:124-130 | the queue grows by the whole block or not at all |
| `RingBuffers.RingBuffer.Peek` | engine-uring/src/sds/ring_buffer.h:187-195 | returns the front of the queue, reassembled across the wrap, and changes nothing |
| `RingBuffers.RingBuffer.Dequeue` | engine-uring/src/sds/ring_buffer.h:174-183 | returns the front of the queue and removes exactly that |
| `RingBuffers.RingBuffer.DirectView` | engine-uring/src/sds/ring_buffer.h:200-208 | the contiguous run at the read cursor is the front of the queue |
| `RingBuffers.RingBuffer.CommitDequeue` | engine-uring/src/sds/ring_buffer.h:209-211 | removes k bytes from the front |
| `FrameParser.ParseString` | server-epoll/server.cpp:365-384 | the loop over the string computes `Parse`: frames handed over in order until closing, oversize or partial |
| `FrameParser.ParseRing` | server-epoll/server_sds.cpp:419-445 | the loop over the ring computes the same `Parse` on the queue the ring stands for, in place or through the scratch |
| `FrameParser.ParseSplit` | server-epoll/server.cpp:362-384 | feeding bytes in two pieces is feeding them at once, for any handler |
| `FrameParser.ChunkingIsInvisible` | server-epoll/server.cpp:386-419 | however the stream is cut into receives, the handler ends in the state the whole stream gives, with the same leftover |
| `FrameParser.LeftoverIsPartial` | server-epoll/server.cpp:362-384 | what stays buffered on a live connection is under one frame |
| `FrameParser.ParseEncoded` | server-epoll/server.cpp:365-384 | parsing an encoded stream hands over exactly its frames, up to the first that closes the connection |
| `Wire.FrameBytes` | server-epoll/server.cpp:190-193 | a frame on the wire is length and type, low byte first, and the payload |
| `FrameParser.OnReadableString` | server-epoll/server.cpp:386-419 | for every script of receives the loop computes `Drain`, and its backlog guard never fires |
| `FrameParser.OnReadableRing` | server-epoll/server_sds.cpp:447-485 | the sds loop, which asks for at most the free space, ends like `Drain`; its backlog guard and its enqueue check never fire |
| `FrameParser.PartialRecv` | server-epoll/server_sds.cpp:459-471 | taking only part of what the kernel offers changes nothing in the outcome |
| `ChatConn.AcceptConserves` | server-epoll/server.cpp:176-208 | queueing keeps: bytes sent plus bytes pending are the encodings of the queued frames, none truncated, within the cap |
| `ChatConn.FlushConserves` | server-epoll/server.cpp:211-233 | for every script of partial sends, a flush keeps conservation and only adds to what was sent; how much is `ChatSends.FlushTakes` |
| `ChatConn.FlushArms` | server-epoll/server.cpp:151-163 | after a flush a live connection has EPOLLOUT armed exactly while bytes are pending |
| `ChatConn.FlushFails` | server-epoll/server.cpp:211-233 | a flush leaves a connection closing exactly when it was, or its script reaches a failed or empty send while bytes are left and before one that would block |
| `ChatSends.FlushTakes` | server-epoll/server.cpp:211-233 | a flush sends exactly what the kernel's outcomes offer to take before the first refusal or error, up to all that is pending, and keeps the rest in order |
| `ChatSends.FlushUses` | server-epoll/server.cpp:211-233 | and uses up exactly the outcomes it met |
| `ChatSends.FailsIff` | server-epoll/server.cpp:211-233 | it fails exactly when more is pending than those outcomes take and they end in an error |
| `ChatSends.DispatchSends` | server-epoll/server.cpp:252-257 | immediate mode sends what the kernel takes at once; batch mode sends nothing and marks exactly who has bytes pending |
| `ChatSends.DeliverDoomsIff` | server-epoll/server.cpp:176-208 | a live connection is doomed by a delivery exactly when a legal payload would exceed the cap, or in immediate mode when the send fails |
| `ChatSends.FlushOneSends` | server-epoll/server.cpp:435-444 | a stop of the flush pass sends what the kernel takes of a live connection and dooms it exactly when that fails |
| `ChatConn.DispatchKeeps` | server-epoll/server.cpp:252-257 | send now or mark dirty: either way nothing pending is left unserved |
| `TickContainer.LinesRoundTrip` | client-bench/src/traffic.cpp:132-147 | the client's walk over a container recovers exactly the lines the server wrote, and finds none bad |
| `TickContainer.LinesAndTail` | client-bench/src/traffic.cpp:132-147 | of a container that stops short the whole lines are recovered, and it is bad exactly when a length stands at its end without that many bytes |
| `TickContainer.LineBytes` | server-epoll/server.cpp:342-351 | a line in a container is its length, low byte first, and the line |
| `ChatCore.BroadcastKeeps` | server-epoll/server.cpp:235-259 | a broadcast keeps the server invariant: membership both ways, conservation, nothing stranded |
| `ChatCore.LeaveMembers` | server-epoll/server.cpp:261-272 | leaving keeps rooms and connections in agreement, removes emptied rooms, and leaves the leaver in no room |
| `ChatCore.LeaveTick` | server-epoll/server.cpp:264-270 | a buffer goes with its room, so every buffered room is a live one |
| `ChatCore.CoalesceKeeps` | server-epoll/server.cpp:342-351 | a recorded line keeps the buffer a container of whole lines under the tick cap |
| `ChatCore.JoinKeeps` | server-epoll/server.cpp:311-333 | a join, with its goodbye, move, reply and greeting, keeps the invariant and loses no closing or dirty flag |
| `ChatCore.ChatKeeps` | server-epoll/server.cpp:334-354 | a chat line, broadcast or coalesced, keeps it |
| `ChatCore.PacketKeeps` | server-epoll/server.cpp:303-360 | every packet keeps it |
| `ChatCore.ParseKeeps` | server-epoll/server.cpp:365-384 | so does every buffer of bytes |
| `ChatCore.FlushDirtyKeeps` | server-epoll/server.cpp:435-444 | the flush pass keeps it and clears every dirty flag |
| `ChatLoop.FlushDooms` | server-epoll/server.cpp:435-444 | over live connections the flush pass dooms exactly the dirty ones that face such a send |
| `ChatCore.ReapKeeps` | server-epoll/server.cpp:529-554 | closing one connection keeps it, removes exactly that connection, and loses no flag of the others |
| `ChatCore.FlushTickKeeps` | server-epoll/server.cpp:278-299 | the tick keeps it |
| `ChatCore.TickDelivers` | server-epoll/server.cpp:278-299 | a live member of a buffered room gets exactly one frame, of exact length, that decodes to the room's lines since the last tick in order; over its cap it is doomed; everyone else is untouched |
| `ChatTicks.EventsGo` | server-epoll/server.cpp:714-741 | no event of a batch queues a tick frame, and every event keeps the server invariant |
| `ChatTicks.DueTickEmpties` | server-epoll/server.cpp:747 | in coalesce mode a pass whose tick is due ends with every buffer empty, and drops no line |
| `ChatTicks.DueTickIsSent` | server-epoll/server.cpp:747 | whoever is open after such a pass was queued, behind what the events queued, exactly one tick frame if lines were buffered for its room and the frame fits, which decodes to those lines in order, and none otherwise; behind it come notices of the reap only |
| `ChatTicks.OverCapIsClosed` | server-epoll/server.cpp:747 | a member whom the frame would take over its cap is closed by the reap of the same pass |
| `ChatTicks.NoTickUnlessDue` | server-epoll/server.cpp:747 | without a due tick nobody is queued a tick frame in a whole pass, and after the events a line is lost only with its room |
| `ChatMeaning.BroadcastTells` | server-epoll/server.cpp:235-259 | a connection is told exactly one more frame if it was another live member of that room, and is untouched otherwise; it is doomed exactly when the cap or its send says so |
| `ChatMeaning.NickTells` | server-epoll/server.cpp:305-310 | a nick is what was sent, cut to 31 bytes; exactly its owner is answered, and nothing else changes |
| `ChatMeaning.RefusalTells` | server-epoll/server.cpp:311-338 | a join without a nick or a name, and a line without a room, are answered to the sender alone and change nothing else |
| `ChatMeaning.UnknownDooms` | server-epoll/server.cpp:355-358 | a packet of any other type dooms its sender and does nothing else |
| `ChatMeaning.TextIs` | server-epoll/server.cpp:303-360 | the fixed texts of answers and notices are the bytes of their letters |
| `ChatMeaning.ChatTells` | server-epoll/server.cpp:334-353 | a chat line that fits a frame goes to everyone in the sender's room, the sender included; a longer one goes to nobody; everyone else is untouched, no membership changes, and exactly those are doomed whom the cap or a failing send says |
| `ChatMeaning.LineIsToldIff` | server-epoll/server.cpp:178 | a listener still there afterwards was told the line exactly when nick, separator and payload are at most 1024 bytes |
| `ChatMeaning.LongLineIsLost` | server-epoll/server.cpp:178 | a payload of 1024 bytes, which the parser accepts, is told to nobody, and recorded in coalesce mode |
| `ChatMeaning.CoalesceRecords` | server-epoll/server.cpp:342-351 | a coalesced line is recorded behind its room's lines exactly when with its two bytes of length it fits the tick cap, and else counted as dropped; nothing else changes |
| `ChatMeaning.JoinTells` | server-epoll/server.cpp:311-333 | a join moves exactly the joiner, to the name cut to 63 bytes; the old room hears the goodbye, the joiner its answer, the new room the greeting, in this order and nobody else; exactly those are doomed whom the cap or a failing send says |
| `ChatMeaning.MoveTells` | server-epoll/server.cpp:321-332 | the same of a move to any room with any answer |
| `ChatMeaning.MoveKeepsLines` | server-epoll/server.cpp:261-272 | a move loses buffered lines only with the room the mover was alone in |
| `ChatMeaning.ReapTells` | server-epoll/server.cpp:535-549 | a closed connection is gone; exactly the rest of its room hears that it left, if it had a nick, and is doomed only by that; buffered lines are lost only with a room it was alone in |
| `ChatEvents.DrainMeans` | server-epoll/server.cpp:386-419 | the receive loop handles buffered and received bytes as one parse, and dooms a connection still live exactly when its peer is gone |
| `ChatEvents.ReadMeans` | server-epoll/server.cpp:386-426 | a readable event whose bytes are frames and the front of one more handles those packets in order while the connection lives; then a live one is doomed if the peer is gone, and else sends what the kernel takes or is marked dirty; the front stays buffered |
| `ChatEvents.NoBytesRead` | server-epoll/server.cpp:386-426 | one that brings no bytes handles no packet |
| `ChatEvents.WritableMeans` | server-epoll/server.cpp:739 | a writable event sends what the kernel takes of that connection, dooms it exactly when this fails, and changes nothing else |
| `ChatEvents.BothMeans` | server-epoll/server.cpp:739-740 | writable and readable at once is one after the other |
| `ChatEvents.HangupMeans` | server-epoll/server.cpp:730-737 | a hangup dooms that connection and nothing else; an event for a closing or unknown descriptor does nothing |
| `ChatEvents.AcceptMeans` | server-epoll/server.cpp:484-507 | under the cap a new descriptor is an empty connection in no room; at the cap nothing happens |
| `ChatEvents.FlushDirtySends` | server-epoll/server.cpp:435-444 | the flush pass sends of each dirty live connection what the kernel takes, and touches no other |
| `ChatServer.Server.DoomConn` | server-epoll/server.cpp:170-174 | dooming keeps the list in step with the flags: every closing connection once |
| `ChatServer.Server.QueueFrame` | server-epoll/server.cpp:176-208 | the frame is appended, or the connection doomed, by the backpressure rule |
| `ChatServer.Server.FlushSendTo` | server-epoll/server.cpp:211-233 | the send loop does what `FlushSend` says for every script, which `ChatSends.FlushTakes` says in bytes, and dooms through the list |
| `ChatServer.Server.BroadcastRoom` | server-epoll/server.cpp:235-259 | in whatever order the members are visited, the result is that of the set, and the lists stay exact |
| `ChatServer.Server.LeaveRoomOf` | server-epoll/server.cpp:261-272 | the maps change as `LeaveRoom` says |
| `ChatServer.Server.OnPacket` | server-epoll/server.cpp:303-360 | the handler computes `HandlePacket`, and adds to the lists only live connections |
| `ChatServer.Server.ParseFrames` | server-epoll/server.cpp:365-384 | the parse loop with the real handler computes `Parse` and keeps the invariant |
| `ChatServer.Server.OnReadable` | server-epoll/server.cpp:386-426 | a read event computes `ReadStep`; the backlog stays under one frame |
| `ChatServer.Server.OnAccept` | server-epoll/server.cpp:484-507 | a new descriptor is on neither list, so no stale entry can be taken for it |
| `ChatServer.Server.OnEvent` | server-epoll/server.cpp:714-741 | one event computes `EventStep` and keeps the invariant between events |
| `ChatServer.Server.FlushTick` | server-epoll/server.cpp:278-299 | the tick loop, in whatever order of rooms and members, computes `FlushTickRooms` |
| `ChatServer.Server.FlushDirtyAll` | server-epoll/server.cpp:435-444 | the walk flushes exactly the dirty connections and empties the list |
| `ChatServer.Server.ReapConn` | server-epoll/server.cpp:532-551 | one stop of the reap closes one live connection as `ReapOne` says, and may doom others |
| `ChatServer.Server.ReapWalk` | server-epoll/server.cpp:529-554 | the walk over the list that grows under it terminates; it closes exactly the connections that are closing and those that become so meanwhile, first in first out, each once, until nobody is |
| `ChatServer.Server.ReapDoomed` | server-epoll/server.cpp:529-554 | the reap closes exactly those, beginning with the doomed list as it stood, and leaves an empty list |
| `ChatServer.Server.BatchTail` | server-epoll/server.cpp:756-759 | flush, reap, flush: what is closed is exactly who was doomed before or during the reap, in that order; the dirty list ends empty, and the doomed list is empty exactly when no dirty connection faces a failing send as the second flush begins |
| `ChatServer.Server.Iteration` | server-epoll/server.cpp:713-763 | for every batch of events and every kernel, one pass computes `Pass`, unparsed bytes included, and ends quiescent; it closes exactly who is closing when the reap begins or becomes so during it, who was doomed by an earlier event earlier, beginning with the doomed list as it stood; a due tick leaves no line untold |
| `ChatServer.Server.Run` | server-epoll/server.cpp:713-764 | every run of passes computes `Passes` and ends quiescent, and every pass of it closes as `Iteration` says; `ChatTicks` says of each pass what its tick does |
| `ChatServer.Server.NothingStranded` | server-epoll/server.cpp:749-763 | when quiescent: no dirty flag, EPOLLOUT armed exactly while bytes wait, bytes conserved, rooms hold only open descriptors, and nothing doomed in immediate mode |
| `DoomedPass.SecondFlushMayDoom` | server-epoll/server.cpp:756-759 | two accepts, two joins and a hangup from the empty server, in batch mode: exactly one connection is reaped, and the pass ends with the other doomed |
| `SdsConns.SdsConn.Compact` | server-epoll/server_sds.cpp:217-226 | moving to the front keeps the pending bytes |
| `SdsConns.SdsConn.QueueSend` | server-epoll/server_sds.cpp:202-232 | the linear queue does what the string does: same bytes, same doom decision, no write past the region |
| `SdsConns.SdsConn.FlushSend` | server-epoll/server_sds.cpp:239-258 | so does the send loop, with its reset on drain; `ChatSends.FlushTakes` says in bytes what that is |
| `SdsConns.SdsConn.Replay` | server-epoll/server_sds.cpp:202-265 | over any history of operations the queue is `server.cpp`'s string |
| `RoomNames.SameRoomIff` | server-epoll/server_sds.cpp:288-290 | for all names: the C strings are equal exactly when the names agree up to a NUL or the end of both |
| `RoomNames.KeyIsWhole` | server-epoll/server_sds.cpp:338-346 | the index sees the whole name exactly when it holds no NUL, or is one |
| `RoomNames.AnswerIsAskedIff` | server-epoll/server_sds.cpp:386-389 | a join is answered with the name it asked for exactly when the room is new or its record's buffer begins with that name |
| `RoomNames.WholeKeyIsShown` | server-epoll/server_sds.cpp:386-389 | so it is whenever the index sees the whole name |
| `RoomStores.TwoJoins` | server-epoll/server_sds.cpp:288-325 | two joins into an empty store: one room exactly when the names agree up to a NUL; by `server.cpp`'s sets, exactly when they are equal |
| `RoomStores.NulMergesRooms` | server-epoll/server_sds.cpp:288-290 | two names whose joins give one room of two here, and two rooms of one in `server.cpp` |
| `RoomStores.NameLingers` | server-epoll/server_sds.cpp:297-315 | whatever the names: after one room was left and a second made, a name that goes on past the NUL behind the second is answered with what the first left in the buffer |
| `RoomStores.OldNameShows` | server-epoll/server_sds.cpp:297-315 | the instance with SECRETROOM |
| `RoomStores.RoomStore.TitlesAreSane` | server-epoll/server_sds.cpp:288-315 | the buffer of every indexed record reads as its key, and no free record is indexed |
| `RoomStores.UnlinkChains` | server-epoll/server_sds.cpp:327-336 | unlinking any member leaves prev and next mirroring each other on the rest |
| `RoomStores.FreeListSuffices` | server-epoll/server_sds.cpp:292 | while some connection is in no room the free list has a record, so its check never traps |
| `RoomStores.RoomStore.Acquire` | server-epoll/server_sds.cpp:288-306 | a known key leaves all records alone; a new one takes the first free record and copies name and NUL over what its buffer held |
| `RoomStores.RoomStore.Join` | server-epoll/server_sds.cpp:317-325 | linking at the head adds one member to one room, as the set does, and keeps the whole store invariant |
| `RoomStores.RoomStore.Release` | server-epoll/server_sds.cpp:308-315 | the name leaves the index before the record is reusable, its buffer as it was; free and live records partition the slab |
| `RoomStores.RoomStore.Leave` | server-epoll/server_sds.cpp:327-336 | leaving does what the set does; the last one out releases the record |
| `RoomStores.RoomStore.Switch` | server-epoll/server_sds.cpp:317-336 | leave and join together are `Left` then `Entered` on the sets |
| `RoomStores.RoomStore.Walk` | server-epoll/server_sds.cpp:271-283 | following next links visits every member of the room exactly once, `count` of them |
| `RoomStores.RoomStore.HomeIsMembership` | server-epoll/server_sds.cpp:317-336 | a slot names a room exactly when it is on that room's list |
| `RoomIndexes.RoomIndex.BorrowedKeysHold` | server-epoll/server_sds.cpp:299-305 | no borrowed key is stale: what the buffer behind a node of the hash map reads as is the key the node was chained under |
| `RoomIndexes.RoomIndex.Join` | server-epoll/server_sds.cpp:288-325 | looking up in the hash map and inserting under the record's own buffer keeps the map the index, and finds the room exactly when it exists |
| `RoomIndexes.RoomIndex.Leave` | server-epoll/server_sds.cpp:308-336 | with the last member the name is erased while the buffer still reads as it, which keeps the map the index |
| `RoomIndexes.RoomIndex.Replay` | server-epoll/server_sds.cpp:288-336 | so it is over any history of joins and leaves |
| `SdsServers.DeliveredIsBroadcast` | server-epoll/server_sds.cpp:267-284 | sending one after the other along the list is the broadcast to the set |
| `SdsServers.SdsServer.Broadcast` | server-epoll/server_sds.cpp:267-284 | the walk over the intrusive list does to the view what `server.cpp`'s broadcast does |
| `SdsServers.SdsServer.LeaveOf` | server-epoll/server_sds.cpp:327-336 | leaving refines `LeaveRoom`, and the record stays that room or is dead |
| `SdsServers.SdsServer.EnterOf` | server-epoll/server_sds.cpp:317-325 | joining, whatever the name, enters the room of its key as `EnterRoom` does |
| `SdsServers.SdsServer.OnJoin` | server-epoll/server_sds.cpp:368-395 | the whole join, for every name: goodbye, move to the room of the key, answer with what that record's buffer shows, greeting; the buffers and the free list change as `NamesMoved` says |
| `SdsServers.SdsServer.HandlePacket` | server-epoll/server_sds.cpp:355-412 | every packet does to the view and the record names what `HandleAs` says |
| `SdsLoop.SameIffClean` | server-epoll/server_sds.cpp:288-306 | a join by a named connection is `server.cpp`'s exactly when the index sees its whole name |
| `SdsLoop.JoinTellsAs` | server-epoll/server_sds.cpp:368-395 | any join, clean or not: the joiner ends in the room of the name's key and is answered with what its record's buffer shows, and both rooms hear what `server.cpp` says of a move to that room |
| `SdsLoop.OthersAsThere` | server-epoll/server_sds.cpp:355-412 | every other packet is handled as in `server.cpp` |
| `SdsLoop.ReadMeansAs` | server-epoll/server_sds.cpp:447-487 | a readable event, whatever the names in it: the packets among buffered and received bytes are handled in order as `HandleAs` says, then the connection is doomed, sent to or marked as in `server.cpp`, and the unfinished frame stays |
| `SdsLoop.OnlyReadingDiffers` | server-epoll/server_sds.cpp:768-791 | every event that reads nothing does what it does in `server.cpp` |
| `SdsLoop.HandleAsKeeps` | server-epoll/server_sds.cpp:355-412 | every packet, clean or not, keeps the server invariant |
| `SdsServers.SdsServer.ParseFrames` | server-epoll/server_sds.cpp:419-445 | parsing the inbound ring with the real handler, in place or through the scratch, is `Parse` of its bytes; for any bytes |
| `SdsLoop.ParseClean` | server-epoll/server_sds.cpp:419-445 | a parse of clean frames gives the state and leftover `server.cpp` gets from its string |
| `SdsServers.SdsServer.Drain` | server-epoll/server_sds.cpp:456-484 | the receive loop over the connection's ring, which asks for at most the free space, ends like `Drain` for every script; it always has room |
| `SdsLoop.DrainClean` | server-epoll/server_sds.cpp:456-484 | a clean stream is received as `server.cpp` receives it |
| `SdsServers.SdsServer.ReadConn` | server-epoll/server_sds.cpp:447-487 | a read event: receive, parse, then send or mark dirty; the other rings are untouched |
| `SdsServers.SdsServer.WriteConn` | server-epoll/server_sds.cpp:239-258 | a writable event sends, whether or not the connection is dirty, and leaves the dirty list alone |
| `SdsServers.SdsServer.DoomConn` | server-epoll/server_sds.cpp:196-200 | dooming sets the flag and lists the descriptor, once |
| `SdsServers.SdsServer.ListsFit` | server-epoll/server_sds.cpp:169-176 | neither list outgrows the slot count it is reserved to, so the checked push never traps |
| `SdsServers.SdsServer.Reap` | server-epoll/server_sds.cpp:577-600 | one stop of the reap refines `ReapOne` |
| `SdsServers.SdsServer.ReapWalk` | server-epoll/server_sds.cpp:576-603 | the index walk over the list that grows under it terminates, is `ReapAll` of the list as it ended, and closes exactly who is or becomes closing, first in first out |
| `SdsServers.SdsServer.ReapDoomed` | server-epoll/server_sds.cpp:576-603 | exactly those are closed, beginning with the doomed list as it stood, none is left closing, the survivors keep their unparsed bytes |
| `SdsServers.SdsServer.FlushStop` | server-epoll/server_sds.cpp:496-500 | one stop of the flush pass refines `FlushOne` and lists a connection it dooms |
| `SdsServers.SdsServer.FlushDirty` | server-epoll/server_sds.cpp:492-502 | the walk over the dirty list, stale entries included, flushes exactly the dirty connections |
| `SdsServers.SdsServer.Open` | server-epoll/server_sds.cpp:559-562 | a constructed slot is a new connection in no room |
| `SdsServers.SdsServer.OnAccept` | server-epoll/server_sds.cpp:539-562 | a new descriptor gets a slot, or is refused at the cap |
| `SdsServers.SdsServer.OnEvent` | server-epoll/server_sds.cpp:768-791 | one event, accept, hangup, writable or readable, is `StepAs` on the view, the record names, the rings and both lists; it starts and ends between events |
| `SdsLoop.StepClean` | server-epoll/server_sds.cpp:768-791 | which is `server.cpp`'s `EventStep` when the frames it completes are clean |
| `SdsServers.SdsServer.Finish` | server-epoll/server_sds.cpp:793-800 | flush, reap, flush in batch mode, reap in immediate mode, is `Tail` on the view, and closes exactly who was doomed |
| `SdsServers.SdsServer.Iteration` | server-epoll/server_sds.cpp:761-801 | for every batch and every kernel, one pass is `PassAs`, closes exactly who is or becomes doomed in the order of their doom, and ends with nothing dirty, and nothing doomed in immediate mode |
| `SdsLoop.PassClean` | server-epoll/server_sds.cpp:761-801 | which is `server.cpp`'s `Pass` when the events are clean as they come up, and closes whom that closes |
| `SdsServers.SdsServer.Run` | server-epoll/server_sds.cpp:761-802 | every run of passes is `PassesAs`, whatever the rooms are called, answers included, and every pass of it closes as `Iteration` says |
| `SdsServers.SdsServer.StartsQuiescent` | server-epoll/server_sds.cpp:645-685 | a new server is where a run can begin |
| `SdsLoop.RunClean` | server-epoll/server_sds.cpp:761-802 | and is `server.cpp`'s `Passes`, with the same closings, when every event is clean as it comes up; one server may close in an order exactly when the other may |
| `CstrHashMaps.NextPowerOfTwo` | engine-uring/src/sds/cstr_hash_map.h:27-34 | a power of two, at or above the argument and below its double |
| `CstrHashMaps.SmearDown` | engine-uring/src/sds/cstr_hash_map.h:29-32 | or-ing a 64-bit word with itself shifted by 1, 2, 4, ... 32 sets exactly the bits at or below its highest one |
| `CstrHashMaps.SmearToPower` | engine-uring/src/sds/cstr_hash_map.h:27-34 | the bit trick computes that least power of two, modulo the word |
| `Words.MaskIsModulo` | engine-uring/src/sds/cstr_hash_map.h:54-56 | masking a hash with one less than a power of two is the remainder |
| `CstrHashMaps.BucketIsMasked` | engine-uring/src/sds/cstr_hash_map.h:54-56 | so the bucket of a key is its hash masked, as the source computes it |
| `CstrHashMaps.HashSnoc` | engine-uring/src/sds/cstr_hash_map.h:45-52 | the hash starts at 5381 and takes each byte as 33 times what was plus the byte, modulo the word |
| `CstrHashMaps.MoveChain` | engine-uring/src/sds/cstr_hash_map.h:63-70 | relinking one old chain moves exactly its nodes into their new buckets |
| `CstrHashMaps.Rehash` | engine-uring/src/sds/cstr_hash_map.h:58-76 | every node ends in the bucket of its hash, once, with its key and value |
| `CstrHashMaps.CstrHashMap.RehashForInsert` | engine-uring/src/sds/cstr_hash_map.h:78-86 | the map is unchanged and one more entry fits under three quarters |
| `CstrHashMaps.CstrHashMap.FindNode` | engine-uring/src/sds/cstr_hash_map.h:329-339 | finds a node exactly when the key is in the map, with its value |
| `CstrHashMaps.CstrHashMap.Find` | engine-uring/src/sds/cstr_hash_map.h:329-354 | the value of the key in the finite map, if it has one |
| `CstrHashMaps.CstrHashMap.Insert` | engine-uring/src/sds/cstr_hash_map.h:357-379 | the map gains or replaces exactly that entry; size stays within three quarters of a power-of-two capacity |
| `CstrHashMaps.CstrHashMap.Index` | engine-uring/src/sds/cstr_hash_map.h:381-401 | returns the present value, or inserts the default |
| `CstrHashMaps.CstrHashMap.Erase` | engine-uring/src/sds/cstr_hash_map.h:403-425 | the map loses exactly that key |
| `CstrHashMaps.Step` | engine-uring/src/sds/cstr_hash_map.h:145-161 | `operator++` leaves the node it stood on and stands on the next of all that are left, in its chain or in a later bucket |
| `CstrHashMaps.Collect` | engine-uring/src/sds/cstr_hash_map.h:145-161 | from begin to end by that step, the nodes are the chains in bucket order |
| `CstrHashMaps.CstrHashMap.Iterate` | engine-uring/src/sds/cstr_hash_map.h:145-161 | iteration yields the entries of the finite map, each exactly once |
| `CstrHashMaps.FlattenHoused` | engine-uring/src/sds/cstr_hash_map.h:307-312 | the chains in bucket order list every node once |
| `ThreadLifecycle.StepIsForward` | server-uring/src/thread_ctl.cpp:30-56 | no step moves the state back, and only the worker's last store writes stopped |
| `ThreadLifecycle.StepKeepsInv` | server-uring/src/worker_ctl.cpp:74-89 | every step of every caller, the trampoline, joins and tid readers keeps the protocol invariant |
| `ThreadLifecycle.RunIsForward` | server-uring/src/thread_ctl.cpp:30-56 | the state only moves forward over any stretch of any run |
| `ThreadLifecycle.StopIsNeverLost` | server-uring/src/thread_ctl.cpp:46-53 | once a request has returned the state is draining or stopped for good, after at most two exchanges |
| `ThreadLifecycle.OneRequestStops` | server-uring/src/thread_ctl.cpp:30-56 | a thread leaves running by request only: in every state of every run exactly one request has made the transition if it was made, and none otherwise |
| `ThreadLifecycle.RequestsReturn` | server-uring/src/thread_ctl.cpp:44-53 | every step of a request brings it closer to its return, whatever the state does meanwhile, and it is never stuck |
| `ThreadLifecycle.RequestsAreTheirOwn` | server-uring/src/thread_ctl.cpp:44-53 | and nobody else's step touches it |
| `ThreadLifecycle.LifecycleHolds` | server-uring/src/worker_engine.cpp:35-54 | the trampoline's check never traps, stopped is stored once and exactly by the exiting worker, and a returned tid is the worker's or zero |
| `ThreadLifecycle.TidIsTold` | server-uring/src/thread_ctl.cpp:20-28 | a reader that saw the thread running is told the worker's tid, one that did not is told 0 |
| `ThreadLifecycle.HeartBeats` | server-uring/src/worker_engine.cpp:42-46 | the heartbeat counts exactly the turns of the loop that find the thread running |
| `ThreadLifecycle.JoinTrapsIffUnstarted` | server-uring/src/thread_ctl.cpp:58-65 | the check in `join` traps exactly on a thread that was never started |
| `ThreadLifecycle.JoinUnstartedTraps` | server-uring/src/thread_ctl.cpp:58-65 | the run of one step that traps |
| `ThreadLifecycle.DrainingMakesProgress` | server-uring/src/worker_engine.cpp:42-53 | while draining each step of the worker brings it closer to its exit and nobody moves it away |
| `ThreadLifecycle.WorkerEnabled` | server-uring/src/worker_engine.cpp:35-54 | a started worker that has not exited can always take its next step |
| `SessionTables.ApplyKeepsValid` | server-uring/src/session_table.cpp:23-69 | every operation keeps ids unique and below the next one, and the count equal to the live slots |
| `SessionTables.TokenStep` | server-uring/src/session_table.cpp:41-69 | a held pair survives every operation but its own removal, and a removed id never returns |
| `SessionTables.AuthorityHolds` | server-uring/src/session_table.cpp:15-69 | an allocated id was never issued before, and its pair validates exactly until that id is removed, over any history |
| `SessionTables.AllocateMeans` | server-uring/src/session_table.cpp:23-35 | refused exactly when no slot is vacant; else exactly one id becomes present, the next one, with that account, no owner and the slot's generation one further; no other id notices |
| `SessionTables.MarksOnly` | server-uring/src/session_table.cpp:46-59 | assigning sets owner and phase of that id, entering its phase; nothing else of it changes, and no other id notices |
| `SessionTables.RemoveMeans` | server-uring/src/session_table.cpp:61-69 | exactly that id becomes absent, its slot keeps the generation, and every other id keeps its record |
| `SessionTables.SessionTable.Find` | server-uring/src/session_table.cpp:15-21 | the scan finds the first slot of that id |
| `SessionTables.SessionTable.Allocate` | server-uring/src/session_table.cpp:23-35 | the array changes as the value operation says, or the table is full |
| `SessionTables.SessionTable.Validate` | server-uring/src/session_table.cpp:41-44 | true exactly for a live id with its generation |
| `SessionTables.SessionTable.MarkAssigning` | server-uring/src/session_table.cpp:46-52 | sets owner and state of a live id and nothing else |
| `SessionTables.SessionTable.MarkInWorld` | server-uring/src/session_table.cpp:54-59 | sets the state of a live id and nothing else |
| `SessionTables.SessionTable.Remove` | server-uring/src/session_table.cpp:61-69 | the slot is freed, its generation kept |
| `PacketPools.BucketFor` | engine-uring/src/memory/packet_pool.cpp:94-99 | the smallest bucket that fits, if the size is at most 1024 |
| `PacketPools.BlocksDisjoint` | engine-uring/src/memory/packet_pool.cpp:54-74 | different blocks, of one bucket or of two, never overlap |
| `PacketPools.RegionIsCarved` | engine-uring/src/memory/packet_pool.cpp:54-74 | the three buckets fill the region from end to end |
| `PacketPools.PacketPool.Prewarm` | engine-uring/src/memory/packet_pool.cpp:76-92 | all blocks end on their free lists in address order; a second call does nothing |
| `PacketPools.PacketPool.Acquire` | engine-uring/src/memory/packet_pool.cpp:108-138 | returns a block large enough that nobody holds; fatal exactly on oversize, no prewarm or an exhausted bucket |
| `PacketPools.PacketPool.Release` | engine-uring/src/memory/packet_pool.cpp:140-152 | traps exactly when the size fits no bucket, the address is outside the bucket's region or nothing is out; so a held block is always taken; the block is pushed, and the pool is sound again exactly when it was held |
| `PacketPools.NeverHeld` | engine-uring/src/memory/packet_pool.cpp:140-152 | pushing an address that was not held leaves a list that no division into free and held blocks explains |
| `PacketPools.ReleaseTwice` | engine-uring/src/memory/packet_pool.cpp:140-152 | prewarm, two blocks out, the first released twice: the second release is accepted and the bucket is no list of free blocks any more |
| `PacketPools.PacketPool.Scribble` | engine-uring/src/memory/packet_pool.cpp:134-137 | any write of a holder inside its block leaves every free list acyclic and complete |
| `PacketPools.PacketPool.HeldAreDisjoint` | engine-uring/src/memory/packet_pool.cpp:108-138 | outstanding blocks are pairwise disjoint and inside the region |
| `PacketPools.PacketPool.HeldIsApart` | engine-uring/src/memory/packet_pool.cpp:108-152 | and disjoint from every free block |
| `ClientNet.ClientConn.FlushPending` | client-bench/src/netutil.cpp:159-169 | for every script of sends, bytes sent plus bytes pending stay the bytes handed over; exactly what the kernel offers to take is sent, and false is returned exactly when an error came first |
| `ClientNet.ClientConn.SendFrame` | client-bench/src/netutil.cpp:208-226 | a frame goes out behind whatever is pending; of both exactly what the kernel offers to take is sent and only the unsent tail is kept, so the stream is never reordered; false exactly when an error came first |
| `ClientNet.CommandsArrive` | client-bench/src/netutil.cpp:208-226 | whatever part of its frames a client has sent, cut into any receives, the server has handled exactly the whole frames among it, up to the first that closes |
| `ClientNet.ReadAvailable` | client-bench/src/netutil.cpp:185-206 | no byte is lost or reordered; one receive fills at most the free part of the slot, and the connection is kept exactly when the peer is there and the slot is not full afterwards |
| `ClientNet.OneWake` | client-bench/src/netutil.cpp:185-206 | one readable wake: what was left and what was read are parsed as one buffer, and the remainder stays in the slot |
| `ClientNet.ReceiveLoop` | client-bench/src/netutil.cpp:185-206 | any number of wakes over one slot: the pieces read are the socket's bytes in order, and unless a length is bad the logs are one parse of all of them |
| `ClientNet.FullSlotIsGivenUp` | client-bench/src/netutil.cpp:185-206 | 64 chat frames of 1020 bytes fill the slot, parse to the end, and the connection is given up |
| `ClientParser.LengthRoundTrip` | client-bench/src/wire.cpp:7-37 | under both conventions the reader gets the writer's length exactly while the field does not overflow |
| `ClientParser.StampArrives` | client-bench/src/traffic.cpp:102-130 | the line the server makes of a sent blob yields the intended send time stamped into it, or counts as foreign, for every stamp exactly when the nick holds no colon |
| `ClientParser.FrameIsLogged` | client-bench/src/traffic.cpp:149-152 | under either length convention a chat frame is logged as one delivery and, if its payload is at least 20 bytes, one sample; every other frame but a tick as one delivery |
| `ClientParser.ChatIsSampled` | client-bench/src/traffic.cpp:100-152 | the frame the server makes of a blob and a nick without a colon is logged as one delivery and the intended send time in the blob, or as foreign if another node stamped it |
| `ClientParser.TickIsSampled` | client-bench/src/traffic.cpp:132-147 | a tick frame is logged as one delivery and one sample for each of its whole lines, in order, and one bad sample if it stops short |
| `ClientParser.BadIff` | client-bench/src/traffic.cpp:102-109 | a payload is no sample exactly when fewer than 22 bytes follow its first colon, or it has none |
| `ClientParser.WalkFrames` | client-bench/src/traffic.cpp:73-152 | the loop over the slot logs what `Consume` says and stops where it says; what a frame logs is `ClientParser.FrameIsLogged` and `ClientParser.TickIsSampled` |
| `ClientParser.WalkTick` | client-bench/src/traffic.cpp:132-147 | the loop over a tick container logs the decoded lines and one bad entry where it stops short |
| `ClientParser.ConsumeFrames` | client-bench/src/traffic.cpp:73-159 | the same in place: the log is that of the frames received, and the remainder is moved to the front |
| `ClientParser.ConsumeSplit` | client-bench/src/traffic.cpp:73-159 | parsing a longer buffer, in terms of parsing its front |
| `ClientParser.BrokenIff` | client-bench/src/traffic.cpp:85-92 | the parser gives up a buffer exactly when a frame boundary in it carries a raw length below the header's |
| `ClientParser.SplitAgreesIff` | client-bench/src/traffic.cpp:85-92 | two receives log what one would exactly when the first has no such length or the second neither completes a frame nor carries one |
| `ClientParser.CutIsCounted` | client-bench/src/traffic.cpp:85-92 | a stream that is counted differently in two pieces |
| `ClientParser.PayloadLengthsNeverBreak` | client-bench/src/wire.cpp:7-37 | with lengths that count the payload only, every cut is invisible |
| `ClientParser.ReceivesAreOneParse` | client-bench/src/traffic.cpp:73-159 | any series of receives of a well-formed stream is one whole-buffer parse, counters included |
| `ClientParser.StreamArrives` | client-bench/src/traffic.cpp:73-159 | of whatever the server has sent, cut in any way, the client logs a prefix of the frames' entries, and all once all arrived |
| `ClientParser.ServerIsUnderstood` | server-epoll/server.cpp:176-233 | the same for any connection that conserves its bytes, at any moment of its partial sends |
| `ClientParser.TickLinesArrive` | client-bench/src/traffic.cpp:132-147 | a tick frame counts every line of the room once and none bad |
| `ClientParser.RemainderFits` | client-bench/src/netutil.cpp:189-194 | what waits in the slot is less than one frame |
| `Histograms.Histogram.AddSample` | client-bench/src/histogram.h:35-45 | the buckets, totals and extrema in place are those of all samples so far |
| `Histograms.RecordDescribes` | client-bench/src/histogram.h:35-45 | recording counts every sample in its bucket or the overflow, and the extrema are attained |
| `Histograms.BucketIs` | client-bench/src/histogram.h:41 | a bucket holds the samples of one microsecond, and what is negative counts as zero |
| `Histograms.Percentile` | client-bench/src/histogram.h:50-62 | in the fraction and the samples alone, with x their product: beyond range exactly when x is at least one more than the samples in range; else, when x reaches 1, the answer is the bucket b such that x is at least one more than the samples below b and less than one more than those below b + 1; and 0 when x is below 1 |
| `Histograms.RankIsZero` | client-bench/src/histogram.h:53 | the rank is 0 exactly when the fraction of the total is below 1 |
| `Histograms.FractionIs` | client-bench/src/histogram.h:53 | the fraction is the product with the total |
| `Histograms.MedianOfOne` | client-bench/src/histogram.h:50-62 | one recorded sample of 5 microseconds has the median 0 |
| `Histograms.DumpHistogram` | client-bench/src/histogram.cpp:12-25 | one line per occupied bucket |
| `Histograms.LinesOccupied` | client-bench/src/histogram.cpp:12-25 | a dump lists occupied buckets only, each once, in ascending order |
| `Histograms.LinesRoundTrip` | client-bench/merge.py:89-100 | parsing the dump recovers every bucket, empty ones included |
| `Histograms.ParseLines` | client-bench/merge.py:92-97 | the parse loop counts the lines |
| `Histograms.Fleet.MergeDump` | client-bench/merge.py:32-41 | merging in place adds one dump |
| `Histograms.MergeIsOneHistogram` | client-bench/merge.py:32-41 | dumping, parsing and merging any number of processes in any order gives the buckets, totals and extrema of one histogram fed all samples |
| `Histograms.MergedPercentile` | client-bench/merge.py:43-55 | the same for the merged histogram, whose rank is not truncated: beyond range exactly when p times all samples exceeds the samples in range, and then the highest occupied bucket; otherwise the bucket that brackets it, or the lowest occupied one for p = 0 |
| `TickScheduler.ClearLowest` | server-epoll/tick_logic.h:281-283 | count-trailing-zeros names the lowest set bit and `w & (w - 1)` removes exactly it |
| `TickScheduler.Sessions.Add` | server-epoll/tick_logic.h:257-261 | one slot becomes live, and the count is the population of the bitmap |
| `TickScheduler.Sessions.Remove` | server-epoll/tick_logic.h:262-266 | one slot stops being live, and the count follows |
| `TickScheduler.Sessions.RunTick` | server-epoll/tick_logic.h:277-288 | the walk touches every live slot exactly once, in slot order |
| `TickScheduler.Ticker.Timeout` | server-epoll/tick_logic.h:302-306 | -1 without a tick; else the wait ends at the deadline and is never negative |
| `TickScheduler.Ticker.MaybeTick` | server-epoll/tick_logic.h:314-334 | ticks exactly when due; then t1 <= deadline <= t1 + period, overruns reset instead of catching up, and the accumulators move into the records |
| `TickScheduler.Ticker.Pass` | server-epoll/tick_logic.h:308-334 | one pass ticks exactly when it finds the deadline reached, and moves the schedule as `Ticked` says |
| `TickScheduler.Ticker.Run` | server-epoll/tick_logic.h:308-334 | on every monotone clock, a tick happens at exactly the passes that find the deadline reached, ticks never exceed elapsed time over period, and drain and flush time is all recorded or accumulating |

## Left out

- Hardware memory ordering and cache-line layout: acquire and release are interleaved steps with stale snapshots.
- Wrap-around of 64-bit cursors, session ids and counters, and of the 32-bit histogram buckets; the 32-bit session generation does wrap in the model.
- `direct_enqueue_ptr`, `direct_enqueue_size` and `commit_enqueue`: only the io_uring path uses them.
- `CstrHashMaps.Rehash`: uses the power of two and the remainder that `SmearToPower` and `BucketIsMasked` prove the source's bit operations to compute; moving, clearing and reserving a map are not modelled.
- `CloseMesh.StepKeepsInv`: how adopts travel to the worker is not modelled there; an adopt carries the acceptor's cursor as it stood when it was sent.
- `ThreadLifecycle.StepKeepsInv`: covers the worker's trampoline; the acceptor's follows the same protocol.
- `ChatServer.Server.Iteration`: a failing `epoll_ctl`, the EMFILE reserve, the signal descriptor, the short-read switch and logging are not modelled; a batch carries only descriptors the kernel could hand out, and a socket that is interrupted forever is not a script.
- `ChatServer.Server.FlushTick`: does not count tick frames.
- `SdsServers.SdsServer.Iteration`: the same system calls are left out as in `server.cpp`'s, and the shutdown; the index is a finite map here, which `RoomIndexes` proves the hash map with borrowed keys to be; the list of a room is walked before the sends instead of between them, which no send can tell.
- `SdsLoop.RunClean`: goes one way at the level of runs, since two runs that differ at a join can come together again when the joiner leaves; at each join `SdsLoop.SameIffClean` is exact.
- `ClientParser.ConsumeFrames`: the counters are tallies of a log with one entry per delivery, bad sample, foreign sample and latency sample.
- `Histograms.DumpHistogram`: a dump is a record and a sequence of pairs; its decimal text, and the check that all dumps share a bucket width, are not modelled.
- `Histograms.Percentile`: takes the product of fraction and total over the reals, where the source's is floating point; so does `Histograms.MergedPercentile`.
- `TickScheduler.Ticker.MaybeTick`: the phase histograms are kept as sums; block touching, spinning and calibration are timing only.
- The corpus builder and its UTF-8 cut, the connect phase, configuration, reports and the fleet scripts: I/O and easy members.
- The io_uring data path and session migration: described in the design notes, not implemented.
