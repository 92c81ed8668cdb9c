# Barrage, verified model

Barrage is a gateway for live comments (danmaku): clients speak WebSocket to it, join rooms, and receive what
others in the room send. This project models the parts of it that hold state, protocol or arithmetic, and proves
what they promise over every input, every run and every interleaving.

| file | what it models |
|---|---|
| Bytes, Rfc6455 | octets, big-endian numbers, masking; the frame grammar of sections 5.2 and 5.3 of RFC 6455 |
| ClientDecoder, ClientVerdicts | the decoder for client frames, against that grammar; what it turns down, and why |
| ServerFrames | the printer for server frames, against an independent reader |
| Traffic, TrafficEffects | reassembly of frames from arbitrary TCP chunks, and the replies; what each opcode brings about |
| Bitmaps, Rooms, RoomsFlat, RoomHistory, RoomManager | the room manager: bucketed table, per-loop shards, counters, bitmap and eviction as values; its refinement of a flat set, and of the history of operations; the classes that update it in place |
| RoomSteps, RoomAlone | the same room operations as atomic steps of serial loops and the cleaner; what the steps of one operation amount to when nobody interrupts it |
| RoomIdle, RoomEviction | under interleaving: the date by which the cleaner finds emptied rooms, and which connections the cleaner can lose |
| RoomRaces, RaceBitmap, RaceDates, RaceSlips | the room operations without their caller contract, several at work on one loop index: the counts, the bitmap, the date, and when an overtaken write miscounts |
| RateLimiter, Admission, Lifecycle, JoinChecks, Loops | token bucket, node-wide connection counter, per-user quota and room entry, who may join, loop numbering |
| Broadcast, BroadcastRace | delivery to a room, with slow-connection tiers and echo suppression; whom it reaches while connections join and leave |
| VideoSync | buffers released by the viewer's video time |
| EdgeSessions, EdgeQueue | sessions by user and room; sharded queues flushed in batches |
| ReloadCache | a word list cached under its file's modification time and size |

`dafny verify dfyconfig.toml` checks all of it.

The style is the same throughout. A specification (a grammar, a flat set, a list per room, a history of calls or
events) is stated as functions; the invariants and the main theorems are lemmas about it; and a class or method
that works as the Go code does, in place and in loops, is proved to do what the specification says. Concurrency is
modelled as state machines whose steps are the code's atomic operations. Clocks, files, sockets and the worker pool
are parameters or recorded effects.

## What the proofs found

- A join runs on a worker and shares no lock with OnClose. `Lifecycle.ClosedConnIsGoneIff` says exactly when a closed
  connection is gone: `Lifecycle.OneRoomConnIsGoneIff` for joins that name one room, and never after joins to two
  (`Lifecycle.TwoRoomsConnIsNeverGone`). `Lifecycle.TidyQuotaIsExact` says exactly when the user counts are right.
  Runs that miss the conditions: `Lifecycle.SecondJoinLeaks`, `Lifecycle.OvertakenJoinStays`,
  `Lifecycle.UnnoticedJoinLeaks`, and `Lifecycle.MisreadLoopStays`, in which OnClose reads LoopIdx before the join has
  written it.
- The room manager documents that each loop must call Add and Remove itself (internal/room/manager.go:142-145), and
  RoomSteps, RoomIdle and RoomEviction assume it: one operation at a time on a loop index. But handleJoinRoom calls
  AddConnInLoop from the worker pool (internal/app/app.go:405), where two joins of one connection can run at once.
  RoomRaces, RaceBitmap, RaceDates and RaceSlips do without it.
- Without the contract an Add or Remove can be overtaken between its lookup and its write, and then miscounts. At rest
  the counts are exact if and only if these slips cancel out on every loop (`RoomRaces.CountsExactIffSlipsCancel`).
  Nothing slips as long as no two operations on one connection are between lookup and write at once, unless both are
  Adds that had found it (`RaceSlips.NothingSlips`), and any other such pair can slip (`RaceSlips.ConflictCanSlip`).
  Runs that slip: `RaceSlips.TwoAddsOverCount`, after which an empty room is counted as holding a connection and never
  evicted, and `RaceSlips.WriteBackIsNotCounted`, after which a room with a connection is due for eviction.
- Under the contract the cleaner can lose a connection exactly when an Add that its count does not show holds the room
  (`RoomEviction.CanLoseIff`), and both such situations are reachable. Without it, a room that no lookup reaches any
  more fills if and only if it holds a connection or an Add has fetched it (`RaceDates.ShutRoomFillsIff`); its count
  hides a connection that is not in flight only through slips (`RoomRaces.ZeroHidesOnly`).
- Under the contract no emptied room is left without a date (`RoomIdle.NoRoomIsForgotten`). Without it a Remove beside
  the Add of the same connection can leave a room empty, at rest and undated, so that it is never evicted
  (`RaceDates.EmptiedRoomCanBeForgotten`). `RaceDates.EmptyRoomIsDatedIff` gives the exact condition, and
  `RaceDates.EmptiedRoomIsDated` shows that only a Remove of a connection whose Add is still at work, or slips that do
  not cancel out, lead there.
- LastEmptyTime 0 does not mark the rooms with connections once operations interleave. It does in every run in which
  no Add overtakes a Remove that is about to store the date (`RoomIdle.DatesMeanEmpty`), and every overtaking puts a
  date on a connection (`RoomIdle.OvertakingDatesAConnection`). At rest, `RoomIdle.ConnectedRoomIsDatedIff` and,
  without the contract, `RaceDates.ConnectedRoomIsDatedIff` give the exact condition.
- The bitmap can stay wrong without the contract, even without a slip (`RaceBitmap.BitmapDoesNotSurvive`). At rest a bit
  is right if and only if either its last update was not stale and the slips do not mislead the loop's count, or it was
  and they do (`RaceBitmap.BitmapExactIff`); in runs without a conflict only stale updates matter
  (`RaceSlips.WithoutConflict`).
- `IsPremium` has no part in delivery, although docs/DEVELOPMENT_SUMMARY.md:24 promises premium users a wider limit:
  the general 512KB test already applies below the premium 1.5MB one.
- A bad frame makes the decoder discard the good frames of the same batch (internal/server/websocket.go:128), so
  how much of an erroring stream is handled depends on the chunks (`Traffic.BadStreamsDependOnChunks`).
  `Traffic.RunHandles` says what is handled, and `Traffic.SplitsAgreeIff` when two splits agree.
- A word file that is replaced between stat and read, and then put back with its old time and size, keeps the
  replacement's words active. `ReloadCache.StaleIffHazard` gives the exact condition.
- With a capacity below 1 the rate limiter lets a user's first message through. `RateLimiter.BoundedIffCapacity`.

## Model

| member | source | states |
|---|---|---|
| ClientDecoder.DecoderIsComplete | internal/server/websocket.go:139-235 | Whenever the input starts with the encoding of an accepted client frame (section 5.2 of RFC 6455, masked, unfragmented, allowed opcode, within the size limits, any sufficient length form), the decoder returns that frame unmasked with its exact size, whatever follows it. |
| ClientDecoder.DecoderIsSound | internal/server/websocket.go:139-235 | A success is justified: the consumed prefix is the encoding of an accepted client frame, and the frame returned is that frame's opcode and unmasked payload. |
| ClientDecoder.SuccessIffGrammar | internal/server/websocket.go:139-235 | The decoder succeeds if and only if some accepted client frame is a prefix of the input. |
| ClientDecoder.VerdictIsStable | internal/server/websocket.go:139-220 | Any verdict other than incomplete, error or success, is unchanged by appending bytes. |
| ClientVerdicts.BadIffGrammar | internal/server/websocket.go:139-220 | The decoder turns an input down if and only if no accepted frame has a header that begins with its first two octets, or ten octets are there and no accepted frame is a prefix or an extension of it; every other input without a whole frame in front is incomplete. |
| ClientVerdicts.ErrorByCause | internal/server/websocket.go:155-209 | Which error it is, both directions, by the bits of the two header octets and the 64-bit length. |
| ClientVerdicts.MaskedHello | internal/server/websocket.go:139-235 | The masked text message of section 5.7 of RFC 6455 decodes to Hello. |
| ClientVerdicts.UnmaskedHello | internal/server/websocket.go:181-183 | The unmasked one is an invalid frame. |
| ClientDecoder.IncompleteBoundIsTight | internal/server/websocket.go:187-220 | 65549 bytes is attained by an incomplete input, so the bound on incomplete inputs that DecodeOne promises is exact. |
| ClientDecoder.DecodeOne | internal/server/websocket.go:139-235 | A success consumes between 6 bytes and the whole input; an incomplete input has at most 65549 bytes. |
| ClientDecoder.HeaderBits | internal/server/websocket.go:144-183 | The two header octets pass all checks exactly when they are FIN without RSV bits over an allowed opcode, and a mask bit over a length that is at most 125 for control frames. |
| ClientDecoder.DecodeOneFrame | internal/server/websocket.go:139-235 | The step-by-step parser, with its growing offset, returns the specified verdict on every input. |
| ClientDecoder.Unmask | internal/server/websocket.go:222-227 | The in-place XOR loop computes the masking of section 5.3, octet i with octet i mod 4 of the key. |
| Bytes.MaskTwice | internal/server/websocket.go:225-227 | Masking twice with the same key gives the payload back. |
| Bytes.BigEndianRoundTrip | internal/server/websocket.go:192-202 | Reading back a big-endian number of any width gives the number. |
| Bytes.BigEndianIsOnto | internal/server/websocket.go:192-202 | Every octet string is the big-endian form of the number it reads as, so extended lengths are read without loss. |
| ClientDecoder.ScanResumes | internal/server/websocket.go:118-136 | Decoding resumes: an error in the first portion is final; otherwise the residual plus the new bytes yield exactly the frames, consumed count and error of one-shot decoding. |
| ClientDecoder.RoundTrip | internal/server/websocket.go:118-136 | The concatenated encodings of any list of accepted client frames decode to exactly that list and consume every byte. |
| ClientDecoder.DecodeWebSocketFrames | internal/server/websocket.go:118-136 | The loop returns the scan's frames and consumed count; on an error it returns no frames at all, and the offset of the bad frame. |
| ServerFrames.ReadsWhatWasPrinted | internal/protocol/ws/frame.go:40-66 | An independent section 5.2 reader, which rejects non-minimal lengths, reads a printed frame back with its exact size, whatever follows. |
| ServerFrames.StreamIsReadBack | internal/protocol/ws/frame.go:40-66 | Any sequence of frames printed on one connection is read back as exactly that sequence. |
| ServerFrames.PrintingIsInjective | internal/protocol/ws/frame.go:40-66 | Server output is uniquely decodable: two frame sequences with the same octets are the same sequence. |
| ServerFrames.HeaderIsMinimal | internal/protocol/ws/frame.go:43-60 | No header that can hold the payload's length is shorter, and only the minimal form is as short. |
| ServerFrames.PrintedExamples | internal/protocol/ws/frame.go:40-66 | The unmasked examples of section 5.7 of RFC 6455, octet by octet: Hello, 256 octets and 64KiB of binary data. |
| ServerFrames.PutBigEndian | internal/protocol/ws/frame.go:54-59 | PutUint16 and PutUint64 write the big-endian octets at their place and leave the rest of the array alone. |
| ServerFrames.BuildServerFrame | internal/protocol/ws/frame.go:40-66 | The printer with its header buffer produces the encoding the reader inverts. |
| ServerFrames.BuildBinaryFrame | internal/protocol/ws/frame.go:24-26 | Prints its payload as a binary frame. |
| ServerFrames.BuildPongFrame | internal/protocol/ws/frame.go:29-31 | Prints its payload as a pong frame. |
| ServerFrames.BuildCloseFrame | internal/protocol/ws/frame.go:34-36 | Prints its payload as a close frame. |
| Traffic.ChunkingIndependence | internal/server/event_handler.go:144-206 | For every error-free stream and every split into chunks that never meets the buffer limit, the frames handled are those of one-shot decoding up to and including the first Close; the connection is open exactly without a Close, and then the residual is the undecoded suffix. |
| Traffic.RunHandles | internal/server/event_handler.go:144-206 | Every run of every stream, whatever the chunks: exactly the frames of the chunks before the one that meets the limit or completes a bad frame are handled, up to the first Close; these are a prefix of the good frames, and such a chunk, or a bad frame, leaves the connection closed. |
| Traffic.BadStreamsClose | internal/server/event_handler.go:158-161 | If the first k chunks hold no bad frame and meet no limit, and chunk k completes a bad frame, what is handled is what those k chunks hold, up to the first Close. |
| Traffic.SplitsAgreeIff | internal/server/event_handler.go:144-206 | Two splits of one stream, good or bad, handle one a prefix of the other's frames; they have the same effects if and only if the frames in between have none. |
| Traffic.BadStreamsDependOnChunks | internal/server/websocket.go:124-129 | A Ping and then a frame with a reserved bit: in two chunks the Ping is answered, in one it is not. |
| Traffic.SmallChunksNeverTrip | internal/server/event_handler.go:151-167 | From any reachable state, chunks of at most 67571 bytes never meet the 130KB limit, and an open connection's buffer ends within 65549 bytes. |
| Traffic.ChunkBoundIsTight | internal/server/event_handler.go:151-156 | 67571 cannot be raised: after the longest residual a chunk of 67572 bytes meets the limit. |
| Traffic.SplitsAgree | internal/server/event_handler.go:144-206 | Two splits of the same error-free stream into such chunks have the same effects and end in the same state. |
| Traffic.TrafficTracks | internal/server/event_handler.go:144-206 | One callback keeps the state in step with one-shot decoding of everything received so far. |
| Traffic.TrafficSettles | internal/server/event_handler.go:144-206 | A callback that does not meet the limit closes the connection only for a bad frame or a handled Close. |
| Traffic.CloseEchoesCode | internal/server/event_handler.go:174-184 | The Close reply carries the first two payload octets, or 1000. |
| TrafficEffects.FrameEffects | internal/server/event_handler.go:169-204 | Opcode by opcode: a Binary frame is submitted if there is a pool, a Ping is answered by a Pong with its payload, a Close by a Close with its code or 1000, and nothing else has an effect. |
| TrafficEffects.EffectsByOpcode | internal/server/event_handler.go:169-204 | Of any frames, the payloads submitted are those of the Binary frames, in order, and the answers are those to the Pings and Closes, in order. |
| TrafficEffects.ClientFramesAreHandled | internal/server/event_handler.go:144-206 | However the octets of a list of client frames are cut into chunks of at most 67571: the payloads submitted are those of the Binary frames before the first Close, the answers those to the Pings before it and to itself, and the connection is open exactly without a Close. |
| TrafficEffects.OneFrameIsHandled | internal/server/event_handler.go:169-204 | The log of a connection that has received one whole frame in one chunk, for each opcode but Close. |
| Traffic.PeerReadsReplies | internal/server/event_handler.go:170-184 | The peer's section 5.2 reader recovers from the written octets exactly the replies made, in order. |
| Traffic.Connection.HandleTraffic | internal/server/event_handler.go:144-206 | The callback on the connection's fields does what the specification step does; a failed read only closes. |
| Traffic.Connection.Dispatch | internal/server/event_handler.go:169-204 | The loop over one batch performs the effects of the frames up to the first Close, which TrafficEffects.FrameEffects spells out, and closes exactly when there is one. |
| Rooms.NewInv | internal/room/manager.go:53-80 | A new manager satisfies the invariant, has no rooms, and has the number of loops asked for, at least one. |
| Rooms.CreateKeepsInv | internal/room/manager.go:117-140 | GetOrCreate keeps the invariant, makes the room present, keeps an existing one, and touches no other. |
| Rooms.AddKeepsInv | internal/room/manager.go:146-174 | Add keeps every room in the bucket its ID hashes to, with connection count, shard counts, sum and bitmap exact, and changes only the room named. |
| Rooms.RemoveKeepsInv | internal/room/manager.go:180-216 | Remove keeps the same invariant and changes only the room named. |
| Rooms.CleanKeepsInv | internal/room/manager.go:330-346 | Cleaning keeps the invariant and removes exactly the rooms of the bucket with count 0, a positive date, and more than the limit since then. |
| RoomsFlat.RunRefines | internal/room/manager.go:93-246 | Over every run of creations, joins, leaves and cleanings the bucketed manager agrees with a flat set of (room, loop, connection) and the times rooms became empty. |
| RoomsFlat.AddRefines | internal/room/manager.go:146-174 | A join adds one triple to the flat set (or only replaces the handle), and cancels the room's emptiness. |
| RoomsFlat.RemoveRefines | internal/room/manager.go:180-216 | A leave removes exactly that triple, and dates the emptiness when it was the last. |
| RoomsFlat.CleanRefines | internal/room/manager.go:330-346 | The cleaner leaves the triples alone and removes exactly the rooms empty for more than the limit. |
| RoomsFlat.QueriesAreFlat | internal/room/manager.go:218-246 | ConnCount is the number of triples of the room, HasLocalRoom says whether there is one, and bit i of ActiveLoopBitmap whether there is one on loop i. |
| RoomsFlat.EvictionIsInvisible | internal/room/manager.go:330-346 | A cleaning changes no answer for any room, removes exactly the rooms due, only empty ones; a room with connections has LastEmptyTime 0. |
| RoomsFlat.NewRefines | internal/room/manager.go:53-80 | A new manager refines the empty flat state. |
| RoomsFlat.AddEffect | internal/room/manager.go:146-174 | A valid join stores the handle in the one shard named, clears the date, and changes no other shard or room. |
| RoomsFlat.RemoveEffect | internal/room/manager.go:180-216 | A leave takes the connection out of the one shard named and dates the room when it is empty then; one that names nobody changes nothing. |
| RoomHistory.NewServesItsLoops | internal/room/manager.go:53-71 | NewManager(n) panics if and only if n > 64; otherwise it has max(n, 1) loops, and a first join with a positive room, a name and a handle counts 1 and sets exactly its loop's bit if it names one of them; any other changes nothing. |
| RoomHistory.InRoomIffJoinedLast | internal/room/manager.go:146-216 | After every history of creations, joins, leaves and cleanings of a new manager, a connection is in a room on a loop if and only if the key is valid and the last operation that named it there was a join. |
| Bitmaps.SetBitBits | internal/room/manager.go:166-170 | Or with the loop's mask sets that bit and no other. |
| Bitmaps.ClearBitBits | internal/room/manager.go:206-210 | And with the complement clears that bit and no other. |
| Bitmaps.DropLowestBit | internal/room/manager.go:261-265 | bitmap &= bitmap - 1 removes exactly the smallest element of the bit set, the one TrailingZeros64 names. |
| Bitmaps.TrailingZeros | internal/room/manager.go:262 | The index of the lowest set bit. |
| Bitmaps.SetBits | internal/room/manager.go:255-267 | The bit-clearing loop returns the set bits strictly ascending, each once; the number of bits left is its termination measure. |
| RoomManager.Manager.constructor | internal/room/manager.go:53-80 | A new manager with the number of loops asked for, at least one; more than 64 panic and are excluded. |
| RoomManager.Manager.Get | internal/room/manager.go:106-114 | Finds the room's object in its bucket, or nothing. |
| RoomManager.Manager.GetOrCreate | internal/room/manager.go:117-140 | Returns the object the table holds for the room, creating it when there is none. |
| RoomManager.Manager.AddConnInLoop | internal/room/manager.go:146-174 | The in-place update has exactly the effect of the specified join, on this room object alone; invalid arguments change nothing. |
| RoomManager.Manager.RemoveConnInLoop | internal/room/manager.go:180-216 | The in-place update has exactly the effect of the specified leave. |
| RoomManager.Manager.HasLocalRoom | internal/room/manager.go:219-226 | Answers from the counter as specified. |
| RoomManager.Manager.ConnCount | internal/room/manager.go:229-236 | Answers from the counter as specified. |
| RoomManager.Manager.ActiveLoopIndexes | internal/room/manager.go:249-268 | Strictly ascending, and exactly the loops whose shard is non-empty. |
| RoomManager.Manager.CleanBucket | internal/room/manager.go:330-346 | Removes exactly the evictable rooms of the bucket, in whatever order the map is ranged over. |
| RoomManager.Room.Add | internal/room/manager.go:157-173 | Shard, counters, bitmap and emptiness mark of the object after a join. |
| RoomManager.Room.Remove | internal/room/manager.go:199-215 | Shard, counters, bitmap and emptiness mark of the object after a leave. |
| RoomSteps.StepKeepsInv | internal/room/manager.go:155-215 | Every atomic step (map write, counter add, bitmap update, emptiness store) of every serial loop, and of the cleaner, keeps each room object exact up to what is in flight, whether or not the table still refers to it. |
| RoomSteps.ReachableStatesAreExact | internal/room/manager.go:155-215 | In every reachable state: the local count is never negative and is the sum of shard sizes corrected by each loop's operation in flight; a loop not at work on the room has exact shard count and bit; with nobody at work all is exact. |
| RoomSteps.ZeroHidesOnlyUncounted | internal/room/manager.go:163-164 | A local count of 0 hides exactly the connections written to a shard but not yet counted. |
| RoomSteps.DetachedStays | internal/room/manager.go:117-140 | An object the table has dropped never returns to it. |
| RoomAlone.SoloAdd | internal/room/manager.go:155-173 | The atomic steps of an uninterrupted Add amount to the sequential operation on the room object. |
| RoomAlone.SoloRemove | internal/room/manager.go:199-215 | So do those of an uninterrupted Remove. |
| RoomAlone.AddAlone | internal/room/manager.go:146-174 | From any reachable state an Add that runs alone has exactly the sequential effect on its room, and none on anything else. |
| RoomAlone.RemoveAlone | internal/room/manager.go:180-216 | So has a Remove that runs alone. |
| RoomAlone.CleanAlone | internal/room/manager.go:330-346 | A cleaner that nobody interrupts removes the room if and only if it counts no connection and its positive date is more than the limit ago, and changes nothing else. |
| RoomEviction.CanLoseIff | internal/room/manager.go:337-344 | A room due for eviction can lose a connection to the cleaner if and only if, when its count is loaded, some loop's Add has fetched the room or written its connection and not yet counted it. |
| RoomEviction.EvictionIsSafe | internal/room/manager.go:337-344 | Without such an Add, from the load on and for ever after the deletion the object has no connection and no Add in hand, whatever runs in between. |
| RoomEviction.UnseenAddIsLost | internal/room/manager.go:155-164 | With one, some run has the cleaner delete the room and the Add finish on the dropped object, which then holds its connection. |
| RoomEviction.LosingIsReachable | internal/room/manager.go:155-164 | Both losing situations are reachable from the empty manager, with one loop and at any idle time. |
| RoomIdle.NoRoomIsForgotten | internal/room/manager.go:212-215 | With one operation at a time on a loop index, as the documentation asks, and positive clock readings, in every interleaving: a room that ever had a connection, has none, and has nobody working on it carries a positive LastEmptyTime, so the cleaner will find it. RaceDates says what holds without that contract. |
| RoomIdle.TendedStays | internal/room/manager.go:155-215 | Under the same contract every step leaves such a room with a date, a connection, or somebody about to date it; the exact step without it is RaceDates.TendedAfter. |
| RoomIdle.DatesMeanEmpty | internal/room/manager.go:172-215 | In every run in which no Add clears the date while a Remove that saw a count of 0 has yet to store one, a date means that the only connections are those of Adds which have yet to clear it; at rest a room with a connection has LastEmptyTime 0. |
| RoomIdle.OvertakingDatesAConnection | internal/room/manager.go:172-215 | The converse: after any such overtaking the Remove's store leaves a positive date on a room that holds a connection. |
| RoomIdle.DatesOutliveReturns | internal/room/manager.go:173-215 | Such an overtaking is reachable: with two loops a room at rest has a connection and a date. |
| RoomIdle.ConnectedRoomIsDatedIff | internal/room/manager.go:172-215 | Under that contract and with positive clock readings, in every run: a room at rest with a connection has a date if and only if the last write of its LastEmptyTime was the store of a Remove that an Add had overtaken. |
| RoomIdle.ReachableStatesHold | internal/room/manager.go:155-173 | In every reachable state a connection stays in its shard while its Add is at work. |
| RoomRaces.PlayKeepsCounts | internal/room/manager.go:157-206 | Without the contract, with any number of operations at work on one loop index and a step of its own for the lookup before each write: every step keeps the counts exact up to what is in flight and what has slipped. A write slips when somebody has put its connection in or taken it out since its lookup. |
| RoomRaces.CountsExactIffSlipsCancel | internal/room/manager.go:157-206 | So at rest after every run LocalConnCount is the sum of the shard counts, each of these is off by the slips on its loop, and all are exact if and only if on every loop the slips cancel out. |
| RoomRaces.LookAndWrite | internal/room/manager.go:157-163 | A lookup and its write with nobody in between are the one step that the machine under the contract takes. |
| RoomRaces.ZeroHidesOnly | internal/room/manager.go:163-164 | A room holds a connection if and only if its count, plus the insertions in flight, less the deletions in flight, less the slips, is positive; so a count of at most 0 hides one only while some Add has written one and not yet counted it, or after more have slipped out of the count than into it. |
| RaceSlips.NothingSlips | internal/room/manager.go:157-163 | In every run without a conflict (two operations on one connection, both between lookup and write, not both Adds that had found it) nothing slips. |
| RaceSlips.ConflictCanSlip | internal/room/manager.go:157-163 | From any state with a conflict a slip is at most two steps away. |
| RaceSlips.WithoutConflict | internal/room/manager.go:155-215 | In every run without a conflict all counts are exact at rest, and the bitmap is exact if and only if on no loop the last update of the bit was stale. |
| RaceSlips.EmptiedRoomIsDatedWithoutConflict | internal/room/manager.go:199-215 | And in every such run in which no Remove deletes a connection whose Add is still at work, an emptied room at rest has a date. |
| RaceSlips.TwoAddsOverCount | internal/room/manager.go:157-173 | A run: two Adds of one connection both find it absent, and it leaves; at rest the room is empty, counts one connection, has its bit set and no date. |
| RaceSlips.WriteBackIsNotCounted | internal/room/manager.go:157-161 | A run: an Add finds its connection, a Remove deletes it and dates the room, the Add writes it back; at rest the room holds it under a count of 0 and a date. |
| RaceBitmap.BitmapExactIff | internal/room/manager.go:166-170 | Over every run of any number of operations on any loop indexes: at rest a loop's bit is right if and only if the last update of it was fresh and the slips do not mislead the loop's count, or it was stale and they do (stale: the count had crossed zero since the worker counted); the bitmap is exact if and only if that holds of every loop. |
| RaceBitmap.BitmapSurvivesFreshRuns | internal/room/manager.go:166-170 | In particular the bitmap is exact at rest in every run without a stale update and without a slip. |
| RaceBitmap.StaleStepBreaksTheBit | internal/room/manager.go:206-210 | Each stale update leaves the bit at odds with the loop's count, until a later one. |
| RaceBitmap.BitmapDoesNotSurvive | internal/room/manager.go:206-210 | And it can stay so: with two operations on one loop index a reachable state at rest has a connection on a loop that the bitmap does not name. |
| RaceDates.EmptyRoomIsDatedIff | internal/room/manager.go:172-215 | Without the contract, in every run with positive clock readings: a room at rest without a connection has a date if and only if, since a shard of it was written while nobody tended it, no step has forgotten it. A step forgets an empty room nobody else is about to date when an Add clears the date, or a Remove sees a count other than 0 and stores none. |
| RaceDates.TendedAfter | internal/room/manager.go:155-215 | The exact step: a room is left without a date, a connection and anybody about to date it exactly by a forgetting step, and only a write to a shard ends that. |
| RaceDates.EmptiedRoomIsDated | internal/room/manager.go:199-215 | In every run in which no Remove deletes a connection whose Add is still at work and in every state the slips have cancelled out, an emptied room at rest has a date. |
| RaceDates.DeletedUnderItsAddCanBeForgotten | internal/room/manager.go:163-173 | Wherever a Remove has deleted a room's last connection while its Add is written and unfinished, and nobody else is at work, some continuation ends at rest with the room empty and undated. |
| RaceDates.EmptiedRoomCanBeForgotten | internal/room/manager.go:163-215 | A run: with one loop, a Remove beside the Add of the same connection leaves an emptied room at rest without a date. |
| RaceDates.ConnectedRoomIsDatedIff | internal/room/manager.go:157-215 | Without the contract too: a room at rest with a connection has a date if and only if its last date was stored by a Remove that an Add had overtaken, or that saw a count of 0 after more had slipped out of the count than into it, or an Add has written a connection back since. |
| RaceDates.ShutRoomFillsIff | internal/room/manager.go:337-344 | What the cleaner relies on, without the contract: once no lookup reaches the room, it can come to hold a connection if and only if it holds one or an Add has fetched it; with a count of at most 0 it holds one only while some Add has written and not counted, or after more have slipped out of the count than into it. |
| RateLimiter.TokensAreTightestWindow | internal/app/app.go:119-130 | The tokens a call finds are the minimum, over all windows of calls ending with it, of what the window still has room for. |
| RateLimiter.DeniedIffSomeWindowIsFull | internal/app/app.go:132-136 | A message is denied if and only if some window ending now is already full. |
| RateLimiter.WindowBound | internal/app/app.go:109-137 | With a nondecreasing clock, rate >= 0 and capacity >= 1: in every window from call i to call j at most capacity + rate * (t_j - t_i) messages are allowed. |
| RateLimiter.BoundedIffCapacity | internal/app/app.go:117-123 | The window bound holds of all histories if and only if the capacity is at least 1: a first message passes whatever the capacity. |
| RateLimiter.OnlyTheFirstPasses | internal/app/app.go:117-136 | With a capacity below 1 a user's first message is the only one that passes. |
| RateLimiter.UsersAreIndependent | internal/app/app.go:115 | After any mixed history each user's bucket is that of the user's own calls alone. |
| RateLimiter.AnswersAreIndependent | internal/app/app.go:109-137 | The answer in a mixed history is the answer to the user's own calls alone. |
| RateLimiter.Limiter.Allow | internal/app/app.go:109-137 | The update of the shared table of buckets gives the specified answer and keeps the buckets those of the history. |
| Admission.AdmissionHolds | internal/server/event_handler.go:43-70 | In every interleaving of openers and closers the admitted never exceed MaxConns, the counter is the admitted plus the attempts in flight, and the heartbeat's map holds exactly the admitted but those it has evicted. |
| Admission.CountedExactlyOnce | internal/server/event_handler.go:92-100 | Every connection adds one to the counter and takes it back exactly once: by the compensation when rejected, by OnClose when admitted, evicted or not. |
| Admission.AdmittedIffRoomWhenAdded | internal/server/event_handler.go:46-49 | A connection is admitted if and only if, when it was added, the admitted plus the attempts in flight were fewer than MaxConns, whatever happens before it compares. |
| Admission.StepKeepsInv | internal/server/event_handler.go:43-100 | Each atomic step keeps counter and phases in agreement. |
| Admission.OvershootIsBounded | internal/server/event_handler.go:46-47 | The counter exceeds MaxConns by at most the attempts in flight. |
| Admission.CounterOvershoots | internal/server/event_handler.go:46-47 | The bound is attained: at every limit and for every n, a full node with n attempts in flight counts MaxConns + n. |
| Admission.RunKeepsInv | internal/app/app.go:310-328 | So does every run, with the heartbeat's delete and close interleaved. |
| Lifecycle.QuotaHolds | internal/app/app.go:141-163 | In every interleaving of the steps of joins and closes a user's live joined connections are at most the stored count, which is at most MaxConnsPerUser; the difference is exactly the number of joins counted that no live connection holds. |
| Lifecycle.LostStays | internal/app/app.go:394-405 | A join that no close can pay back any more (superseded, or missed by its close) holds its slot for ever. |
| Lifecycle.NothingLostIffTidy | internal/app/app.go:394-405 | At rest nothing is lost if and only if each connection has joined at most once and its close, if any, found the join's room in the context. |
| Lifecycle.TidyQuotaIsExact | internal/app/app.go:394-405 | So at rest every stored count is the number of live connections if and only if that holds. |
| Lifecycle.CloseFindsWrittenRoom | internal/server/event_handler.go:103 | OnClose finds a room in the context if and only if some join of the connection has written one. |
| Lifecycle.ClosedConnIsGoneIff | internal/server/event_handler.go:92-110 | Once its close is done and no join of it is at work, a connection is in no shard of any room if and only if no join of it was in hand when the close left or accepted since, every join put it in the room that OnClose had read, and, if there was a join, one had written LoopIdx when OnClose read that or its loop index is 0. |
| Lifecycle.OneRoomConnIsGoneIff | internal/server/event_handler.go:101-105 | If all joins of the connection named one room: it is gone if and only if no join was in hand when the close left or accepted since, and it never joined, or a join had written LoopIdx when OnClose read that, or its loop index is 0. |
| Lifecycle.TwoRoomsConnIsNeverGone | internal/server/event_handler.go:101-105 | A connection that its joins have put in two different rooms is never gone. |
| Lifecycle.StepKeepsFits | internal/app/app.go:399-405 | Every step keeps contexts, joins and closes in agreement. |
| Lifecycle.StepKeepsQuota | internal/app/app.go:141-163 | Every step keeps each stored count equal to the accepted joins that no close has paid back. |
| Lifecycle.StepKeepsPlaces | internal/app/app.go:399-405 | Every step keeps the rooms a connection is in determined by its own history. |
| Lifecycle.StepKeepsReads | internal/server/event_handler.go:101-105 | Every step keeps what OnClose has read tied to what the joins had written by then. |
| Lifecycle.SecondJoinLeaks | internal/app/app.go:394-405 | A run: two whole joins and a whole close leave the connection in the first room and a slot taken. |
| Lifecycle.OvertakenJoinStays | internal/app/app.go:399-405 | A run: a close between a join's context write and its room entry gives the slot back and leaves the connection in the room. |
| Lifecycle.UnnoticedJoinLeaks | internal/app/app.go:394-400 | A run: a close between a join's count and its write of the room leaves the slot taken by a connection that joined once. |
| Lifecycle.MisreadLoopStays | internal/server/event_handler.go:104 | A run: a close that reads LoopIdx between a join's write of the room and its write of LoopIdx looks on loop 0; the slot is given back, the join is done in time, and the connection stays in the room. |
| Lifecycle.JoinAlone | internal/app/app.go:364-412 | The steps of a join that nobody interrupts amount to the whole operation. |
| Lifecycle.CloseAlone | internal/server/event_handler.go:92-110 | So do those of a close. |
| Lifecycle.App.AddUserConn | internal/app/app.go:141-151 | Succeeds if and only if the stored count is below the limit, and then stores one more; otherwise changes nothing. |
| Lifecycle.App.RemoveUserConn | internal/app/app.go:154-163 | Counts one less, and forgets a user without connections. |
| Lifecycle.App.IsUserBanned | internal/app/app.go:535-544 | The search answers whether the user is on the list. |
| Lifecycle.App.OnOpen | internal/server/event_handler.go:52-67 | An admitted connection starts with an empty context. |
| Lifecycle.App.HandleJoinRoom | internal/app/app.go:364-412 | 401 exactly for a wrong token, 403 exactly for a right one with an invalid or banned user; an error changes nothing, and a success writes user, room and loop to the context and enters the room, as a join that runs alone. |
| Lifecycle.RefusalByCause | internal/app/app.go:373-400 | Each error code, and acceptance, both directions, by what is wrong with the join. |
| JoinChecks.JoinIsAcceptedIff | internal/app/app.go:373-400 | At every state of the machine: a join becomes a join at work if and only if its token is right or none is asked for, its user is positive and not banned, its room is positive and the user has a free slot; it then takes one slot of that user, and otherwise changes nothing. |
| JoinChecks.NobodyBannedJoins | internal/app/app.go:379-386 | In every interleaving no accepted join, and no context, names a banned user, and whoever is in a room has joined as somebody else. |
| Lifecycle.App.OnClose | internal/server/event_handler.go:92-110 | With a room and a user in the context: takes the connection out of that room on that loop and gives one slot back, forgetting a user without slots; otherwise leaves both alone; as a close that runs alone. |
| Loops.IndexesAreStableAndDense | internal/app/loop_registry.go:29-45 | Over any run, loop indexes are 0 to n - 1, one loop each, never change, and stay below the number of loops. |
| Loops.LoopRegistry.GetOrAssign | internal/app/loop_registry.go:29-45 | Returns the loop's index, assigning the next free one on first sight; a nil loop gets 0 and assigns nothing. |
| Loops.LoopDispatcher.Bind | internal/app/loop_dispatcher.go:53-62 | Records the loop under its index; a nil loop or negative index changes nothing. |
| Loops.LoopDispatcher.Dispatch | internal/app/loop_dispatcher.go:65-104 | Exactly the four error cases, a nil dispatcher first; every counted dispatch adds one to the counter of its own outcome, success, not bound or refused; a success runs on the loop bound. |
| Loops.ResolveLoopIdx | internal/app/app.go:547-561 | Keeps registry and dispatcher inverse to each other, so a task for the index returned runs on the connection's own loop; without connection, loop or registry the answer is 0 and nothing is recorded. |
| Broadcast.DecisionTiers | internal/broadcast/broadcaster.go:58-104 | Who is ignored, closed, skipped, echo-suppressed or written to, tier by tier in octets, both directions; the premium flag has no part in it, because the 512KB test subsumes the premium one. |
| Broadcast.BroadcastPartitions | internal/broadcast/broadcaster.go:32-54 | One broadcast treats every connection of the room in exactly one way, and the class sizes add up to the room's connection count. |
| Broadcast.ReachedCount | internal/broadcast/broadcaster.go:46-50 | The connections reached on the first n loops number the sum of those loops' shard counts. |
| Broadcast.ActiveLoopsSuffice | internal/broadcast/broadcaster.go:45-50 | Iterating only the loops whose bit is set reaches the same connections. |
| Broadcast.JoinsKeepOneShardEach | internal/room/manager.go:146-174 | Over every run of room operations in which each connection joins under its own loop index and its own handle, every room holds each connection in one shard under one key, as a broadcast assumes. |
| Broadcast.Broadcaster.SendToConn | internal/broadcast/broadcaster.go:58-104 | The inbox grows by exactly the frame if and only if the connection has a context and at most 512KB waiting, is not sampled out, and is not the sender; it is closed if and only if more than 4MB are waiting; the sender's inbox never changes. |
| Broadcast.SentIsTreated | internal/broadcast/broadcaster.go:70-103 | The same of the specified step, for every outcome. |
| Broadcast.Broadcaster.RangeLoopConns | internal/room/manager.go:292-299 | Treats each connection of one shard exactly once, in any order. |
| Broadcast.Broadcaster.BroadcastLocal | internal/broadcast/broadcaster.go:32-54 | Every connection of the room, and no other, is treated so exactly once, with a frame that reads back as a Binary frame with the message's payload; the skip counter rises by the number skipped; one dispatch is counted when the room exists. |
| BroadcastRace.EachEntryOnce | internal/broadcast/broadcaster.go:45-50 | Whatever joins and leaves run beside a broadcast: it treats an entry of a shard at most once for each time it has been there, and, when over, exactly once each that was there throughout. |
| BroadcastRace.EachConnectionOnce | internal/broadcast/broadcaster.go:45-50 | So, with joins under the connection's own loop index and handle, it calls sendToConn exactly once on a connection in the room throughout, at most once on one that only comes or only goes, and never on one that is not in the room. |
| BroadcastRace.ReturningEntryTwice | internal/room/manager.go:292-299 | The bound is attained: a connection that leaves after its turn and comes back is treated twice. |
| VideoSync.FateIsUnique | internal/common/types.go:71-123 | Over any history of arrivals, flushes and drops, each danmaku is in exactly one of delivered, dropped and buffered. |
| VideoSync.DeliveredWhenDueUnlessDropped | internal/common/types.go:80-123 | It is delivered at the first flush after its arrival whose visible time reaches it, unless dropped before; it is dropped only when maxSize later arrivals are still pending. |
| VideoSync.PendingAscending | internal/common/types.go:88-100 | The buffer keeps arrival order and holds nothing twice. |
| VideoSync.BatchAscending | internal/common/types.go:88-101 | Each batch keeps arrival order. |
| VideoSync.DropWithinLimit | _deprecated/edge/video_sync.go:91-95 | Calling DropOverflow only on an overfull buffer is the same as calling it always. |
| VideoSync.UserSession.OnDanmaku | internal/common/types.go:71-75 | Appends the arrival to buffer and history. |
| VideoSync.UserSession.FlushDueDanmaku | internal/common/types.go:80-102 | Returns exactly the buffer's danmaku whose video time has been reached and keeps the others, both in order, as the history prescribes. |
| VideoSync.SelectByTime | internal/common/types.go:88-98 | What a flush releases in the history is what its video times say. |
| VideoSync.UserSession.Partition | internal/common/types.go:88-98 | The loop splits the buffer into due and remaining, each in order. |
| VideoSync.UserSession.DropOverflow | internal/common/types.go:112-123 | Keeps the newest maxSize, and returns how many it dropped. |
| VideoSync.UserSession.Sync | _deprecated/edge/video_sync.go:85-95 | One session's part of a sync: the danmaku due reach the viewer as one batch, if there are any, and of the others the last maxBufferSize stay. |
| VideoSync.VideoSyncEngine.SyncRoom | _deprecated/edge/video_sync.go:71-96 | In a room with a positive video time every session is synced once at that time less the delay plus the session's own delta; other rooms are left alone. |
| VideoSync.VideoSyncEngine.Sync | _deprecated/edge/video_sync.go:67-98 | So for all rooms, whatever the order. |
| EdgeSessions.CreateKeepsMirror | _deprecated/edge/session.go:36-53 | Creating a session adds it to the user map and to its room's list unless the user has one, changes no other session, and keeps every list an exact, duplicate-free mirror of the user map. |
| EdgeSessions.RemoveKeepsMirror | _deprecated/edge/session.go:64-91 | Removing one takes exactly that user out of the user map and of the lists, and keeps the mirror. |
| EdgeSessions.WithoutMembers | _deprecated/edge/session.go:77-82 | The filter keeps exactly the other users' sessions, still without duplicates. |
| EdgeSessions.SessionManager.CreateSession | _deprecated/edge/session.go:36-53 | An existing user keeps the session; otherwise both maps gain it and the counters rise by one. |
| EdgeSessions.SessionManager.RemoveSession | _deprecated/edge/session.go:64-91 | Both maps lose the user's session; an emptied room is deleted; the active count stays exact. |
| EdgeSessions.SessionManager.GetRoomSessions | _deprecated/edge/session.go:94-101 | Exactly the user map's sessions for the room, each once. |
| EdgeSessions.Keep | _deprecated/edge/session.go:77-82 | The filtering loop. |
| EdgeQueue.EnqueueRefines | _deprecated/edge/broadcaster.go:70-82 | Queueing in 64 shards with truncation refines one list per room of which the last maxPendingPerRoom wait; the drop counter's rise is the overflow. |
| EdgeQueue.LossByRoom | _deprecated/edge/broadcaster.go:75-79 | The drop counter adds up, room by room, to what was sent and is not waiting. |
| EdgeQueue.SessionReadsBatch | _deprecated/edge/broadcaster.go:165-194 | What a session is sent is read back as precisely the batch without its own messages, in order. |
| EdgeQueue.OthersMembers | _deprecated/edge/broadcaster.go:183-188 | The messages left after echo suppression are exactly those without a sender or with another one. |
| EdgeQueue.EachReadsTheOthers | _deprecated/edge/broadcaster.go:155-194 | So a flush writes each session of the room once, and the session reads Binary frames with the payloads of the messages that its connection did not send, in order. |
| EdgeQueue.ForIsFilter | _deprecated/edge/broadcaster.go:70-82 | A room's list holds its own messages in the order in which they were sent. |
| EdgeQueue.LastIsNewest | _deprecated/edge/broadcaster.go:75-79 | What waits beyond the limit are the newest. |
| EdgeQueue.EdgeBroadcaster.constructor | _deprecated/edge/broadcaster.go:37-57 | Empty queues; a non-positive limit becomes the default. |
| EdgeQueue.EdgeBroadcaster.BroadcastLocal | _deprecated/edge/broadcaster.go:59-101 | The message joins its room's queue in its shard, the oldest overflow is dropped and counted; a nil message, or no batch interval, changes nothing. |
| EdgeQueue.LostSplitsByShard | _deprecated/edge/broadcaster.go:70-79 | The drop counter adds up over the shards as over the rooms. |
| EdgeQueue.ShardEmptied | _deprecated/edge/broadcaster.go:129-133 | Emptying one shard leaves the other shards' queues as they were prescribed. |
| EdgeQueue.EdgeBroadcaster.FlushShard | _deprecated/edge/broadcaster.go:128-137 | One shard: each of its rooms with messages since its last flush gets exactly the last min(n, maxPendingPerRoom) of them, in order, one write for each session without the session's own messages; the other shards keep theirs. |
| EdgeQueue.EdgeBroadcaster.FlushAll | _deprecated/edge/broadcaster.go:127-139 | The same for all shards, with any messages arriving between the locking of one shard and the next: a room gets what was queued until its own shard's turn, and exactly what came later stays queued. |
| EdgeQueue.QuietFlush | _deprecated/edge/broadcaster.go:127-139 | With nothing arriving, every room gets what had been queued and nothing stays. |
| EdgeQueue.EdgeBroadcaster.BroadcastBatch | _deprecated/edge/broadcaster.go:142-162 | One write for each session of the room; nothing for an empty batch. |
| EdgeQueue.EdgeBroadcaster.SendToSession | _deprecated/edge/broadcaster.go:165-194 | The shared fast path and the personal slow path send the same thing: the frames of the others' messages. |
| ReloadCache.UnchangedMeansCurrent | internal/filter/reloadable_filter.go:81-121 | Over every run, with the file changing between any two system calls: a poll that finds the stat unchanged implies the active list is the file's, if the file's history has no hazard. |
| ReloadCache.StaleIffHazard | internal/filter/reloadable_filter.go:81-121 | Exactly which file histories can leave a stale list behind an unchanged stat: those where a key comes back with other words than a load under it may have read, or where the zero key appears. |
| ReloadCache.IdentifyingKeysAreSafe | internal/filter/reloadable_filter.go:93 | If positions with equal keys enclose only one version, and no key is zero, no run goes stale. |
| ReloadCache.KeysForContentAreNotEnough | internal/filter/reloadable_filter.go:101-117 | That equal keys mean equal words is not enough: a file replaced between stat and read and then put back stays stale. |
| ReloadCache.OnlyReadsTouchTheCache | internal/filter/reloadable_filter.go:100-121 | Failed or missing loads leave list and key untouched; a load makes the list the file's and the key that of the stat before. |
| ReloadCache.UndisturbedPollCatchesUp | internal/filter/reloadable_filter.go:81-98 | One undisturbed poll brings the filter up to date with a readable file, except when the stat already looked unchanged. |
| ReloadCache.ReloadableFilter.constructor | internal/filter/reloadable_filter.go:24-30 | The fallback words are current, under the zero key. |
| ReloadCache.ReloadableFilter.LoadNow | internal/filter/reloadable_filter.go:47-56 | Fails exactly when a stat or read does, or the file is missing; otherwise takes the list read, whatever the key; does nothing without a path. |
| ReloadCache.ReloadableFilter.ReloadIfChanged | internal/filter/reloadable_filter.go:81-98 | For any answers of its system calls: a failed first stat is an error, a missing file there is none, and a key that looks unchanged ends the poll; otherwise the list read is taken under the key of the second stat. This is what the step machine does. |
| ReloadCache.ReloadableFilter.LoadLocked | internal/filter/reloadable_filter.go:100-121 | Likewise for the part under the lock, where a missing file is an error. |

## Left out

- The handshake (request parsing, SHA-1, base64): the stream model starts when it is done, and the bytes after its blank line are discarded by the code (internal/server/event_handler.go:137).
- Text and Pong frames are decoded and then ignored, as in the code; protobuf payloads are opaque.
- Traffic.Traffic: a closed connection gets no further callback, as gnet promises.
- gnet, ants, Kafka, Consul and Etcd, HTTP, metrics and logging: AsyncWrite, Close and Submit are recorded effects that the caller sees succeed.
- RateLimiter.Limiter.Allow: the float64 tokens are integers, which is exact below 2^53.
- Widths of atomic.Int32, atomic.Int64 and int are not modelled in counters; the numbers of connections and messages stay far below them. Widths in the frame codec and in the room hash are modelled.
- Memory order: each atomic operation, each map write and each lookup is one step of a sequentially consistent machine; that Go's runtime may stop the program on two unsynchronized accesses to one shard map is not modelled.
- ServerFrames.BuildServerFrame: requires a four-bit opcode and a payload below 2^63 octets, which constants and Go's slice lengths guarantee.
- Lifecycle.App: represents the room manager by its flat membership, whose agreement with the real table is RoomsFlat.RunRefines; entering and leaving a room are one step each there, because each changes the membership at one point, its write; their other steps are those of RoomSteps and RoomRaces.
- Lifecycle.CloseAfter: OnClose's test of RoomID and UserID is one step; a join writes UserID before RoomID, so the second half never decides.
- RoomSteps.AdvanceOn: the lookup of a connection and the write it decides on are one step under the documented contract, where nobody else writes the loop's shard; RoomRaces makes them two.
- Broadcast.Broadcaster.BroadcastLocal: takes shard i as it is when the loop comes to it; shards that change while they are ranged over are the subject of BroadcastRace. It requires each connection to sit in one shard under one key, as runs of joins under stable loop indexes do (Broadcast.JoinsKeepOneShardEach).
- EdgeQueue.EdgeBroadcaster.BroadcastLocal: requires a room ID whose remainder modulo 64 is not negative, because Go's negative remainder would index outside the shards.
- EdgeQueue.EdgeBroadcaster.FlushAll: the sessions of the node do not change during one flush.
- EdgeQueue.EdgeBroadcaster.SendToSession: returns the octets that the commented-out AsyncWrite would send; no octets stands for no write.
- VideoSync.VideoSyncEngine.Sync: delivery is a list of batches kept by the session, because onDueDanmakus is empty in the code; RoomMap.connCount is not modelled.
- ReloadCache: a read sees one version of the file, so a read torn by an in-place rewrite counts as a version of its own only if the history lists it; word parsing is a function of the version.
- RangeShardInLoop, RangeLoopConns on an out-of-range loop, LoopCount and the other getters: easy members.
- Kicking, system messages, chat handling, consumer retries, configuration, StaticRegistry, SimpleFilter: easy members, or calls into libraries.
- Sampler, HotDetector and RoomRouter: random thresholds, or no invariant to keep.
- FNV: only determinism and range of the bucket index matter, although the hash is written out.
- OnOpen without an application and nil receivers: the guards return at once.
