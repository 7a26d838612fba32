# CycFlow, verified

A Dafny model of the CycFlow core library: the ring-buffer pipeline with its
concurrent writers and readers, the record schema with its text form, the .cbf
file, the TCP relay, and the envelope loop of the chart. `dafny verify
dfyconfig.toml` checks the whole project.

## How it is built

**The ring, layer by layer.** `Ring.dfy` holds the index arithmetic of the
circular buffer as functions on a value and proves what they mean: an
overwrite-oldest window over everything ever pushed. `CircularBuffer.dfy` is the
class over an array, each method proved to compute those functions.
`Chunks.dfy` relates a ring of records to the ring of bytes it is laid over;
`ChunkBuffer.dfy` and `RecBuffer.dfy` are the classes on top, with a ghost
`history` of every record ever pushed. A push longer than the capacity is cut
before its tail is computed while the lifetime count grows by all of it, so
"record p lies in slot p mod capacity" is not an invariant; the ghost ring
carries the phase instead, and `OversizedPushPhase` says when it shifts.

**The pipeline as a protocol.** `Pipeline.dfy` is a step relation: any number of
writers and readers on one ring, one action for one critical section or one
atomic access of one thread, everything else free to run between two of them.
`RecordWriter`, `RecordWriterZC`, `RecordReader` and `RecordReaderZC` are its
four kinds of participant, with explicit program counters. `PipelineWriters.dfy`
and `PipelineReaders.dfy` give the invariant of one writer and one reader,
`PipelineTheorems.dfy` the results over whole runs, `PipelineBatches.dfy` what the
consumers are handed, call by call, and what a reader may skip,
`PipelineDraining.dfy` what
`finish()` guarantees, `PipelineProgress.dfy` who can always move on and who never
does again, `PipelineJoin.dfy` when `finish()` returns to the consumer itself,
`PipelineFlush.dfy` that `flush()` and the destructor of a blocking writer always
have a way to return, `PipelineBound.dfy` how far several writers can get ahead, `PipelineLimits.dfy`
exactly when a reader can be overrun, `PipelinePinned.dfy` exactly when the memory
of a zero-copy batch can be.
`PipelineBuffers.dfy` shows that the steps read the ring as the class `RecBuffer`
does. `RecordWriter.dfy` and `RecordReader.dfy` hold the classes with their two
buffers in memory and tie each critical section to the step it is.

**The schema.** `Types.dfy`, `PReg.dfy`, `Decimal.dfy`, `PAttr.dfy`,
`RecRule.dfy`, `RecordBits.dfy` cover the registry, the fields and their bits,
the layout and its lookup tables, and bit access; `SchemaText.dfy` and
`SchemaRoundTrip.dfy` the printer, the parser and their round trip, and
`SchemaConverse.dfy` what the parser can give at all and exactly which rules come
back.

**On top.** `Wire.dfy` is the byte order of packed headers (least significant
byte first), `Cbf.dfy` and `CbfReader.dfy` the file as a byte sequence with a
position, `TcpRelay.dfy` the request/response loop over two byte streams,
`Envelope.dfy` the per-pixel reduction over the reals. `Helpers.dfy` has the few
facts that several modules use.

## Where the code and its documentation part

- The documentation of `blockOnFull` promises that with blocking writers readers
  see every record. With one writer that is a theorem (`ExactlyOnce`,
  `NoOverrun`). With more it is false, whatever the capacity and the start: each
  writer checks for space and pushes in two critical sections, so an overrun can
  happen exactly when there are at least two (`OverrunIffSeveralWriters`; the
  writers have room for a record, and the ring has a free slot or every reader can
  read). What holds for W writers with batches of at most b records is a bound of
  one capacity and W - 1 chunks, a chunk being the smaller of b and the capacity
  (`SharpBackpressure`), and for every W and b it is reached (`BoundIsReached`).
- The documentation of `RecordReaderZC` says that the writer cannot overwrite the
  memory of a batch that is held. That is so next to one blocking writer
  (`PinnedMemory`), and exactly then: with two writers, or with one that does not
  block, some run overwrites it (`OverwriteIff`).
- `RecordReader::finish` joins the worker, and the worker waits for its last block
  to be taken. Called by the consuming thread it returns exactly when no block is
  ready and nothing is left to read (`FinishReturnsIff`, `EndIff`).
- A reader that was told to finish and has stopped stays registered until it is
  destroyed. A writer that blocks behind it waits for ever
  (`NoSpaceEverAgain`), and with one writer nothing is written any more
  (`WritingStops`). `ProgressAtZeroSpace` says exactly when the reader a writer
  waits for can still move.
- `init` accepts two fields with one id, although lookups by id then find only the
  last of them. A bit named in an earlier one is taken from there: it can be a
  bit of another field, of one with another id too, or lie outside the record
  (`SharedFieldIdAliases`, `WiderFieldReachesNeighbour`, `WiderFieldLeavesRecord`).
  `ReachableIff`, `InterfereIff`, `SpotsMeetIff`, `KeepsToIff` say exactly when,
  and `AllKeepIff` that all named bits behave exactly when every field that names
  one is the last with its id.
- A rule is documented to round-trip through text. Its fields come back exactly
  when each of them is printable (`RoundTripIff`): no `;` and no line break in its
  name, which is not `TimeStamp` (init accepts such a field, fromText drops it); a
  type other than Void; no `;`, `,` or line break in the name of a bit; and no
  carriage return at the end of the printed line, which can only come from the
  name of the last bit of a full bit table. `SeparatorIsLost`,
  `SecondStampIsLost`, `VoidIsLost` and `ReturnIsLostAtEnd` are instances.
- The text does not say that a rule is aligned, so the padding at the end does not
  come back; `SizeSurvives` says exactly when the size does, and a rule comes back
  whole exactly when it is packed and printable (`WholeRoundTripIff`). The same
  condition decides whether a file reads back (`RuleReadsBack`) and whether the
  two ends of a relay agree (`NegotiatedSize`).
- A number among the bit definitions of a field skips that many bits, and a skip
  past the end is an error. The sum is taken in 64 bits: a number near 2^64 wraps,
  moves the position back and lets a bit be named twice (`SkipGoesRound`). Without
  such a number the definitions are accepted exactly when they fit
  (`PlaceAllIff`).
- The type Void prints but does not parse; every other type does
  (`TypeRoundTrip`).
- A data section at the very start of a file is never patched with its length
  (`PatchedIff`), an empty data section hides the ones after it (`AllDelivered`), and a
  body that is not whole records is never finished (`PartialRecordNeverEnds`).
- `nextBatch(0)` of either reader returns an invalid batch although data remains
  (`EmptyBatch`, `EmptyRequest`), so an invalid batch means the end for calls that
  ask for something. A `RecordReaderZC` call that was overrun, skipped ahead and
  was overrun again before its second try also returns one (`OverrunTwice`).

## Model

| member | source | states |
|---|---|---|
| Rings.PushManyContents | CycLib/Core/CircularBuffer.h:155-178 | after a block push of any length the buffer reads as the newest elements of its contents followed by the block, oldest first |
| Rings.PushBackContents | CycLib/Core/CircularBuffer.h:323-338 | one push_back drops the oldest element only when the buffer is full |
| Rings.PushManyIsFold | CycLib/Core/CircularBuffer.h:155-178 | one block push reads the same as pushing its elements one by one, also beyond the capacity and round the end |
| Rings.PushManyIsFoldPhysically | CycLib/Core/CircularBuffer.h:155-178 | a block that fits leaves the same array, head and size as pushing its elements one by one |
| Rings.OversizedPushPhase | CycLib/Core/CircularBuffer.h:158-164 | for a block longer than the capacity the head agrees with the one-by-one push exactly when the cut is a whole number of capacities |
| Rings.PushFits | CycLib/Core/CircularBuffer.h:171-177 | a block that fits leaves the head where it is and is appended |
| Rings.PopManyContents | CycLib/Core/CircularBuffer.h:376-387 | pop_many removes exactly the front |
| Rings.TwoReads | CycLib/Core/CircularBuffer.h:192-198 | the two copies of a read, up to the end and from the start of the array, give the slice of the contents |
| Rings.RunRead | CycLib/Core/DynamicChunkBuffer.h:120-129 | a stretch that does not go round the end is one slice of the array |
| Rings.PushKeepsHistory | CycLib/Core/DynamicChunkBuffer.h:69-73 | a ring that shows the newest part of a history shows the newest part of the extended history after a push |
| Rings.PushKeepsUnread | CycLib/Core/CircularBuffer.h:155-178 | a push of at most capacity minus unread elements neither moves nor overwrites anything from the first unread position on |
| Rings.PushOverwritesBeyondUnread | CycLib/Core/CircularBuffer.h:155-178 | with one element more the slot of the first unread position holds the new data |
| Buffers.Reduce | CycLib/Core/CircularBuffer.h:164-174 | an index that went round at most once is reduced modulo the capacity |
| Buffers.CircularBuffer.constructor | CycLib/Core/CircularBuffer.h:66-67 | an empty buffer of the capacity asked for |
| Buffers.CircularBuffer.CopyAround | CycLib/Core/CircularBuffer.h:165-169 | the two chunk copies write the block from the tail on, round the end |
| Buffers.CircularBuffer.PushMany | CycLib/Core/CircularBuffer.h:155-178 | the array, head and size become those of the block push on values; nothing else changes |
| Buffers.CircularBuffer.PeekManyAt | CycLib/Core/CircularBuffer.h:186-199 | returns the asked slice of the contents |
| Buffers.CircularBuffer.EmplaceBack | CycLib/Core/CircularBuffer.h:323-338 | the new state is that of push_back on values |
| Buffers.CircularBuffer.PopMany | CycLib/Core/CircularBuffer.h:376-387 | the contents lose exactly their first elements |
| Buffers.CircularBuffer.PopFront | CycLib/Core/CircularBuffer.h:340-345 | the contents lose their first element |
| Buffers.CircularBuffer.PopBack | CycLib/Core/CircularBuffer.h:347-352 | the contents lose their last element |
| Buffers.CircularBuffer.Clear | CycLib/Core/CircularBuffer.h:367-374 | nothing is left |
| Buffers.CircularBuffer.Reserve | CycLib/Core/CircularBuffer.h:303-321 | the contents are kept, the capacity grows to the one asked for and never shrinks |
| Buffers.Regrown | CycLib/Core/CircularBuffer.h:308-314 | moving the two stretches of a ring into a larger empty one keeps the contents and starts at index 0 |
| Chunks.HoldsSameRecords | CycLib/Core/DynamicChunkBuffer.h:69-84 | bytes read as records of a size determine the records |
| Chunks.PushScale | CycLib/Core/DynamicChunkBuffer.h:69-73 | pushing whole records on the byte ring is pushing them on the record ring; head and size stay multiples of the record size, so no record is ever split |
| Chunks.ContentsScale | CycLib/Core/DynamicChunkBuffer.h:138-139 | the bytes in the byte ring are the records in the record ring |
| Chunks.RunIsContiguous | CycLib/Core/DynamicChunkBuffer.h:120-129 | a run of records below the end of the array is one contiguous byte range holding them |
| Chunks.SameSlotsSameBytes | CycLib/Core/DynamicChunkBuffer.h:69-73 | slots that hold the same records are the same bytes |
| ChunkBuffers.DynamicChunkBuffer.constructor | CycLib/Core/DynamicChunkBuffer.h:42-49 | an empty history over a ring of the capacity and chunk size asked for |
| ChunkBuffers.DynamicChunkBuffer.Init | CycLib/Core/DynamicChunkBuffer.h:56-62 | the same, on a fresh ring |
| ChunkBuffers.DynamicChunkBuffer.Push | CycLib/Core/DynamicChunkBuffer.h:69-73 | the history grows by exactly the records pushed and the ring shows its newest part |
| ChunkBuffers.DynamicChunkBuffer.Size | CycLib/Core/DynamicChunkBuffer.h:138 | the number of records in the window, the smaller of history and capacity |
| ChunkBuffers.DynamicChunkBuffer.ReadAt | CycLib/Core/DynamicChunkBuffer.h:81-84 | copies the asked records of the window |
| ChunkBuffers.DynamicChunkBuffer.GetChunkPtr | CycLib/Core/DynamicChunkBuffer.h:91-101 | a chunk is never split and the memory at the pointer is the record |
| ChunkBuffers.DynamicChunkBuffer.GetBatchPtr | CycLib/Core/DynamicChunkBuffer.h:120-129 | a run that starts at the asked chunk and is as long as asked for, available and in one piece; the memory at the pointer holds its records |
| RecBuffers.Lag | CycLib/Core/RecBuffer.cpp:42 | an unsigned lag; a cursor in the future comes out as more than any buffer holds |
| RecBuffers.SpaceFor | CycLib/Core/RecBuffer.cpp:178-187 | space that, written, leaves the slowest cursor at most one capacity behind |
| RecBuffers.RecBuffer.constructor | CycLib/Core/RecBuffer.cpp:15-25 | empty history, no clients, phantom cursor 0 |
| RecBuffers.RecBuffer.Push | CycLib/Core/RecBuffer.cpp:29-35 | the history grows by exactly the records pushed |
| RecBuffers.RecBuffer.ReadFromGlobal | CycLib/Core/RecBuffer.cpp:37-49 | exactly the history slice at the cursor, or nothing when the cursor is outside the window |
| RecBuffers.RecBuffer.GetBatchPtrFromGlobal | CycLib/Core/RecBuffer.cpp:51-66 | a pointer exactly when the cursor is inside the window, to memory holding the history slice at the cursor; empty only for an empty request |
| RecBuffers.RecBuffer.ReadRelative | CycLib/Core/RecBuffer.cpp:68-71 | the asked records of the window |
| RecBuffers.RecBuffer.ProcessRecord | CycLib/Core/RecBuffer.cpp:73-88 | the visitor sees the record at the index, or none past the end |
| RecBuffers.RecBuffer.AddClient | CycLib/Core/RecBuffer.cpp:128-133 | a client is registered at most once, after the others |
| RecBuffers.RecBuffer.RemoveClient | CycLib/Core/RecBuffer.cpp:135-146 | the registered client is cut out of the list at its index, so the others keep their order; an unknown one changes nothing |
| RecBuffers.RecBuffer.SpaceBehind | CycLib/Core/RecBuffer.cpp:178-187 | the space that a count and a smallest cursor leave, none for a full buffer and all of it for a cursor in the future |
| PipelineBuffers.BehindIsLag | CycLib/Core/RecBuffer.cpp:42-45 | the lag of the step relation and the unsigned lag agree on every test made of them, and are equal for a cursor not in the future |
| PipelineBuffers.SameRead | CycLib/Core/RecBuffer.cpp:37-49 | the read of a step gives the records readFromGlobal copies, and none exactly when that finds none |
| PipelineBuffers.SameRun | CycLib/Core/RecBuffer.cpp:51-66 | the run a step pins is as long as the batch getBatchPtrFromGlobal gives and lies at the same slot |
| PipelineBuffers.ReadStepBytes | CycLib/RecordReader.cpp:184-189 | the bytes the worker's copy finds in a buffer hold the records of the read step |
| RecBuffers.RecBuffer.CalculateMinReadCursor | CycLib/Core/RecBuffer.cpp:189-204 | the smallest cursor of a registered reader, or the last such one when there is none |
| RecBuffers.RecBuffer.GetAvailableWriteSpace | CycLib/Core/RecBuffer.cpp:148-187 | writing that many records overwrites nothing a registered reader has yet to read |
| PipelineWriters.WriterStep | CycLib/RecordWriter.cpp:70-264 | every step of a writer keeps its invariant, and pushed, unpushed and accepted records add up in order |
| PipelineWriters.WritersWrite | CycLib/RecordWriter.cpp:185-264 | a step of one writer keeps the invariant of all of them on the shared history |
| PipelineWriters.BoundedWrite | CycLib/RecordWriter.cpp:220-243 | a step of one blocking writer keeps every other writer's own unread share within a capacity |
| PipelineReaders.GatherWhole | CycLib/RecordReader.cpp:160-206 | blocks that leave no gap are together one slice of history |
| PipelineReaders.ReadIsSlice | CycLib/Core/RecBuffer.cpp:37-49 | what a range read copies is the history slice at that position |
| PipelineReaders.ReadStep | CycLib/RecordReader.cpp:160-189 | the copy is in range although pushes may land after the snapshot |
| PipelineReaders.StoreStep | CycLib/RecordReader.cpp:191-206 | skipped positions are counted when the cursor is stored, so a failed read retries from the old cursor |
| PipelineReaders.PinnedSlice | CycLib/RecordReaderZC.cpp:108-139 | a zero-copy batch is the history slice at the cursor at the moment its pointer is taken |
| PipelineReaders.SkipStep | CycLib/RecordReaderZC.cpp:111-127 | an overrun moves cursor and pinned end together to the oldest record |
| PipelineReaders.ReaderMoves | CycLib/RecordReaderZC.cpp:58-139 | no step takes back what was delivered or moves a cursor back |
| PipelineReaders.ReaderStep | CycLib/RecordReader.cpp:82-212 | every step of a reader of either kind keeps its invariant and no read leaves its range |
| PipelineReaders.HeldFront | CycLib/RecordReader.cpp:123-127 | a batch off the front of the active buffer, followed by what is still held, is what was held before |
| PipelineTheorems.InvStep | CycLib/RecordWriter.cpp:185-264 | the invariant of the whole system is kept by every action of every thread |
| PipelineTheorems.RunExtends | CycLib/RecordReaderZC.cpp:58-139 | over any run history only grows, and no cursor and no delivered sequence ever goes back |
| PipelineTheorems.MultiProducer | CycLib/RecordWriter.cpp:185-264 | with any number of writers, blocking or not, history is an interleaving whose projection to each writer is a prefix of what it committed, and the rest is still with the writer, in order |
| PipelineTheorems.FlushDelivers | CycLib/RecordWriter.cpp:170-181 | when flush returns, and after the destructor, everything the writer committed is in history |
| PipelineTheorems.CommitDelivers | CycLib/RecordWriterZC.cpp:75-109 | between the commits of a RecordWriterZC everything it committed is in history |
| PipelineFlushes.PushesMore | CycLib/RecordWriter.cpp:222-243 | a blocking writer in the middle of a block, whatever the others are doing, gets a further chunk in when the readers, alive, read on |
| PipelineFlushes.FlushReturns | CycLib/RecordWriter.cpp:170-181 | from any state of a blocking writer with live readers a call of flush has a way to return, with nothing left to push |
| PipelineFlushes.DestructorReturns | CycLib/RecordWriter.cpp:39-54 | from any point of any run with live readers the destructor of a blocking writer has a way to return, its worker gone and everything it committed in the history, in order |
| PipelineTheorems.NeverAborts | CycLib/RecordWriter.cpp:225-236 | the exit of the space wait that would drop the rest of a block is never taken |
| PipelineTheorems.ReaderAccounts | CycLib/RecordReader.cpp:160-206 | next to any writers, what a reader delivered and holds are whole history slices in increasing order, and together with the skipped count they account for every position up to its frontier |
| PipelineTheorems.ReadsStayInRange | CycLib/Core/CircularBuffer.h:186-190 | the range assertion of a read holds at every read of every interleaving |
| PipelineTheorems.OwnShare | CycLib/RecordWriter.cpp:222-243 | each blocking writer keeps its own unread records plus its promised chunk within one capacity |
| PipelineTheorems.Backpressure | CycLib/RecordWriter.cpp:222-243 | with W blocking writers unread records plus all promised chunks stay within W capacities |
| PipelineTheorems.ExactlyOnce | CycLib/RecordReader.cpp:82-209 | with one blocking writer, what each reader delivered and holds is one slice of the earlier history followed by what the writer committed: nothing lost, doubled, reordered or skipped |
| PipelineBatches.TakeHands | CycLib/RecordReader.cpp:119-129 | the batch a call returns, as many as asked for and there, is what delivered gains; followed by what is still held it is what was held before |
| PipelineBatches.PointerHands | CycLib/RecordReaderZC.cpp:108-139 | the memory a zero-copy pointer points to is the history at the cursor, up to where the next release moves it, and is what delivered gains |
| PipelineBatches.StepHands | CycLib/RecordReader.cpp:102-130 | in any step of any thread delivered grows by exactly what was handed to the consumer |
| PipelineBatches.BatchesAreDelivered | CycLib/RecordReader.cpp:102-130 | over a whole run the batches handed out, joined, are what was delivered |
| PipelineBatches.BatchesExactlyOnce | CycLib/RecordReader.cpp:102-130 | next to one blocking writer the batches handed out, joined and followed by what is still held, are one slice of the earlier history followed by what the writer committed |
| PipelineBatches.SnapshotRange | CycLib/RecordReader.cpp:160-177 | the worker fetches from the cursor, or from the oldest record there is when the cursor is further back, up to the write head or a full batch; nothing exactly when the cursor is at the head |
| PipelineBatches.ReadWhole | CycLib/RecordReader.cpp:184-189 | the copy is the whole range, or nothing exactly when its start has left the ring since |
| PipelineBatches.ProbeSkips | CycLib/RecordReaderZC.cpp:111-127 | a zero-copy reader skips exactly when its position has left the ring, and then to the oldest record |
| PipelineBatches.RunSkipsGone | CycLib/RecordReader.cpp:160-206 | over any run next to any writers, every position a reader passed was taken or had left the ring |
| PipelineBatches.CallTakes | CycLib/RecordReaderZC.cpp:69-139 | a call that finds data hands out the history at the cursor, as long as asked for, available and in one piece of the array |
| PipelineBatches.OverrunCallTakes | CycLib/RecordReaderZC.cpp:108-139 | a call that was overrun does the same at the oldest record |
| PipelineTheorems.NoOverrun | CycLib/RecordReader.cpp:166-175 | next to one blocking writer no cursor ever leaves the window, so both overrun branches are dead |
| PipelineTheorems.PinnedMemory | CycLib/RecordReaderZC.cpp:58-139 | with one blocking writer, from nextBatch until release no step of anyone changes the slots of the batch, which stay the history slice at the cursor |
| PipelineTheorems.PinnedBytesStay | CycLib/RecordReaderZC.cpp:133-139 | the same for the bytes of the array the records lie in |
| PipelineLimits.OverrunIffSeveralWriters | CycLib/RecordWriter.cpp:222-243 | from any start of any capacity, history and set of readers, some run of blocking writers overruns a reader exactly when there are at least two of them |
| PipelineLimits.SeveralWritersLose | CycLib/RecordWriter.cpp:222-243 | the run: one writer fills the ring to one free slot, two find that slot, both push |
| PipelineLimits.AtMostOneWriterKeeps | CycLib/RecordWriter.cpp:222-243 | with at most one writer no run overruns any reader |
| PipelineBounds.SharpStep | CycLib/RecordWriter.cpp:222-243 | every action keeps that, beyond the latest look that found space, no writer has more than one chunk, and the one that looked stays within a capacity of the slowest reader |
| PipelineBounds.SharpBackpressure | CycLib/RecordWriter.cpp:222-243 | with W blocking writers and batches of at most b, unread records and promised chunks stay within one capacity and W - 1 times the smaller of b and the capacity |
| PipelineLimits.BoundIsReached | CycLib/RecordWriter.cpp:222-243 | for any number of blocking writers that can commit b at a time, a run reaches exactly that bound |
| PipelinePins.OverwriteIff | CycLib/RecordReaderZC.h:23-27 | from any start some run changes the memory of a batch while it is held, exactly when there are two writers or one that does not block |
| PipelinePins.TwoWritersOverwrite | CycLib/RecordWriter.cpp:222-243 | the run of two blocking writers: the reader takes its batch between their two pushes |
| PipelinePins.RusherOverwrites | CycLib/RecordWriter.cpp:211-213 | the run of a writer that does not block |
| PipelinePins.NeverOverwritten | CycLib/RecordReaderZC.h:23-27 | no run of at most one writer, a blocking one, does |
| PipelinePins.OverrunIff | CycLib/RecordWriter.cpp:211-243 | a reader can be overrun under the same condition |
| PipelineDraining.EmptySwap | CycLib/RecordReader.cpp:82-100 | a swap brings an empty buffer exactly at the end of the stream |
| PipelineDraining.FinishDrains | CycLib/RecordReader.cpp:60-80 | next to any writers, when the consumer of a RecordReader is told there is nothing left after finish, everything written before the call was delivered or counted as skipped, and all of it delivered when nothing was skipped |
| PipelineDraining.EmptyBatch | CycLib/RecordReader.cpp:102-130 | a waiting call returns no record exactly at the end of the stream or when it asked for none |
| PipelineDraining.FinishDrainsBatch | CycLib/RecordReader.cpp:102-130 | the drain guarantee for the first invalid batch of a waiting call that asks for at least one record |
| PipelineDraining.FinishDrainsZeroCopy | CycLib/RecordReaderZC.cpp:48-106 | the drain guarantee for the first empty batch of a waiting RecordReaderZC call that asks for something, next to any writers; the accounting with skips has one exception, a second try after a skip |
| PipelineDraining.OverrunTwice | CycLib/RecordReaderZC.cpp:111-131 | that exception happens exactly when the writer has passed the new cursor as well, or nothing was asked for |
| PipelineDraining.OneWriterNeverSkips | CycLib/RecordReader.cpp:166-175 | next to one blocking writer nothing is ever skipped |
| PipelineDraining.FinishDrainsOneWriter | CycLib/RecordReader.cpp:60-80 | so there finish on a RecordReader delivers everything written before it |
| PipelineDraining.FinishDrainsZeroCopyOneWriter | CycLib/RecordReaderZC.cpp:48-106 | and so does finish on a RecordReaderZC |
| PipelineDraining.EmptyRequest | CycLib/RecordReaderZC.cpp:108-131 | a waiting call that found data gets no pointer exactly when it asked for nothing |
| PipelineProgress.CatchUp | CycLib/RecordReader.cpp:132-212 | a running reader, finishing or not and whatever it is in the middle of, reaches the write head or its target by finitely many own steps, each enabled |
| PipelineProgress.FinishCompletes | CycLib/RecordReader.cpp:132-212 | a reader told to finish comes to its end, stopped, with everything handed over and at rest for good, by finitely many own steps |
| PipelineProgress.EndsForGood | CycLib/RecordReader.cpp:142-156 | a reader at its end is at rest there in every later state of any run |
| PipelineProgress.AdvanceIff | CycLib/RecordReader.cpp:132-212 | a reader that is behind can move its cursor exactly when a condition on where it stands, readable before any step, holds |
| PipelineProgress.AtRestIff | CycLib/RecordReader.cpp:135-156 | between calls that condition is that it runs and has not reached its target |
| PipelineProgress.ProgressAtZeroSpace | CycLib/Core/RecBuffer.cpp:153-204 | when a blocking writer sees no space, a slowest reader is behind, and each such reader can move exactly when it runs and is short of its target |
| PipelineJoins.EndIff | CycLib/RecordReader.cpp:132-212 | after finish the worker ends by its own steps, nobody taking a block, exactly when it has no block in hand and, where it stands, none to come |
| PipelineJoins.FinishReturnsIff | CycLib/RecordReader.cpp:60-80 | called by the consumer while the worker waits, finish returns exactly when no block is ready and nothing is left to read |
| PipelineJoins.JoinWaits | CycLib/RecordReader.cpp:135-156 | with a block ready and nobody to take it the worker never ends, whatever is written meanwhile |
| PipelineProgress.StaysGone | CycLib/RecordReader.cpp:142-156 | a stopped reader that is in the middle of nothing never moves its cursor again, in any run, told to finish again or not |
| PipelineProgress.NoSpaceEverAgain | CycLib/Core/RecBuffer.cpp:153-187 | once such a reader is a capacity behind, no writer that looks finds space, ever |
| PipelineProgress.WritingStops | CycLib/RecordWriter.cpp:222-236 | and with one blocking writer the history never grows again |
| RecordWriters.StampOnce | CycLib/RecordWriter.cpp:74-77 | nothing but the stamp ever changes, and once it is set it stays |
| RecordWriters.ZeroStampIs | CycLib/RecordWriter.cpp:74-75 | a stamp counts as missing exactly when the eight bytes, read as a number, are 0 but for the sign |
| RecordWriters.StampIs | CycLib/RecordWriter.cpp:74-77 | a record with a stamp is kept; one without gets the clock reading, and nothing else of it changes |
| RecordWriters.StampAllIs | CycLib/RecordWriter.cpp:109-115 | the same for each record of a block with its own clock reading |
| RecordWriters.NoneUnstamped | CycLib/RecordWriter.cpp:106-133 | unless the clock reads zero no committed record is without a stamp |
| RecordWriters.ClearedHasNone | CycLib/RecordWriter.cpp:93-97 | slots as they are handed out have no stamp |
| RecordWriters.RecordWriter.constructor | CycLib/RecordWriter.cpp:25-33 | two distinct buffers, nothing committed |
| RecordWriters.ClassStepLifts | CycLib/RecordWriter.cpp:137-257 | a class step of a writer that pushes nothing is a step of the whole pipeline that changes that writer only |
| RecordWriters.RecordWriter.ClearSlots | CycLib/RecordWriter.cpp:94-103 | hands out slots of zero bytes; nothing committed or under way changes |
| RecordWriters.RecordWriter.NextBatch | CycLib/RecordWriter.cpp:84-104 | on a full buffer swaps first, as the swap step, or gives up when the worker is busy; then hands out slots of zero bytes, some whenever some are asked for |
| RecordWriters.RecordWriter.CommitBatch | CycLib/RecordWriter.cpp:106-133 | takes the slots handed out, clamped to those there are: each with its stamp kept or, without one, set to its clock reading, and otherwise unchanged; as one commit step |
| RecordWriters.StampRange | CycLib/RecordWriter.cpp:109-115 | the loop stamps exactly the slots handed over and leaves the others alone |
| RecordWriters.RecordWriter.SwapBuffers | CycLib/RecordWriter.cpp:137-168 | exchanges the two buffers as the swap step, exactly when running and the worker is free |
| RecordWriters.RecordWriter.NextChunk | CycLib/RecordWriter.cpp:238-243 | the worker's chunk is the next unpushed records of the block, as many as are left and the space found admits |
| RecordWriters.RecordWriter.Cleanup | CycLib/RecordWriter.cpp:252-257 | frees the background buffer as the last step of a block |
| RecordWriters.RecordWriterZC.constructor | CycLib/RecordWriterZC.cpp:14-23 | one buffer of the capacity, nothing pending |
| RecordWriters.RecordWriterZC.NextBatch | CycLib/RecordWriterZC.cpp:69-73 | hands out cleared slots, no more than the buffer has |
| RecordWriters.RecordWriterZC.CommitBatch | CycLib/RecordWriterZC.cpp:75-109 | stamps what has no stamp with its clock reading, at most what was handed out, and the history grows by exactly these records in order: all of them when not blocking, and when blocking as many as the space behind the cursors found at its looks lets through |
| RecordWriters.RecordWriterZC.PushInChunks | CycLib/RecordWriterZC.cpp:86-100 | whatever smallest cursor each look finds, the chunks together are the front of the block that these cursors let through |
| RecordWriters.FillOverwritesNothing | CycLib/RecordWriterZC.cpp:86-100 | a chunk never overwrites a record from the smallest cursor on that its look found |
| RecordWriters.FillIff | CycLib/RecordWriterZC.cpp:86-100 | the whole block goes through exactly when some look finds the slowest reader within a capacity of its end |
| RecordReaders.RecordReader.constructor | CycLib/RecordReaderBase.cpp:27-40 | starts at the oldest record that is there |
| RecordReaders.RecordReader.ChooseRange | CycLib/RecordReader.cpp:160-177 | the range begins at the cursor, or at the oldest record there is when the cursor is further back, and ends at the write head or where the batch is full; as the snapshot step |
| RecordReaders.RecordReader.CopyIn | CycLib/RecordReader.cpp:184-189 | copies what the buffer found into the background buffer as the read step |
| RecordReaders.RecordReader.StoreCursor | CycLib/RecordReader.cpp:191 | moves the cursor past what was copied and counts what was skipped |
| RecordReaders.RecordReader.Publish | CycLib/RecordReader.cpp:197-206 | publishes the background block |
| RecordReaders.RecordReader.SwapBuffers | CycLib/RecordReader.cpp:82-100 | exchanges the two buffers as the swap step, exactly when the background is full or the worker is gone |
| RecordReaders.RecordReader.NextBatch | CycLib/RecordReader.cpp:102-130 | returns the front of what is held, at most as many as asked for, swapped in first when the active buffer is used up; delivered grows by the batch, and the batch followed by what is still held is what was held before |
| RecordReaders.RecordReaderZC.constructor | CycLib/RecordReaderBase.cpp:27-40 | starts at the oldest record that is there |
| RecordReaders.RecordReaderZC.Release | CycLib/RecordReaderZC.cpp:58-67 | the cursor moves to the end of the pinned batch |
| RecordReaders.RecordReaderZC.NextBatch | CycLib/RecordReaderZC.cpp:69-140 | a batch exactly when the reader is live, something is asked for and there, holding the history at the cursor, which skips to the oldest record when overrun; running ends exactly at the finish target |
| Types.TypeRoundTrip | CycLib/Core/Common.cpp:39-75 | a type survives being written and read exactly when it is not Void |
| Types.NameTellsSize | CycLib/Core/Common.cpp:13-58 | the number in the name of an integer type is its width in bits, and the integer types are Bool and those |
| Registry.IdOf | CycLib/Core/PReg.cpp:16-26 | a positive id names the entry, 0 means the name is absent |
| Registry.RegisteredIs | CycLib/Core/PReg.cpp:16-41 | a name is registered once, after the others |
| Registry.IdsAreStable | CycLib/Core/PReg.cpp:16-52 | names and ids determine each other, and later registrations change neither |
| Registry.PReg.GetID | CycLib/Core/PReg.cpp:16-41 | returns the id of the name, registering it only when it is missing |
| Registry.PReg.GetName | CycLib/Core/PReg.cpp:43-52 | returns the name of an id and the empty string for an unknown one |
| Decimal.PrintValue | CycLib/Core/RecRule.cpp:145-170 | a printed count has the value printed |
| Decimal.StoulPrint | CycLib/Core/RecRule.cpp:219 | a printed number parses back exactly when it fits a size_t |
| Decimal.TenFold | CycLib/Core/RecRule.cpp:145-170 | numbers print in decimal, the last digit last |
| Decimal.NoLeadingZero | CycLib/Core/RecRule.cpp:145-170 | and without leading zeros |
| Decimal.StoulReads | CycLib/Core/PAttr.cpp:106 | blanks, a sign and digits, whatever follows, read as that number, a negative one modulo 2^64 |
| Decimal.StoulIff | CycLib/Core/RecRule.cpp:219 | a text gives a number exactly when it begins like that and the number is below 2^64 |
| Attributes.PlaceOne | CycLib/Core/PAttr.cpp:96-128 | one definition skips, names or rejects as specified, and only ever adds to the registry |
| Attributes.PlaceDefs | CycLib/Core/PAttr.cpp:92-128 | the loop over the definitions fills the specified table or stops at the first error, with exactly the names registered until then |
| Attributes.TrimEnd | CycLib/Core/PAttr.cpp:130-133 | the loop drops the reserved bits at the end |
| Attributes.NewWithBits | CycLib/Core/PAttr.cpp:73-134 | the constructor's loops build the specified bit table, trimmed, or fail with the specified error; the registry is the specified one either way |
| Attributes.WithBitsWellMade | CycLib/Core/PAttr.cpp:73-134 | an accepted bit field is an integer with one element, registered names, and all named bits inside its width |
| Attributes.UptoIs | CycLib/Core/PAttr.cpp:88-90 | a name is kept up to its limit or its first null character |
| Attributes.PlaceAllIff | CycLib/Core/PAttr.cpp:92-128 | definitions without a number that wraps are accepted exactly when none begins past the last bit and no skip ends past it; each named bit then lies behind the widths of those before it, and every other bit is reserved |
| Attributes.SkipGoesRound | CycLib/Core/PAttr.cpp:106-117 | with a skip of 2^64 - 1 after the first bit the second name takes its place, and the definitions are accepted |
| Rules.LayoutTiles | CycLib/Core/RecRule.cpp:27-60 | fields start at 0, touch, do not overlap, and end where the padding begins; a packed record has none |
| Rules.FieldsInOrder | CycLib/Core/RecRule.cpp:19-60 | the fields of an accepted rule are the header and then the given ones with only their offsets changed: in the order given when packed, sorted by element size and stable when aligned |
| Rules.SortIsStable | CycLib/Core/RecRule.cpp:34-38 | the sort orders by decreasing element size, is a permutation, and keeps the fields of each size in order |
| Rules.StableSortUnique | CycLib/Core/RecRule.cpp:34-38 | any arrangement with these properties is the same one |
| Rules.AlignedLayout | CycLib/Core/RecRule.cpp:33-52 | every offset is a multiple of its element size and the record size is the least multiple of the largest element size that fits |
| Rules.LookupsAgree | CycLib/Core/RecRule.h:116-139 | the O(1) lookups give position and type of the last field with the id, and 0 and Void for an unknown id; every field is last exactly when ids are distinct |
| Rules.BitTableComplete | CycLib/Core/RecRule.cpp:83-99 | init accepts a rule exactly when no bit name is used twice, and then its table holds exactly the named bits |
| Rules.RecRule.Init | CycLib/Core/RecRule.cpp:19-107 | header, layout and tables as specified, or the duplicate-bit error |
| Rules.RecRule.InitLayout | CycLib/Core/RecRule.cpp:23-99 | the same once the header is there |
| Rules.RecRule.PlaceFields | CycLib/Core/RecRule.cpp:27-58 | the running size lays the fields one after the other |
| Rules.RecRule.LargestElement | CycLib/Core/RecRule.cpp:45-48 | the largest element size of any field |
| Rules.RecRule.BuildCaches | CycLib/Core/RecRule.cpp:66-99 | fills the three tables, or reports the duplicate |
| Records.Record.GetBit | CycLib/Core/Record.cpp:79-89 | reads the named bit, false for an unknown one or no record |
| Records.Record.SetBit | CycLib/Core/Record.cpp:91-105 | writes the named bit in place and nothing else |
| Records.ReachableIff | CycLib/Core/Record.cpp:79-105 | for every rule init accepts: all ids stay inside a record of n bytes exactly when each named bit, counted from the last field with its field's id, lies there |
| Records.InterfereIff | CycLib/Core/Record.cpp:79-105 | some write of one named bit changes another exactly when both come to the same bit, counted from the last fields with their fields' ids |
| Records.SpotsMeetIff | CycLib/Core/RecRule.cpp:74-88 | for bits within the width of those last fields that is exactly the same field id and the same position |
| Records.KeepsToIff | CycLib/Core/Record.cpp:91-105 | a write of a named bit changes its own field only, exactly when no later field has the same id |
| Records.AllKeepIff | CycLib/Core/Record.cpp:79-105 | every named bit is inside the record and keeps to its field exactly when every field that names a bit is the last with its id |
| Records.DistinctIsSound | CycLib/Core/RecRule.cpp:74-78 | distinct field ids are enough for that |
| Records.NamedBitAt | CycLib/Core/RecRule.cpp:83-88 | then a named bit is found in its own field, inside the field and the record |
| Records.AlwaysReachable | CycLib/Core/Record.cpp:79-105 | and asking for any id stays inside the record |
| Records.SetBitInterferesWithNothing | CycLib/Core/Record.cpp:79-105 | and a set bit reads back, no other named bit changes, no byte of another field changes, an unknown id changes nothing |
| Records.NamedBitIs | CycLib/Core/Record.cpp:79-89 | a named bit is that binary digit of its field, read as a number |
| Records.NumberAfter | CycLib/Core/Record.cpp:91-105 | after a write that digit is the one written and every other digit of the number is as before |
| Records.SharedFieldIdAliases | CycLib/Core/RecRule.cpp:74-78 | an accepted rule with two fields of one id whose bits alias |
| Records.WiderFieldReachesNeighbour | CycLib/Core/RecRule.cpp:74-78 | an accepted rule in which bits of two fields with different ids alias |
| Records.WiderFieldLeavesRecord | CycLib/Core/RecRule.cpp:74-78 | an accepted rule with a named bit outside its record |
| SchemaText.SplitJoin | CycLib/Core/RecRule.cpp:201-203 | columns without the separator come back from a joined line, except an empty last one |
| SchemaText.SplitWhole | CycLib/Core/RecRule.cpp:193-203 | the pieces of any text, joined again, are the text without one separator at its end |
| SchemaText.RunIs | CycLib/Core/RecRule.cpp:163-168 | a run of reserved bits ends at the first bit that is not |
| SchemaText.KnownTokens | CycLib/Core/RecRule.cpp:149-173 | the tokens of the documented example |
| SchemaText.KnownText | CycLib/Core/RecRule.cpp:142-174 | and its line |
| SchemaText.SkipRun | CycLib/Core/RecRule.cpp:163-168 | the inner loop runs to the end of the reserved bits and counts them |
| SchemaText.PrintBits | CycLib/Core/RecRule.cpp:149-173 | the token loop prints one token per named bit and one number per reserved run |
| SchemaText.PrintRule | CycLib/Core/RecRule.cpp:139-180 | toText prints the specified text |
| SchemaText.ReadOne | CycLib/Core/RecRule.cpp:193-244 | one line adds nothing, a field, or an error, and registers names, as specified |
| SchemaText.ReadAll | CycLib/Core/RecRule.cpp:189-244 | all lines in order, stopping at the first error with the names registered until then |
| SchemaText.ParseRule | CycLib/Core/RecRule.cpp:183-247 | fromText computes the specified rule or error, and the specified registry in both cases |
| SchemaText.LineEndsEitherWay | CycLib/Core/RecRule.cpp:194-195 | a line reads the same with and without a carriage return at its end |
| SchemaText.LineRefusedIff | CycLib/Core/RecRule.cpp:197-243 | a line fails exactly when it has three columns, is not the header, and its count is no number or its bits do not fit the type |
| SchemaText.LinesRefusedIff | CycLib/Core/RecRule.cpp:193-244 | a text fails exactly when one of its lines does, after those before it |
| SchemaRoundTrip.PlaceTokens | CycLib/Core/PAttr.cpp:92-128 | placing the printed tokens fills the bit table in again |
| SchemaRoundTrip.LineRoundTrip | CycLib/Core/RecRule.cpp:142-174 | one printed line reads back as its field, and the registry does not change |
| SchemaRoundTrip.SchemaRoundTrip | CycLib/Core/RecRule.cpp:139-247 | fromText of toText gives the same fields, types, counts, bits, offsets and tables, packed or aligned; only the record size can differ |
| SchemaRoundTrip.SizeSurvives | CycLib/Core/RecRule.cpp:246 | the record size survives exactly when the rule has no padding at its end |
| SchemaRoundTrip.PackedRoundTrip | CycLib/Core/RecRule.cpp:139-247 | a packed printable rule comes back whole |
| SchemaConverse.RoundTripIff | CycLib/Core/RecRule.cpp:139-247 | for constructed fields, packed or aligned: fromText of toText gives the fields again, and then the same registry, offsets and tables, exactly when all fields are printable |
| SchemaConverse.WholeRoundTripIff | CycLib/Core/RecRule.cpp:139-247 | the whole rule comes back exactly when it is packed and all fields are printable |
| SchemaConverse.TextGiven | CycLib/Core/RecRule.cpp:183-247 | from any text fromText gives no field with a separator in its name or its bits, of type Void, or, after the header, named like it |
| SchemaConverse.LineGives | CycLib/Core/RecRule.cpp:193-244 | a line gives at most one field, its name and type are those of two columns and its bit names pieces of a third |
| SchemaConverse.ReturnIsLost | CycLib/Core/RecRule.cpp:195 | a field whose line ends in a carriage return does not come back, whatever is registered by then |
| SchemaConverse.SeparatorIsLost | CycLib/Core/RecRule.cpp:201-203 | the instance of a field named a;b |
| SchemaConverse.SecondStampIsLost | CycLib/Core/RecRule.cpp:207-216 | the instance of a field named TimeStamp, which init accepts |
| SchemaConverse.VoidIsLost | CycLib/Core/Common.cpp:57-75 | the instance of a field of type Void |
| SchemaConverse.ReturnIsLostAtEnd | CycLib/Core/RecRule.cpp:195 | a bit name ending in a carriage return is lost as the last bit of its field and nowhere else |
| Wire.DecodeEncode | CycLib/Cbf/CbfDefs.h:36-46 | a number that fits its bytes survives them |
| Wire.EncodeDecode | CycLib/Cbf/CbfDefs.h:36-46 | every string of bytes is the encoding of its number |
| Wire.DecodeAppend | CycLib/Cbf/CbfDefs.h:36-46 | low bytes first: a byte counts 256 times as much for each byte before it |
| Wire.FourBytes | CycLib/Tcp/TcpDefs.h:36-40 | the four bytes of a number one by one |
| CbfFiles.CbfFile.AddSchema | CycLib/Cbf/CbfFile.cpp:58-72 | appends header and text, only when open for writing |
| CbfFiles.CbfFile.BeginDataSection | CycLib/Cbf/CbfFile.cpp:74-87 | writes a header of length 0 and remembers where |
| CbfFiles.CbfFile.WriteBytes | CycLib/Cbf/CbfFile.cpp:94-100 | writes and counts a block that is not empty |
| CbfFiles.CbfFile.EndDataSection | CycLib/Cbf/CbfFile.cpp:102-121 | patches the length and returns to the end, exactly when a section began past position 0 |
| CbfFiles.CbfFile.Close | CycLib/Cbf/CbfFile.cpp:40-47 | ends a data section that is under way |
| CbfFiles.HeaderIs | CycLib/Cbf/CbfDefs.h:36-46 | a section header byte by byte: marker, type, eleven bytes of name, eight of length |
| CbfFiles.NameIs | CycLib/Cbf/CbfFile.cpp:58-87 | the name is kept up to its limit or its first null, and filled with zero bytes |
| CbfFiles.Record | CycLib/Cbf/CbfWriter.cpp:34-87 | a whole recording of any blocks leaves the schema section and one data section with the blocks in order and their length in the header |
| CbfFiles.PatchedSection | CycLib/Cbf/CbfFile.cpp:74-121 | the back-patch turns what was written into header and body of the right length, whatever the blocks |
| CbfFiles.PatchedIff | CycLib/Cbf/CbfFile.cpp:102-103 | that happens exactly when the file was not empty before the section or the body is |
| CbfReaders.CbfReader.ReadSectionHeader | CycLib/Cbf/CbfFile.cpp:125-136 | 24 bytes with the right marker, or none |
| CbfReaders.CbfReader.DefineRule | CycLib/Cbf/CbfReader.cpp:34-60 | the section scan: the last schema that reads, up to the first data section; names registered by a schema that fails stay registered |
| CbfReaders.CbfReader.ProduceBatch | CycLib/Cbf/CbfReader.cpp:66-108 | the next whole records, at most the capacity, and on to the next section at the end of one |
| CbfReaders.HeaderParses | CycLib/Cbf/CbfFile.cpp:125-136 | a written header reads back with its type and length |
| CbfReaders.ParsesIff | CycLib/Cbf/CbfFile.cpp:125-136 | 24 bytes that begin with the marker are a header, and nothing else is |
| CbfReaders.OtherSkipped | CycLib/Cbf/CbfReader.cpp:54-56 | a section of another kind is passed over on the way to the first body |
| CbfReaders.OtherPassed | CycLib/Cbf/CbfReader.cpp:94-105 | and between the bodies, where schemas are passed over as well |
| CbfReaders.SchemaTakenIff | CycLib/Cbf/CbfFile.cpp:138-153 | a schema is taken exactly when its body has 1 byte to 16 MiB, is all there, and reads as a rule |
| CbfReaders.ImplausiblePassed | CycLib/Cbf/CbfFile.cpp:138-139 | after a schema header of another length the search goes on right behind it |
| CbfReaders.TruncatedStops | CycLib/Cbf/CbfReader.cpp:87-90 | a file that ends before the block a call asks for gives nothing of it, and nothing after |
| CbfReaders.ProduceStep | CycLib/Cbf/CbfReader.cpp:66-108 | for any positive capacity a call delivers at least one whole record off the front of what is due, or stops when nothing is |
| CbfReaders.ProduceTakes | CycLib/Cbf/CbfReader.cpp:66-108 | from a body of n records a call takes the smaller of its capacity and n, from the front |
| CbfReaders.DrainsDue | CycLib/Cbf/CbfReader.cpp:66-108 | any series of positive capacities delivers a prefix of what is due, and all of it and the end after one call per record and one more |
| CbfReaders.RuleReadsBack | CycLib/Cbf/CbfReader.cpp:34-60 | defineRule finds the rule and the first body; its record size is the writer's exactly when the rule has no padding at its end |
| CbfReaders.CbfRoundTrip | CycLib/Cbf/CbfReader.cpp:34-108 | a recording under a packed rule, read with any positive capacities, gives the same rule and the same bytes, and then stops |
| CbfReaders.AllDue | CycLib/Cbf/CbfReader.cpp:94-105 | what is due are all bodies exactly when no empty one has a body after it |
| CbfReaders.AllDelivered | CycLib/Cbf/CbfReader.cpp:66-108 | repeated calls, more than there are records, deliver several data sections whole exactly when no empty one has a body after it, and then stop |
| CbfReaders.SectionsReadBack | CycLib/Cbf/CbfReader.cpp:34-108 | the same from the start of the file, schema section included |
| CbfReaders.PartialRecordNeverEnds | CycLib/Cbf/CbfReader.cpp:74-79 | a call delivers nothing and changes nothing exactly when less than a record is left |
| TcpRelay.HeaderReads | CycLib/Tcp/TcpDefs.h:36-40 | a header read back has its signature, type and payload size modulo 2^32 |
| TcpRelay.HeaderBytes | CycLib/Tcp/TcpDefs.h:36-40 | the bytes of a request for 120 bytes |
| TcpRelay.InvStep | CycLib/Tcp/TcpDataReceiver.cpp:113-165 | every turn of either thread keeps requests and responses in step, and only quitting ends a loop |
| TcpRelay.RelayConserves | CycLib/Tcp/TcpDataReceiver.cpp:113-165 | committed records followed by the one response under way are the records the sender's reader delivered; a response is whole records, no larger than the request and the batch |
| TcpRelay.NeverRejects | CycLib/Tcp/TcpDataSender.cpp:44-47 | the checks on signature, type and size never end a loop |
| TcpRelay.ExchangeEnds | CycLib/Tcp/TcpDataSender.cpp:33-86 | an exchange under way always has a next turn, a measure falls, and at its end everything delivered is committed |
| TcpRelay.RequestAsks | CycLib/Tcp/TcpDataReceiver.cpp:122-129 | a request makes the sender ask its reader for as many records as the batch has room for, counted modulo 2^32 bytes, or answer with a keep-alive when that is none |
| TcpRelay.AskedForAll | CycLib/Tcp/TcpDataReceiver.cpp:122 | that is the whole batch exactly when the batch has less than 2^32 bytes |
| TcpRelay.ExchangeCommits | CycLib/Tcp/TcpDataReceiver.cpp:113-165 | a request answered with any records, no more than asked for, ends five turns later with exactly these committed and nothing under way |
| TcpRelay.RequestRejectedIff | CycLib/Tcp/TcpDataSender.cpp:44-47 | the sender stops on nine bytes exactly when they are no request, whatever its size |
| TcpRelay.ResponseRejectedIff | CycLib/Tcp/TcpDataReceiver.cpp:138-154 | the receiver stops on nine bytes exactly when they are no response of at most the size asked for |
| TcpRelay.SizesMustMatch | CycLib/Tcp/TcpDataReceiver.cpp:160 | a non-empty response is cut into the records sent exactly when both ends work with the same record size |
| TcpRelay.RelayExactlyOnce | CycLib/Tcp/TcpDataSender.cpp:63-74 | behind one blocking writer, what arrives is one gapless slice of everything written, from where the reader began |
| TcpRelay.NegotiatedSize | CycLib/Tcp/TcpDataReceiver.cpp:70-72 | the negotiated record size is the sender's exactly when the sender's rule has no padding at its end |
| Envelopes.Emit | ChartWidget/ChartDelegate.cpp:348-369 | a bar is widened just enough to touch the one before it, and drawn as four points |
| Envelopes.NextPixel | ChartWidget/ChartDelegate.cpp:375-382 | a sample on a later pixel emits the bar under way and starts a new one |
| Envelopes.Envelope | ChartWidget/ChartDelegate.cpp:331-393 | the loop cuts the samples into consecutive runs on ascending pixels and draws, for each, its first, largest, smallest and last ratio, widened to touch the bar before |
| Envelopes.PixelsGrow | ChartWidget/ChartDelegate.cpp:371 | later samples never lie on earlier pixels, and none outside the clip (where they lie is PixelIs) |
| Envelopes.EachPixelOnce | ChartWidget/ChartDelegate.cpp:370-389 | each pixel is drawn at most once, left to right |
| Envelopes.NothingLost | ChartWidget/ChartDelegate.cpp:370-389 | every sample lies within the bar of its pixel |
| Envelopes.Connected | ChartWidget/ChartDelegate.cpp:352-357 | consecutive bars share a ratio, although each stretch moves the next comparison; a bar is stretched exactly when its own samples miss the bar before it |
| Envelopes.FourPoints | ChartWidget/ChartDelegate.cpp:360-364 | the polyline is the four points of each bar, in order |
| Envelopes.PixelIs | ChartWidget/ChartDelegate.cpp:371 | a sample from the origin on lies on the pixel its distance falls into, on the first or the last when it falls outside |
| Envelopes.PixelBefore | ChartWidget/ChartDelegate.cpp:371 | before the origin the next pixel to the right is taken |
| Envelopes.HeightIs | ChartWidget/ChartDelegate.cpp:344-373 | a value is drawn in proportion between the bottom and the top of the scale, in the middle when the scale has no span |
| Envelopes.SampleDrawn | ChartWidget/ChartDelegate.cpp:359-389 | every sample is on the picture: a bar of the polyline stands over its pixel and reaches where its value belongs |
| Envelopes.EntersAndLeaves | ChartWidget/ChartDelegate.cpp:360-387 | the line comes to a pixel at its first sample and leaves it at its last |

## Left out

- Runs ended by `stop()`: a swap is then allowed while the worker copies, so
  delivery is not claimed for them; the drain theorems are for `finish()`. The
  same goes for `RecordWriterZC::stop`, which drops the rest of a block.
- No loss with several blocking writers: false, see above; the exact bound is
  proved instead.
- Progress results (`PipelineProgress.dfy`, `PipelineFlush.dfy`) say that there is a
  finite way on from every state, each step enabled; that a scheduler takes it is
  not modelled. For `flush` and the destructor they are stated for blocking writers.
- Readers of batch capacity 0, which never read, are outside the progress results.
- A fixed set of readers: registration takes its snapshot before it adds the
  client, so a push may fall between; the readers, at least one, are there from
  the start of a run.
- `getAvailableWriteSpace` loads the cursors one after the other. A run has the
  load of the count and one step that may find any space up to what the present
  cursors leave; that covers every order of loads.
- The 64-bit wrap of the lifetime count is only in `Lag`, not in the step
  relation, where positions are unbounded.
- The classes of `RecordWriter.dfy` and `RecordReader.dfy` cover the critical
  sections that move data; waiting, waking, `flush` and `finish` are steps of the
  step relation only.
- RecordWriters.RecordWriterZC.CommitBatch: the smallest cursor found by each look
  is a parameter, since readers move between two looks; pushes of other writers in
  between are in the step relation only.
- RecordWriters.RecordWriterZC.PushInChunks: the same, and `stop` does not end it.
- RecordReaders.RecordReaderZC.NextBatch: one call that does not wait, with nothing
  pushed while it runs; waiting and interleaved pushes are in the step relation.
- `RecordReaderZC::finish` reads the count and then stores target and flag; that is
  one step here.
- TcpRelay.RelayExactlyOnce: the relay and the pipeline are two step relations,
  joined by the hypothesis that the sender was given what its reader delivered.
- Null pointers handed to bulk operations are empty blocks; a clear of
  `DynamicChunkBuffer`, `copyRecord` and the notifications of clients are not
  modelled.
- Wall-clock time: stamps come from clock readings passed in; in the step
  relation a committed record is already stamped.
- Mutexes and condition variables are steps with guards; memory orders and lost
  wake-ups are below the model.
- Addresses have eight bytes, so `sizeof(void*)` is 8, and headers are laid out
  as on a machine that stores the least significant byte first.
- Floating-point field accessors, pointer fields, iterators, allocators, copy and
  move: language machinery or easy members.
- `std::stable_sort` is its specification, proved to have one solution, not an
  algorithm.
- I/O errors on file streams, file names, rotation by record count, the CSV
  writer.
- Sockets, timeouts, connection set-up and loss: the relay runs over two streams
  that deliver every byte. A write appears whole; a read takes its bytes when
  they are all there.
- Rounding: the envelope is over the reals; painting, axes and the polyline for
  one pixel or more per sample are not modelled.
- The graphical programs, the test server, and the thread life cycle of producers
  and consumers.
