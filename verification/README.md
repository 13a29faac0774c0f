# Verified model of the object codecs and the CAN-bus core

The repository moves register values over a CAN bus through gateways and describes objects as
MessagePack or JSON. This project models three parts of it in Dafny and proves what they are
for.

**MessagePack.** `MsgPack` gives objects, their encoding and a small recursive decoder.
`MsgMachine` is the byte-driven decoder with its saved state as a function, `MsgUnpack` the same
loop in place over its context, and the two are proved equal to the recursive decoder.
`MsgStream` adds the growing buffer: however a stream is cut into chunks, the objects and sizes
are those of decoding it at once. `MsgPacker` holds the packers over their sink, `MsgRoundTrip`
that decoding undoes encoding, exactly when it does, and that re-encoding is never longer.
`MsgFormats` writes down the formats of the specification and proves the decoder reads exactly these.
`MsgEvents` is the event interface, `MsgDumper` its narrowing ladders in place, `MsgLoader` the typed
getters, which return what was dumped, `MsgZone` the chunk allocator, `Sizes` the guarded doubling
in 64-bit arithmetic, `Bytes` words and casts.

**Bus.** `RingQueue` is the ring buffer as a bounded deque. `CanTx` is a sender's round over
three of them, `CanTxSender` the round in place; `CanTxRounds` proves conservation, optimality
and draining of rounds, `CanTxWakeup` the lock and condition protocol over all interleavings.
`CanRx` is the callback registry, `CanIo` the duplicate filter and numbering, `CanRegShare` the
double buffer.

**JSON.** `JsonText` is a tree's serialization in both forms, `JsonForms` that they differ in white
space only, `JsonGrammar` that they are JSON texts of the tree by the grammar of RFC 8259.
`JsonEvents` is what each event does to the writer's text, whose separators are corrected afterwards;
`JsonWriter` is the writer in place over `SaBuffer`'s block-grown array. `Jsmn` is the tokenizer, as a
function and in place; `JsmnShape` what it keeps on every text; `JsmnRoundTrip` that the writer's output gives the
tree's tokens, `JsmnExact` when exactly it does. `JsmnLookup` recovers subtrees from parent
indices, `JsmnInterface` holds the lookup loops, `JsmnPaths` ties writing, tokenizing and any
path of lookups together. `Wrappers` holds the option type.

Where the code does less than it seems to promise, the exact condition is proved: when a round
loses frames (`CanTxRounds.LosslessExactly`, with `EighteenLoseOne` as an input that does) and from
which queue sizes no round can (`DrainSendsAllExactly`); when a closed callback stays in its list
(`SweepExactly`) and a list is what was bound and not closed (`LiveExactly`); for which
capacities the ring's step back is right (`StepBackExact`) and which calls that spoils (`AddFront`,
with `FrontOfThree`); which allocations and buffer expansions survive the wrap of size_t sums
(`Malloc` with `HugeMalloc`, `ExpandBuffer` with `HugeExpansion`); which unsigned values print as
themselves (`UnsignedExactly`) and read back as the other kind (`NumbersCross`); which extra closing
brackets are accepted (`ExtraBracket`, with `BracketsUnbalanced`); under how many overlapping callback runs snapshots stay
whole (`WholeExactly`); which trees come back from writing and tokenizing (`RoundTripExactly`); and
which objects come back from encoding and decoding (`MsgRoundTrip.RoundTrip`).

## Model

| member | source | states |
|---|---|---|
| `MsgMachine.MachineIsDecoder` | lib/object_parser/src/msgpack/msgpack-c/unpack_template.h:94-451 | for every byte string, the stack machine started fresh has the outcome of the recursive decoder with at most 32 nested containers: the same value and length, need-more, or the same fault at the same byte |
| `MsgMachine.HeaderIsDecode` | lib/object_parser/src/msgpack/msgpack-c/unpack_template.h:168-239 | the same at every depth: with any open containers below, the machine reads one element exactly as the decoder does at that depth and then carries on with the rest |
| `MsgMachine.FillIsDecodeAll` | lib/object_parser/src/msgpack/msgpack-c/unpack_template.h:386-424 | the explicit stack and its counters finish a container exactly when the recursive decoder has read all remaining items, maps alternating key and value |
| `MsgMachine.ResumeContinues` | lib/object_parser/src/msgpack/msgpack-c/unpack_template.h:246-248 | from any saved state, running on `a + b` equals running on `a`, saving, and resuming on what `a` left plus `b` |
| `MsgUnpack.Context.Execute` | lib/object_parser/src/msgpack/msgpack-c/unpack_template.h:94-451 | the in-place loop over `cs`, `trail`, `top` and the 32-slot stack returns, consumes and saves what the machine does from the saved state |
| `MsgUnpack.Context.Element` | lib/object_parser/src/msgpack/msgpack-c/unpack_template.h:171-384 | one turn up to `_push`: header dispatch and all following trail states in place |
| `MsgUnpack.Context.Trails` | lib/object_parser/src/msgpack/msgpack-c/unpack_template.h:242-384 | the `again` states: a trail is taken only when complete, otherwise saved as it is |
| `MsgUnpack.Context.Start` | lib/object_parser/src/msgpack/msgpack-c/unpack_template.h:140-151 | a 33rd nested container is refused before its count is looked at; an empty one is not pushed |
| `MsgUnpack.Context.Push` | lib/object_parser/src/msgpack/msgpack-c/unpack_template.h:386-419 | finished values are delivered up the stack, popping every frame that becomes full |
| `MsgUnpack.Unpack` | lib/object_parser/src/msgpack/msgpack-c/unpack.c:616-654 | the one-shot entry decodes at the offset, tells extra bytes from an exact end, and leaves the offset alone on a fault |
| `MsgPack.DecodeStable` | lib/object_parser/src/msgpack/msgpack-c/unpack_template.h:94-451 | once a decode succeeds or fails, more bytes behind it change nothing |
| `MsgPack.DecodePrefix` | lib/object_parser/src/msgpack/msgpack-c/unpack_template.h:247-248 | every proper prefix of a decodable string asks for more |
| `MsgFormats.DecodesExactly` | lib/object_parser/src/msgpack/msgpack-c/unpack_template.h:94-451 | a byte string decodes to an object, using all of it, if and only if it is one of the object's representations in the MessagePack specification: every header, width and sign, inside at most 32 containers |
| `MsgFormats.SpelledInFront` | lib/object_parser/src/msgpack/msgpack-c/unpack_template.h:94-451 | a representation with anything behind it decodes to the object and stops at its end |
| `MsgFormats.HeaderFaults` | lib/object_parser/src/msgpack/msgpack-c/unpack_template.h:126-151 | 0xc1 and an ext of 2^32-1 bytes are parse errors at their headers, and a container header inside 32 containers is too deep |
| `MsgFormats.PackIsShortest` | lib/object_parser/src/msgpack/msgpack-c/objectc.c:39-126 | the encoder's bytes are among an object's representations, and none of these is shorter |
| `MsgFormats.PackIsUnsigned` | lib/object_parser/src/msgpack/msgpack-c/pack_template.h:108-137 | of equally short integer forms the encoder takes the unsigned one |
| `Bytes.LoadConcat` | lib/object_parser/src/msgpack/msgpack-c/unpack_template.h:247-384 | words are read most significant byte first |
| `MsgStream.Unpacker.Next` | lib/object_parser/src/msgpack/msgpack-c/unpack.c:561-614 | after any mix of chunks, buffer expansions and earlier calls, each call returns the next object, and its size, of decoding all bytes fed so far at once; it asks for more or fails exactly when that decoding ends so; a fault found at a header byte is reported again by every later call, whatever is fed in between |
| `MsgStream.Unpacker.Step` | lib/object_parser/src/msgpack/msgpack-c/unpack.c:504-513 | one resumed execution reports the next object of the whole stream and its parsed size, or how the stream ends |
| `MsgStream.Unpacker.Feed` | lib/object_parser/src/msgpack/msgpack-c/unpack.h:219-239 | reserve, copy and consumed append exactly the chunk to the bytes fed, whenever there is room or an expansion makes it |
| `MsgStream.Unpacker.ExpandBuffer` | lib/object_parser/src/msgpack/msgpack-c/unpack.c:429-502 | the call makes the requested room if and only if the buffer can be used again from its start or the request and what is kept in front of it add up below 2^64, and then the unparsed bytes are kept |
| `MsgStream.Unpacker.ReserveBuffer` | lib/object_parser/src/msgpack/msgpack-c/unpack.h:219-223 | the same behind the test for room that is already there |
| `MsgStream.HugeExpansion` | lib/object_parser/src/msgpack/msgpack-c/unpack.c:443-455 | a fresh unpacker of four bytes asked for 2^64-4 more makes a buffer with less room than that |
| `MsgStream.Unpacker.BufferConsumed` | lib/object_parser/src/msgpack/msgpack-c/unpack.h:235-239 | consumed bytes become part of the stream |
| `MsgStream.Unpacker.Reset` | lib/object_parser/src/msgpack/msgpack-c/unpack.c:554-559 | a reset between objects keeps the stream position |
| `MsgStream.WholeAppend` | lib/object_parser/src/msgpack/msgpack-c/unpack.c:585-596 | decoded objects laid end to end decode as their concatenation |
| `MsgStream.FaultStays` | lib/object_parser/src/msgpack/msgpack-c/unpack.c:561-614 | bytes behind a fault change neither the objects before it nor the fault |
| `MsgStream.NextObject` | lib/object_parser/src/msgpack/msgpack-c/unpack.c:561-614 | an object finished from saved state over several chunks is the next object of the whole stream |
| `MsgStream.NextNone` | lib/object_parser/src/msgpack/msgpack-c/unpack.c:561-614 | when the saved state runs out or fails, the whole stream has no further object and ends the same way |
| `Sizes.Doubled` | lib/object_parser/src/msgpack/msgpack-c/unpack.c:445-453 | the guarded doubling loop ends under wrap-around and yields a size not below the need |
| `Sizes.DoubledIsLeast` | lib/object_parser/src/msgpack/msgpack-c/unpack.c:445-453 | the size is the first of the start and its doublings that is not below the need, if that fits a size_t |
| `Sizes.DoubledIsNeed` | lib/object_parser/src/msgpack/msgpack-c/unpack.c:445-453 | where no doubling fits, it is the need itself |
| `MsgRoundTrip.RoundTrip` | lib/object_parser/src/msgpack/msgpack-c/objectc.c:39-126 | decoding `pack(o)` followed by anything gives `o` and its length if and only if integer tags match signs, no ext is 2^32-1 bytes long and at most 32 containers nest |
| `MsgRoundTrip.DecodePack` | lib/object_parser/src/msgpack/msgpack-c/objectc.c:39-126 | for every object of representable sizes: what decoding its encoding yields, including which fault comes first |
| `MsgRoundTrip.PackPrefix` | lib/object_parser/src/msgpack/msgpack-c/unpack.c:616-654 | every proper prefix of the encoding of a supported object is incomplete |
| `MsgRoundTrip.Canonical` | lib/object_parser/src/msgpack/msgpack-c/objectc.c:39-126 | re-encoding whatever was decoded never takes more bytes than were read, and decodes to the same object again |
| `MsgPacker.SBuffer.Write` | lib/object_parser/src/msgpack/msgpack-c/sbuffer.h:60-92 | the sink grows by doubling and holds the old contents followed by the new bytes |
| `MsgPacker.SBuffer.Grow` | lib/object_parser/src/msgpack/msgpack-c/sbuffer.h:64-85 | growing keeps the contents and makes room for the write |
| `MsgPacker.PackUint64` | lib/object_parser/src/msgpack/msgpack-c/pack_template.h:108-137 | the range tests append the shortest form of the value |
| `MsgPacker.PackInt64` | lib/object_parser/src/msgpack/msgpack-c/pack_template.h:221-277 | the signed ladder appends the same bytes as the unsigned one where they overlap, and the shortest negative form below |
| `MsgPacker.PackInt32` | lib/object_parser/src/msgpack/msgpack-c/pack_template.h:181-219 | the 32-bit ladder agrees with the 64-bit one on its whole range |
| `MsgPacker.PackUint32` | lib/object_parser/src/msgpack/msgpack-c/pack_template.h:82-106 | the 32-bit unsigned ladder agrees with the 64-bit one on its whole range |
| `MsgPacker.PackStr` | lib/object_parser/src/msgpack/msgpack-c/pack_template.h:762-780 | the shortest of the four string heads |
| `MsgPacker.PackBin` | lib/object_parser/src/msgpack/msgpack-c/pack_template.h:816-831 | the shortest of the three binary heads |
| `MsgPacker.PackExt` | lib/object_parser/src/msgpack/msgpack-c/pack_template.h:842-897 | the fixed ext sizes before the three sized heads, with the type byte behind |
| `MsgPacker.PackArray` | lib/object_parser/src/msgpack/msgpack-c/pack_template.h:720-739 | the shortest of the three array heads |
| `MsgPacker.PackMap` | lib/object_parser/src/msgpack/msgpack-c/pack_template.h:741-760 | the shortest of the three map heads |
| `MsgPacker.PackObject` | lib/object_parser/src/msgpack/msgpack-c/objectc.c:39-126 | the recursive encoder with its element loops appends the encoding of the whole tree |
| `MsgDumper.Dumper.SetSigned` | lib/object_parser/src/msgpack/op_msgpack_dumper.c:121-160 | narrowing by casts before packing appends the 64-bit packer's bytes on every value |
| `MsgDumper.Dumper.SetUnsigned` | lib/object_parser/src/msgpack/op_msgpack_dumper.c:162-180 | the same for the unsigned ladder |
| `MsgDumper.Dumper.HandleAll` | lib/object_parser/src/msgpack/op_msgpack_dumper.c:100-228 | any run of events appends the concatenation of what each event emits |
| `MsgEvents.EventsAreEncoding` | lib/object_parser/src/msgpack/op_msgpack_dumper.c:100-228 | the events of a document emit exactly the encoder's bytes for its tree |
| `MsgEvents.DumpedLoads` | lib/object_parser/src/msgpack/op_msgpack_dumper.c:100-228 | the dump of a document decodes back to its tree, using all of it, if it nests at most 32 containers, and is refused as too deep if not |
| `MsgLoader.DumpedReads` | lib/object_parser/src/msgpack/op_msgpack_loader.c:123-434 | the getters of each kind, applied to a loaded dump part by part, return the document that was described: types, booleans, integers, reals, strings, binaries, items and members; a string or binary as far as there is room, a key up to 127 bytes |
| `MsgLoader.DumpThenLoad` | lib/object_parser/src/msgpack/op_msgpack_loader.c:88-101 | the same in place, from a client's events through sink and decoder; loading succeeds if and only if at most 32 containers nest |
| `MsgLoader.Load` | lib/object_parser/src/msgpack/op_msgpack_loader.c:88-101 | a stream loads if and only if it is one object and nothing else |
| `MsgLoader.NumbersCross` | lib/object_parser/src/msgpack/op_msgpack_loader.c:271-302 | an unsigned value reads back signed as itself if and only if it is below 2^63, a signed one unsigned if and only if it is not negative |
| `MsgLoader.NoRawBinary` | lib/object_parser/src/msgpack/op_msgpack_loader.c:425-434 | the raw getter for binaries finds strings only, and no binary |
| `MsgZone.Zone.Malloc` | lib/object_parser/src/msgpack/msgpack-c/zone.h:106-127 | the aligned block lies inside its chunk if and only if the newest chunk has room for it or none of the size_t sums wraps; then it joins the live blocks, all inside their chunks and pairwise disjoint |
| `MsgZone.Zone.MallocNoAlign` | lib/object_parser/src/msgpack/msgpack-c/zone.h:90-104 | the same without alignment, where only the sums of the expansion can wrap |
| `MsgZone.HugeMalloc` | lib/object_parser/src/msgpack/msgpack-c/zone.h:114-121 | a request for 2^64-1 bytes gets a pointer to a block its chunk does not hold |
| `MsgZone.Zone.Expand` | lib/object_parser/src/msgpack/msgpack-c/zone.c:67-97 | a new chunk in front, of the chunk size doubled until the block fits |
| `MsgZone.Zone.Clear` | lib/object_parser/src/msgpack/msgpack-c/zone.c:49-65 | only the first, original-size chunk is kept, empty |
| `MsgZone.ExpandedIsAligned` | lib/object_parser/src/msgpack/msgpack-c/zone.h:121-123 | rounding down after an expansion gives the block the chunk starts with if and only if the place the chunk was allocated at is aligned |
| `RingQueue.Queue.Add` | lib/std_api/src/sa_queue.c:48-59 | the ring behaves as a bounded sequence that loses its front when full |
| `RingQueue.Queue.AddFront` | lib/std_api/src/sa_queue.c:62-73 | the element goes in front, the old front element making room when the ring is full, if and only if the capacity divides 2^64 or the front stands in another slot than the first once there is room; otherwise the indices no longer describe a ring |
| `RingQueue.Queue.Get` | lib/std_api/src/sa_queue.c:116-127 | takes the front of the sequence, or reports it empty |
| `RingQueue.Queue.Clear` | lib/std_api/src/sa_queue.c:5-11 | empties the sequence |
| `RingQueue.StepBackExact` | lib/std_api/src/sa_queue.c:62-73 | the step back in wrap-around arithmetic reaches the slot before from every slot if and only if the capacity divides 2^64 |
| `RingQueue.FrontOfThree` | lib/std_api/src/sa_queue.c:62-73 | in an empty ring of three slots adding in front steps back to the slot it started from |
| `RingQueue.AddedAllIsNewest` | lib/std_api/src/sa_queue.c:48-59 | after any adds the queue holds exactly the newest elements that fit |
| `CanTxSender.Sender.Round` | pkg/can_smbus/src/core/io/cs_tx.c:155-206 | one round of the sender's loops, in place on the ring queues, builds the pack and leaves the queues that the scan describes; Low frames stay |
| `CanTxSender.Fill` | pkg/can_smbus/src/core/io/cs_tx.c:169-193 | the inner loop packs frames with new ids and parks the others, keeping the newest 16 parked |
| `CanTxSender.Return` | pkg/can_smbus/src/core/io/cs_tx.c:195-200 | parked frames go back in front of their queue |
| `CanTxSender.Taken` | pkg/can_smbus/src/core/io/cs_tx.c:175-183 | the id scan finds an id if and only if the pack has it |
| `CanTx.PutBackFits` | pkg/can_smbus/src/core/io/cs_tx.c:195-198 | putting parked frames back never meets a full queue: the queue is the parked frames reversed and what was left |
| `CanTxSender.Sender.SendFrame` | pkg/can_smbus/src/core/io/cs_tx.c:129-136 | a frame goes to the end of the queue of its priority, and the other two queues stay |
| `CanTxRounds.RoundConserves` | pkg/can_smbus/src/core/io/cs_tx.c:166-201 | High and Normal frames before a round are, as multisets, the packed ones, the ones left and the oldest parked beyond 16 per priority |
| `CanTxRounds.LosslessExactly` | pkg/can_smbus/src/core/io/cs_tx.c:143-201 | a round loses no frame if and only if, before their ids fill the pack, the High queue has at most 16 frames that repeat an id, and, unless the High ids alone fill it, the Normal queue at most 16 that repeat one of its own or of the High queue |
| `CanTxRounds.SkippedAreRepeats` | pkg/can_smbus/src/core/io/cs_tx.c:169-193 | a scan parks at most m frames if and only if the waiting queue has at most m such repeats |
| `CanTxRounds.EighteenLoseOne` | pkg/can_smbus/src/core/io/cs_tx.c:143-201 | eighteen frames with one id are an input on which a frame is lost |
| `CanTxRounds.ScanPack` | pkg/can_smbus/src/core/io/cs_tx.c:166-193 | the scan of a queue keeps ids distinct and stops early only when the pack is full |
| `CanTxRounds.PackIsLargest` | pkg/can_smbus/src/core/io/cs_tx.c:166-193 | a pack has distinct ids and as many frames as four or the number of different ids waiting, whichever is less |
| `CanTxRounds.ScanExactly` | pkg/can_smbus/src/core/io/cs_tx.c:169-193 | a level packs, in order of arrival, the first frame of every id not packed yet, and parks the others, until four are packed or the queue is empty |
| `CanTxRounds.AfterExactly` | pkg/can_smbus/src/core/io/cs_tx.c:195-200 | the newest sixteen parked frames go back in front, latest first, and the frames not looked at stay behind them |
| `CanTxRounds.HighGoesFirst` | pkg/can_smbus/src/core/io/cs_tx.c:166-193 | a Normal frame is packed only when every High frame was packed or shares an id with a packed one |
| `CanTxRounds.DrainIsShort` | pkg/can_smbus/src/core/io/cs_tx.c:155-208 | without arrivals, any queues are empty after at most as many rounds as there are frames |
| `CanTxRounds.DrainSendsAll` | pkg/can_smbus/src/core/io/cs_tx.c:155-208 | from at most 17 High and 16 Normal frames, or 17 Normal ones alone, the rounds send each frame exactly once |
| `CanTxRounds.DrainSendsAllExactly` | pkg/can_smbus/src/core/io/cs_tx.c:155-208 | all queues of given sizes are sent completely if and only if the sizes are within those bounds |
| `CanTxWakeup.NoLostWakeup` | pkg/can_smbus/src/core/io/cs_tx.c:129-164 | in every interleaving, when the sender sleeps on a non-empty queue some producer is between its enqueue and its signal, can go on, and its signal wakes the sender |
| `CanTxWakeup.NothingVanishes` | pkg/can_smbus/src/core/io/cs_tx.c:129-208 | in every state of every interleaving the frames enqueued are those packed, those still queued, those a full queue dropped for a newer one and those the skip rings lost, as multisets |
| `CanTxWakeup.EnqueuedGoesTo` | pkg/can_smbus/src/core/io/cs_tx.c:129-136 | in the protocol too, only the queue of the frame's priority grows |
| `CanTxWakeup.InvHolds` | pkg/can_smbus/src/core/io/cs_tx.c:129-164 | the lock and signal invariant holds in every reachable state |
| `CanTxWakeup.MutualExclusion` | pkg/can_smbus/src/core/io/cs_tx.c:129-202 | the sender and a producer are never both inside the lock |
| `CanTxWakeup.OneFrameIsPacked` | pkg/can_smbus/src/core/io/cs_tx.c:129-208 | there is a behaviour in which the sender sleeps, is woken by a producer and packs its frame |
| `CanIo.Gateway.Accept` | pkg/can_smbus/src/core/io/cs_io.c:158-183 | the four-entry scan and the ring write, in place |
| `CanIo.AcceptAll` | pkg/can_smbus/src/core/io/cs_io.c:158-183 | a gateway fed a run of arrivals accepts exactly what the filter runs of the theorems below accept, and ends in their state |
| `CanIo.StampFirst` | pkg/can_smbus/src/core/io/cs_io.c:199-200 | the bytes a fresh gateway stamps on its first n packets are their numbers modulo 256 |
| `CanIo.FilterRemembers` | pkg/can_smbus/src/core/io/cs_io.c:158-183 | after any arrivals the ring holds the last four accepted bytes in their slots |
| `CanIo.AcceptsExactly` | pkg/can_smbus/src/core/io/cs_io.c:158-183 | a byte is accepted if and only if it is none of the last four accepted (or of the initial entries before four were) |
| `CanIo.FiveDistinct` | pkg/can_smbus/src/core/io/cs_io.c:158-183 | any five consecutive accepted frames have distinct sequence bytes |
| `CanIo.RepeatCaught` | pkg/can_smbus/src/core/io/cs_io.c:158-183 | a repeated packet is dropped if and only if its distance modulo 256 is within four accepted packets |
| `CanIo.DeliveredOnce` | pkg/can_smbus/src/core/io/cs_io.c:94-200 | a lossless in-order numbered stream whose repeats come before four newer frames is delivered exactly once, across all wraps |
| `CanIo.NumbersDeliveredOnce` | pkg/can_smbus/src/core/io/cs_io.c:94-200 | of such a stream packets 0, 1, 2 and so on are delivered, once each, although stamps repeat every 256 packets |
| `CanIo.DeliverStream` | pkg/can_smbus/src/core/io/cs_io.c:94-200 | the same from a sending to a receiving gateway in place: the packets delivered, by number, are all those shown, once each and in order |
| `CanRegShare.SnapshotIsWhole` | pkg/can_smbus/src/core/cs_reg_share.c:115-138 | a snapshot copied field by field and overlapped by at most one callback run, in any interleaving, is the old message or the new one, whole |
| `CanRegShare.WholeExactly` | pkg/can_smbus/src/core/cs_reg_share.c:115-138 | snapshots overlapped by k callback runs, in any interleaving, always hold the old message or one of the k new ones if and only if k is at most one |
| `CanRegShare.TwoRunsTear` | pkg/can_smbus/src/core/cs_reg_share.c:115-138 | two runs in the middle of a copy give it the length of one message and the data of another |
| `CanRegShare.CallbackStores` | pkg/can_smbus/src/core/cs_reg_share.c:131-141 | one callback run writes the half not shown and then shows it |
| `CanRx.CallbackList.Close` | pkg/can_smbus/src/core/io/cs_rx.c:273-297 | the shifting loop removes matches from the array in place, skipping the element behind each one |
| `CanRx.CallbackList.Add` | pkg/can_smbus/src/core/io/cs_rx.c:259-271 | the grown array holds the old callbacks and the new one |
| `CanRx.SweepExactly` | pkg/can_smbus/src/core/io/cs_rx.c:273-297 | closing removes every occurrence if and only if no two occurrences are adjacent |
| `CanRx.SweepLeaves` | pkg/can_smbus/src/core/io/cs_rx.c:273-297 | of each run of copies the first, the third and so on go and everything else stays |
| `CanRx.Registry.Bind` | pkg/can_smbus/src/core/io/cs_rx.c:77-87 | a legal bind appends to exactly one list and creates the record on demand; any other leaves all lists alone |
| `CanRx.Registry.Close` | pkg/can_smbus/src/core/io/cs_rx.c:90-110 | a legal close sweeps exactly one list |
| `CanRx.Registry.DeviceClose` | pkg/can_smbus/src/core/io/cs_rx.c:223-256 | a record is freed if and only if all of its 36 lists are empty |
| `CanRx.Registry.Dispatch` | pkg/can_smbus/src/core/io/cs_rx.c:299-362 | the callbacks called are the bound ones, in order |
| `CanRx.History` | pkg/can_smbus/src/core/io/cs_rx.c:77-179 | after any history of binds and closes over all slots, each slot holds what its own part of the history leaves, and a record exists only while one of its lists is non-empty |
| `CanRx.RegistryIsLive` | pkg/can_smbus/src/core/io/cs_rx.c:77-179 | when no callback is bound twice at a time, a slot holds exactly the callbacks bound and not closed since, in bind order |
| `CanRx.LiveExactly` | pkg/can_smbus/src/core/io/cs_rx.c:77-179 | at every point of a history the list is those callbacks if and only if no close meets two copies of its callback in a row |
| `CanRx.DispatchAfter` | pkg/can_smbus/src/core/io/cs_rx.c:77-362 | a frame that follows any history calls exactly what the binds and closes with its gateway, the low 12 bits of its id and its slot leave, for ids 0x010 to 0x1FF: the callbacks bound and not closed since, in bind order, whenever no close there met two copies of its callback in a row |
| `CanRx.CalledWhereBound` | pkg/can_smbus/src/core/io/cs_rx.c:77-362 | a callback bound once is called by the frames to that gateway, id and slot and by no others |
| `CanRx.LegalInNumbers` | pkg/can_smbus/src/core/io/cs_rx.c:6-12 | the argument check lets through gateways 0 to 3, ids 0x010 to 0x1FF, two channels and 16 registers |
| `CanRx.SameRecord` | pkg/can_smbus/src/core/io/cs_rx.c:201-221 | two ids share a record if and only if gateway and the low 12 bits agree |
| `CanRx.Broadcasts.Bind` | pkg/can_smbus/src/core/io/cs_rx.c:182-189 | binding a broadcast callback leaves all broadcast lists as they were, because id 0x201 always fails the check |
| `CanRx.Broadcasts.Close` | pkg/can_smbus/src/core/io/cs_rx.c:191-198 | so does closing one |
| `CanRx.BroadcastHistory` | pkg/can_smbus/src/core/io/cs_rx.c:182-198 | after any history of broadcast binds and closes a broadcast frame calls nobody |
| `SaBuffer.Buffer.InsertStream` | lib/std_api/src/sa_buffer.c:91-104 | insertion at an index, across a reallocation, moves the tail and keeps everything else |
| `SaBuffer.Buffer.ReplaceStream` | lib/std_api/src/sa_buffer.c:111-119 | overwrites in range only |
| `SaBuffer.Buffer.RemoveStream` | lib/std_api/src/sa_buffer.c:192-206 | closes the gap, in range only, and keeps the contents when the block shrinks |
| `SaBuffer.Buffer.Realloc` | lib/std_api/src/sa_buffer.c:8-30 | the block count fits the data, for elements of any size, and the live elements survive |
| `SaBuffer.BlocksExactly` | lib/std_api/src/sa_buffer.c:8-30 | shrinking leaves the blocks the elements fill, and one at least; growing leaves one more than the full ones |
| `JsonWriter.JsonDumper.HandleStart` | lib/object_parser/src/json/op_json_dumper.c:125-150 | the opening bracket, the first entry's separator, and a blank to take back when empty |
| `JsonWriter.JsonDumper.HandleEnd` | lib/object_parser/src/json/op_json_dumper.c:152-177 | takes the last separator back and closes, in both forms, then separates from what follows |
| `JsonWriter.JsonDumper.HandleValue` | lib/object_parser/src/json/op_json_dumper.c:250-371 | a scalar and the separator behind it |
| `JsonWriter.JsonDumper.DumpLength` | lib/object_parser/src/json/op_json_dumper.c:87-115 | the NUL is added once and not counted |
| `JsonWriter.HandleAll` | lib/object_parser/src/json/op_json_dumper.c:125-371 | any legal run of events leaves in the block-grown buffer what the writer's state function says |
| `JsonEvents.WriterIsText` | lib/object_parser/src/json/op_json_dumper.c:125-391 | the events of any tree, inside any run, append its serialization and one separator: no stray separator, at any depth, for empty containers too |
| `JsonEvents.DumpIsText` | lib/object_parser/src/json/op_json_dumper.c:125-391 | a tree written to an empty dumper is exactly its serialization |
| `JsonForms.FormsAgree` | lib/object_parser/src/json/op_json_dumper.c:125-391 | deleting white space outside strings from either form, at any depth, gives the compact form, for every tree in whose strings and keys each quote stands behind a backslash and no backslash is left alone at the end |
| `JsonGrammar.WriterIsJson` | lib/object_parser/src/json/op_json_dumper.c:125-391 | what the writer writes for a tree is a JSON text of that tree by the grammar of RFC 8259, in both forms and at every depth, for trees without binaries, with unsigned values below 2^63 and strings of the grammar |
| `JsonGrammar.BinaryIsNoJson` | lib/object_parser/src/json/op_json_dumper.c:354-371 | the mark written for a binary is no JSON text of any tree |
| `JsonText.ReadableLayout` | lib/object_parser/src/json/op_json_dumper.c:125-391 | in the readable form each entry and each closing bracket starts a line, indented by four blanks a level |
| `JsonForms.LegibleIsTidy` | lib/object_parser/src/json/op_json_dumper.c:125-391 | among these are all trees the tokenizer reads back |
| `JsonForms.BareQuoteDisagrees` | lib/object_parser/src/json/op_json_dumper.c:343-352 | a string that is one bare quote makes the two forms differ by more than white space outside strings |
| `JsonText.UnsignedExactly` | lib/object_parser/src/json/op_json_dumper.c:269-286 | an unsigned value prints as itself if and only if it is below 2^63 |
| `Jsmn.Parser.Parse` | lib/object_parser/src/json/jsmn/jsmn.c:204-348 | the scan over the in-place token array, grown in blocks of 64, computes the tokenizer function on every text: tokens, position, super token and code |
| `Jsmn.Parser.ParseString` | lib/object_parser/src/json/jsmn/jsmn.c:124-199 | finds the closing quote past all escapes, or the error, and restores the position |
| `Jsmn.Parser.SkipEscape` | lib/object_parser/src/json/jsmn/jsmn.c:165-194 | accepts the eight short escapes and `u` with up to four hexadecimal digits |
| `Jsmn.Parser.ParsePrimitive` | lib/object_parser/src/json/jsmn/jsmn.c:36-119 | an unquoted word ends at a delimiter, a NUL or the end; other characters outside ASCII print range are refused |
| `Jsmn.Classify` | lib/object_parser/src/json/jsmn/jsmn.c:78-112 | the word's kind from its first letter, or from a point in it |
| `Jsmn.Parser.CloseBracket` | lib/object_parser/src/json/jsmn/jsmn.c:234-266 | the walk up the parent links ends, at the innermost open container or a root |
| `Jsmn.Parser.Alloc` | lib/object_parser/src/json/jsmn/jsmn.c:10-21 | a new blank token behind the kept ones |
| `JsmnShape.ParseIsSafe` | lib/object_parser/src/json/jsmn/jsmn.c:204-348 | on every text: parents precede children, sizes count children, positions increase; on success every token is closed and lies in the text |
| `JsmnShape.RunSound` | lib/object_parser/src/json/jsmn/jsmn.c:204-348 | the same for every reachable state, with the position never past the end |
| `JsmnShape.ExtraBracket` | lib/object_parser/src/json/jsmn/jsmn.c:234-266 | with no container open, a closing bracket is refused unless a colon has left a super token |
| `JsmnShape.BracketsUnbalanced` | lib/object_parser/src/json/jsmn/jsmn.c:204-348 | the tokenizer refuses `[]]` and accepts `[]:]`, so brackets need not balance |
| `JsmnRoundTrip.RoundTrip` | lib/object_parser/src/json/jsmn/jsmn.c:204-348 | tokenizing the dump of a tree, readable or compact, gives exactly its preorder tokens with parents, sizes and spans |
| `JsmnRoundTrip.ValueScanned` | lib/object_parser/src/json/jsmn/jsmn.c:204-348 | the same for a value inside any text and any state of the walk |
| `JsmnRoundTrip.ScanString` | lib/object_parser/src/json/jsmn/jsmn.c:124-199 | the scan of a written string stops at the quote that closes it if and only if the string is free of bare quotes and NUL and each backslash starts an escape of RFC 8259 |
| `JsonGrammar.StringsExactly` | lib/object_parser/src/json/jsmn/jsmn.c:124-199 | these strings are the strings of RFC 8259, section 7, and those that differ from them by bare control characters |
| `JsmnRoundTrip.EscapesExactly` | lib/object_parser/src/json/jsmn/jsmn.c:165-194 | the short escapes and hexadecimal digits the scan tests for are those of the grammar |
| `JsmnShape.WordEnds` | lib/object_parser/src/json/jsmn/jsmn.c:36-70 | a word goes on up to a delimiter, a NUL or the end, and fails at any other character outside codes 32 to 126 |
| `JsmnShape.KindExactly` | lib/object_parser/src/json/jsmn/jsmn.c:78-112 | true and false are known by all their letters, other words in f or t have no kind, and a point makes the rest a double |
| `JsmnShape.SpaceIsSkipped` | lib/object_parser/src/json/jsmn/jsmn.c:280-284 | blanks, tabs and line ends outside strings and words are skipped |
| `JsmnExact.RoundTripExactly` | lib/object_parser/src/json/jsmn/jsmn.c:204-348 | tokenizing the dump of a tree whose real values are numerals gives exactly its tokens if and only if every string and key in it is free of bare quotes, NUL and unknown escapes |
| `JsmnExact.ValueSpoiled` | lib/object_parser/src/json/jsmn/jsmn.c:204-348 | inside any text, an unescaped string or key makes the walk fail or leaves a token with another end |
| `JsmnRoundTrip.TokensGrafted` | lib/object_parser/src/json/jsmn/jsmn_interface.c:4-19 | every token of a subtree but the first has its parent inside the subtree |
| `JsmnInterface.Interface.Parse` | lib/object_parser/src/json/jsmn/jsmn_interface.c:21-43 | copies the text, parses it, and reports success if and only if the tokenizer returns no error |
| `JsmnInterface.Interface.SearchRange` | lib/object_parser/src/json/jsmn/jsmn_interface.c:4-19 | the range ends at the first later token whose parent index is not above the token's own parent |
| `JsmnInterface.Interface.Count` | lib/object_parser/src/json/jsmn/jsmn_interface.c:108-124 | counts the children of an object or array: the entries of the tree's container that is there |
| `JsmnInterface.Interface.GetArray` | lib/object_parser/src/json/jsmn/jsmn_interface.c:180-207 | finds the item with the index, in an array that has one, and nothing elsewhere |
| `JsmnInterface.Interface.GetDictionary` | lib/object_parser/src/json/jsmn/jsmn_interface.c:78-105 | finds the value of the first member with the key, in an object that has one, and nothing elsewhere |
| `JsmnInterface.Interface.GetDictionaryAtIndex` | lib/object_parser/src/json/jsmn/jsmn_interface.c:127-157 | finds the key and the value of the member with the index, if the object has so many |
| `JsmnInterface.Interface.GetRoot` | lib/object_parser/src/json/jsmn/jsmn_interface.c:46-53 | the range of all tokens; of a parsed dump it holds the tree that was dumped |
| `JsmnInterface.Interface.ParseAsLong` | lib/object_parser/src/json/jsmn/jsmn_interface.c:230-248 | reads the numeral, a written integer as itself, and leaves the text as it was |
| `JsmnInterface.Interface.ParseAsBoolean` | lib/object_parser/src/json/jsmn/jsmn_interface.c:272-289 | on a range that holds a written value, succeeds if and only if the value is a boolean, and returns it |
| `JsmnInterface.Interface.GetStringRaw` | lib/object_parser/src/json/jsmn/jsmn_interface.c:325-334 | the characters of a string token; of a written string, its own |
| `JsmnLookup.ValueRange` | lib/object_parser/src/json/jsmn/jsmn_interface.c:4-19 | comparing parent indices alone recovers exactly a value's subtree |
| `JsmnLookup.ChildrenAreEntries` | lib/object_parser/src/json/jsmn/jsmn_interface.c:160-207 | the tokens whose parent is the container are exactly its entries' first tokens |
| `JsmnLookup.ItemFound` | lib/object_parser/src/json/jsmn/jsmn_interface.c:180-207 | the range found for an item holds that item |
| `JsmnLookup.MemberFound` | lib/object_parser/src/json/jsmn/jsmn_interface.c:78-105 | the key token spells the key and the range behind it holds its value |
| `JsmnPaths.FindIsSelect` | lib/object_parser/src/json/jsmn/jsmn_interface.c:78-207 | a path of lookups by key and index fails exactly where the tree has nothing, and otherwise reaches the tree's own part |
| `JsmnPaths.DumpParseFind` | lib/object_parser/src/json/jsmn/jsmn_interface.c:21-207 | from the writer's events through tokenizing to lookups: every path finds the part of the tree that was written |
| `JsmnPaths.ScalarReads` | lib/object_parser/src/json/jsmn/jsmn_interface.c:230-334 | a scalar that was found is one token of its kind with its own text; integers read back as their value, null as an integer token |
| `JsmnPaths.DecimalReads` | lib/object_parser/src/json/jsmn/jsmn_interface.c:230-248 | the decimal reader undoes the printer on every integer |
| `JsmnPaths.NumeralReads` | lib/object_parser/src/json/jsmn/jsmn_interface.c:230-248 | it stops at the first character that is no digit, and takes either sign |

## Left out

- Decoded strings are values: that they point into the unpacker's buffer, and its reference count, are not modelled; whether the buffer is shared is a parameter of `ExpandBuffer`.
- MsgStream.Unpacker.Next: is not called after a fault found in a length word. That leaves the saved state inside the word, and what follows is no longer a stream of objects.
- MsgStream.Unpacker.Step: is not called then either, for the same reason.
- MsgStream.Unpacker.Feed: requires that there is room or that the expansion makes it, since a caller copies behind the call without looking; allocation always succeeds, there and in every other growth.
- MsgPacker.PackObject: leaves nine bytes of slack below 2^64 in the sink.
- MsgPacker.SBuffer.Write: contents and data together stay below 2^64 bytes.
- Floats are bit patterns: the trip of a 32-bit float through a 64-bit one and back is the identity on them, which real hardware may break for signalling NaNs.
- Map pairs are kept as one flat sequence of keys and values.
- Timestamps, the version-4 raw packers and the fixed-width integer packers, which nothing here calls.
- MsgZone.Zone.Malloc: where the system allocator places a chunk is a parameter, required to be aligned, as malloc promises, and free. What a zone is after a request whose sums wrapped is not described. Finalizers are not modelled.
- The sender's sockets and delays; only lock, unlock, wait and signal are steps of `CanTxWakeup`, where a wait may also return without a signal.
- Order of frames with one id: parked frames come back reversed, so no such order is claimed. Low frames are never taken by a round, which `Round` states.
- `SAQueue_readonly` and the raw variants of the ring's calls.
- The receive thread's sorting of frames into register, acknowledge and broadcast.
- CanRx.Registry.Bind: records hold their lists as values; the in-place array loops are proved in `CallbackList` against the same list functions.
- CanIo.Gateway.Accept: socket reads and the copying of the frames in a packet are not part of it.
- CanRegShare.SnapshotIsWhole: single reads and writes of a field are steps; reordering by the memory system is not modelled.
- JSON texts of 2^31 characters or more, where the tokenizer's positions would overflow.
- Number printing beyond integers: the text of a real value is a parameter, required to look like a numeral.
- JsonWriter.JsonDumper.HandleEnd: brackets close only what is open, as balanced events do.
- JsonForms.FormsAgree: clients escape strings and keys themselves, as the tokenizer requires; without that the forms disagree (`BareQuoteDisagrees`).
- JsmnInterface.Interface.GetDictionary: requires every key to be followed by a token, which is taken for its value; the writer's output meets this (`AllUsable`).
- JsmnInterface.Interface.GetDictionaryAtIndex: requires the same.
- `JsmnInterface_parseAsInt`, `parseAsDouble`, `stringLen` and `parseAsString`, whose copy length drops the last character.
- JSON null as a kind of its own: the tokenizer types it as an integer, which `ScalarReads` states.
- The MessagePack loader's lookup by key, which compares as many bytes as the key sought has, whatever the stored key's length.
- MsgLoader.DictAt: takes keys for strings, as the loader does; dumps have no others.
- MsgLoader.DumpThenLoad: leaves nine bytes of slack below 2^64 in the sink, as the packers do.
- JsmnInterface.Interface.ParseAsLong: numerals outside a long's range, on which C leaves the conversion open.
- The mark the JSON writer leaves for a binary, which is not JSON.
- Motor, encoder, gyro, servo and checker layers, logging, files and threads: thin wrappers without an invariant of their own.
