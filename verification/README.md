# A verified model of a small QUIC transport

This project models the deterministic core of a QUIC transport written in Rust
(simplified RFC 9000 and RFC 9002, without encryption) and proves what it is
for: that bytes arrive in order and unchanged, that nothing sent is forgotten or
counted twice, that acknowledgements are truthful, and that the two range sets,
the wire formats, the congestion controller and the scheduler do what they
promise. Where the code is narrower than its comments, the model follows the
code, a lemma shows the case, and the exact condition is proved.

`dafny verify dfyconfig.toml` checks everything.

## How it is organised

| files | part |
|---|---|
| `Core`, `RangeList` | shared types; sets of integers as canonical lists of ranges |
| `BTreeRangeSet`, `BTreeReplace`, `ArrayRangeSet`, `RangeSetAgreement` | the two range sets, each refining the list semantics, and their agreement over any history |
| `VarInt`, `AckFrame`, `Frames`, `FrameLaws`, `PacketNumbers` | the wire codec |
| `SendBuffer`, `SendLaws`, `SendStream`, `OffsetConservation`, `CarelessAcks` | the sending half of a stream, where each of its bytes is in every run, and the runs in which the code goes wrong |
| `Assembler`, `AssemblerLaws`, `RecvStream` | the receiving half |
| `StreamTransfer`, `TransferRuns`, `Rewrites` | both halves over a network that drops, duplicates and reorders packets; four particular runs; when a write to a forgotten stream is harmless |
| `Scheduler`, `StreamFrames`, `Streams`, `Priorities` | the queue of pending streams, the loop that fills a packet, and the order in which it serves them |
| `Dedup`, `PendingAcks`, `AckSoundness`, `AckRun`, `LateDuplicates` | received packet numbers, what is to be acknowledged, two endpoints acknowledging each other, and two runs that close the connection |
| `Congestion`, `Recovery`, `RecoveryLaws`, `Connection` | NewReno and RTT, outstanding packets over the three spaces, ACK processing and the loss pass |
| `InFlight`, `Handover`, `SendSide` | packets and streams together: each run of both is, for every stream, a run of `OffsetConservation` |

Objects that the source updates in place are classes; each method is proved to
compute a function of the old state (`View`), and the laws are lemmas about those
functions. Whole-run results are stated over sequences of events from the initial
state. An event that would make the code panic (an assertion, an arithmetic
underflow or an impossible encoding) ends the run, so it is not an event of the
model; the conditions are written out in the `Enabled` and `Possible` predicates.

Time, the network and the application are parameters. Integers are unbounded
except where the width is part of the behaviour: the 62-bit limits of the wire
format, the 128-bit duplicate window, packet number truncation, and the 64-bit
shift of the ACK delay.

## What the proofs show about the code

- `SendBuffer::ack` tests only the first and last byte of a segment; it can free
  unacknowledged bytes, emit `Finished` too soon, and later underflow in `get`. It
  frees only acknowledged ones exactly when both ends lie in one acknowledged range.
- `Assembler::insert` loses bytes when a buffered segment begins before the unread
  part of a frame and ends inside or at the end of it, and underflows when the
  segment also ends after it; otherwise it is exact.
- `write_stream_frames` writes only the first slice of a range under a header that
  declares all of it. The frame is right exactly when one segment holds the range;
  otherwise the parser takes the next frames for data.
- `poll_transmit` is given all the remaining space, without the type byte and the
  stream id. A frame may then be longer than the room: always if it carries all its
  data without a length, and with a length for long ids. The packet is a slice of
  fixed size, so such a frame panics, and the packet is never finished; what is
  proved of frames without a length in a whole packet is about packets that the
  source does not complete.
- With data pending, `poll_transmit` returns an empty range only for a budget of 16
  bytes; `write_stream_frames` asks for 25, so its branch for that case is dead.
- Packet number recovery tolerates one packet less of reordering than half a window,
  because the expected number that `expand` is given is already the highest plus one.
- `subtract_below` forgets every pending number up to one past the largest of the
  confirmed ACK, listed or not; those that it does not list may never be acknowledged.
- An ACK frame overtaken by a later one closes the connection.
- While packets come less than half a window late, duplicates change nothing, and an
  ACK for a packet that was not sent cannot come from a peer that runs this code. A
  duplicate that comes later is read as another packet, at least a window ahead, and
  unless that number counts as received its frames are processed again. If that
  number was never allocated, the next ACK closes the sender's connection.
- A stream that was read to its end is forgotten. A late RESET_STREAM makes a new
  entry for it, and so do its first data if the peer opened the stream and they
  arrive again, in a second packet or in a duplicate that is taken for one; then the
  application can read them again. The end is reported at most once for each time
  FIN is taken in, which travels in one packet: more than once only after such a
  duplicate. This counts entries of the table; a reader that holds a finished stream
  gets the same answer from every further call.
- A frame of a stream that the peer opened is dropped if it arrives before the first
  one, or is the first one and carries FIN. Its packet is acknowledged all the same,
  so that its bytes are never sent again: a stream of one frame never arrives.
- A write to a stream that was finished and forgotten starts it anew at offset 0 under
  the same id, and the receiver takes its frames for the old one. The bytes read stay
  a prefix of those written exactly as long as the new stream repeats the old one, or
  what was read of it if the receiver opened the stream and reads no more.
- A first FIN is accepted even below data that has already arrived, and then the end
  of the stream is never reported.
- A stream whose priority is changed while it is queued keeps its old place until it
  is next served, and so does an entry that outlives its stream.
- `Recv::ingest` would buffer a frame after a reset; only the check in the stream
  layer that the stream is still receiving keeps it from being read.
- The tail of packets that elicit no acknowledgement leaves out packet 0.
- A close frame is given two bytes for its error code; a longer one makes it exceed
  its budget when the reason is cut.
- Replacing an empty range stores an empty entry, unless some range touches it.
- ACK_FREQUENCY frames can be written but not parsed.

## Model

| member | source | states |
|---|---|---|
| `RangeList.InsertSpec` | quic-starter-code-rust/proto/src/range_set/btree_range_set.rs:59-84 | the union of a canonical list with a range is canonical and holds exactly the elements of both |
| `RangeList.RemoveSpec` | quic-starter-code-rust/proto/src/range_set/btree_range_set.rs:101-138 | the difference is canonical and holds exactly the elements outside the range |
| `RangeList.IntersectSpec` | quic-starter-code-rust/proto/src/range_set/btree_range_set.rs:140-163 | the intersection is canonical and exact; this is what replacing reports |
| `RangeList.CanonicalUnique` | quic-starter-code-rust/proto/src/range_set/array_range_set.rs:60-209 | canonical lists with the same elements are the same list |
| `BTreeRangeSet.RangeSet.Insert` | quic-starter-code-rust/proto/src/range_set/btree_range_set.rs:59-84 | keeps the map sorted, non-empty and non-adjacent, yields exactly the union, and reports whether the set changed |
| `BTreeRangeSet.RangeSet.InsertOne` | quic-starter-code-rust/proto/src/range_set/btree_range_set.rs:25-57 | the same for one element, merging with up to two neighbours |
| `BTreeRangeSet.RangeSet.Remove` | quic-starter-code-rust/proto/src/range_set/btree_range_set.rs:101-138 | yields exactly the difference and reports whether the set changed |
| `BTreeRangeSet.RangeSet.Subtract` | quic-starter-code-rust/proto/src/range_set/btree_range_set.rs:171-175 | removes every range of another set |
| `BTreeRangeSet.RangeSet.PopMin` | quic-starter-code-rust/proto/src/range_set/btree_range_set.rs:210-214 | takes the first range of the list |
| `BTreeReplace.Replace.constructor` | quic-starter-code-rust/proto/src/range_set/btree_range_set.rs:140-163 | for any range: a range at or before its start that touches it is taken out and held apart, and the rest is left to the iterator |
| `BTreeReplace.Replace.Drop` | quic-starter-code-rust/proto/src/range_set/btree_range_set.rs:322-329 | however early the iterator is dropped, the set becomes the union; it is left valid if and only if the range is not empty or some range touches its start |
| `BTreeReplace.TakeAndDrop` | quic-starter-code-rust/proto/src/range_set/btree_range_set.rs:140-163 | for every range and number of calls to next: the pieces are the first ones of the old intersection, in increasing order, and the set is the union; an empty range leaves a valid set exactly when some range touches its start |
| `BTreeReplace.Replace.Next` | quic-starter-code-rust/proto/src/range_set/btree_range_set.rs:288-320 | each call yields the next piece of the old intersection |
| `ArrayRangeSet.ArrayRangeSet.Insert` | quic-starter-code-rust/proto/src/range_set/array_range_set.rs:85-145 | walking the vector by index computes exactly the union, and reports whether the set changed |
| `ArrayRangeSet.ArrayRangeSet.Remove` | quic-starter-code-rust/proto/src/range_set/array_range_set.rs:147-189 | cutting ranges in place computes exactly the difference, and reports whether the set changed |
| `ArrayRangeSet.ArrayRangeSet.Subtract` | quic-starter-code-rust/proto/src/range_set/array_range_set.rs:72-79 | removes every range of another set |
| `ArrayRangeSet.ArrayRangeSet.Contains` | quic-starter-code-rust/proto/src/range_set/array_range_set.rs:60-70 | true exactly for elements of the set |
| `ArrayRangeSet.ArrayRangeSet.Greatest` | quic-starter-code-rust/proto/src/range_set/array_range_set.rs:207-209 | the greatest element, if any |
| `RangeSetAgreement.StepMeaning` | quic-starter-code-rust/proto/src/range_set/array_range_set.rs:72-201 | what each shared operation does, said in terms of the elements alone: union, difference, or removal of the lowest block, and a truthful flag |
| `RangeSetAgreement.ApplyTree` | quic-starter-code-rust/proto/src/range_set/btree_range_set.rs:25-215 | the map-based set computes the common step function |
| `RangeSetAgreement.ApplyArray` | quic-starter-code-rust/proto/src/range_set/array_range_set.rs:60-209 | the array-based set computes the common step function |
| `RangeSetAgreement.RunBoth` | quic-starter-code-rust/proto/src/range_set/array_range_set.rs:60-209 | over any history of insertions, removals, subtractions and pops, both sets hold identical ranges and gave identical replies |
| `VarInt.VarintRoundTrip` | quic-starter-code-rust/proto/src/varint.rs:36-96 | an integer below 2^62, written in 1, 2, 4 or 8 bytes, is read back with the rest of the buffer untouched |
| `VarInt.VarintFirst` | quic-starter-code-rust/proto/src/varint.rs:11-34 | the length that the first byte announces is the length that was written |
| `VarInt.VarintValue` | quic-starter-code-rust/proto/src/varint.rs:36-96 | the bytes, most significant first, spell the value under two bits for the length: 0, 1, 2 and 3 for 1, 2, 4 and 8 bytes |
| `VarInt.BytesRoundTrip` | quic-starter-code-rust/proto/src/varint.rs:65-102 | length-prefixed bytes are read back |
| `AckFrame.EncodeInto` | quic-starter-code-rust/proto/src/frame.rs:269-298 | the loop over ranges, largest first, writes the gap and block fields of the whole set, between the right type and the ECN counts if there are any |
| `AckFrame.ScanAckBlocks` | quic-starter-code-rust/proto/src/frame.rs:803-820 | the validating loop computes the recursive scan and returns exactly the bytes consumed |
| `AckFrame.AckIter.Next` | quic-starter-code-rust/proto/src/frame.rs:218-231 | yields the next range; on data the scan accepted it neither underflows nor fails its unwrap |
| `AckFrame.ScanAccepts` | quic-starter-code-rust/proto/src/frame.rs:803-820 | the encoding of any non-empty canonical set below 2^62 is accepted, with exactly its own bytes consumed |
| `AckFrame.RangesRoundTrip` | quic-starter-code-rust/proto/src/frame.rs:218-298 | iterating an encoding yields the original ranges in descending order |
| `AckFrame.AcceptedIterates` | quic-starter-code-rust/proto/src/frame.rs:218-231 | on any bytes the scan accepts, iteration succeeds and yields disjoint descending ranges starting at the largest |
| `AckFrame.ScanExact` | quic-starter-code-rust/proto/src/frame.rs:721-745 | the slice that the parser keeps is accepted on its own |
| `AckFrame.AckFrameBound` | quic-starter-code-rust/proto/src/frame.rs:269-298 | an ACK frame of at most 64 blocks without ECN takes at most 1034 bytes |
| `Frames.FrameParser.Next` | quic-starter-code-rust/proto/src/frame.rs:822-839 | each call parses one frame, consumes at least one byte, and stops the parser at the first error |
| `Frames.Collect` | quic-starter-code-rust/proto/src/frame.rs:658-839 | on any input the parser terminates with the frames up to the first error |
| `Frames.FrameRoundTrip` | quic-starter-code-rust/proto/src/frame.rs:345-465 | every frame of an encoder in these lines, and ACK with or without ECN counts, is parsed back, with the bytes after it untouched if it carries its own length |
| `Frames.AckFrequencyRefused` | quic-starter-code-rust/proto/src/frame.rs:616-623 | the frame of the remaining encoder, ACK_FREQUENCY, is refused as unknown |
| `FrameLaws.TypeExact` | quic-starter-code-rust/proto/src/frame.rs:159-197 | on any bytes, the parser returns a frame of the type it read, up to what `ty` drops, and calls the type invalid exactly if it is none of the known ones |
| `FrameLaws.LayoutParses` | quic-starter-code-rust/proto/src/frame.rs:658-785 | the frames that are never written, each from its layout in section 19 of RFC 9000, are parsed back with the rest of the payload untouched |
| `FrameLaws.CloseBudget` | quic-starter-code-rust/proto/src/frame.rs:532-590 | the reason of a close frame is cut to exactly what the budget leaves, and the frame keeps its budget if its error code takes at most two bytes |
| `FrameLaws.NewConnectionIdExact` | quic-starter-code-rust/proto/src/frame.rs:743-762 | which NEW_CONNECTION_ID frames are refused, and how: malformed, cut short, or a panic for an id of more than 20 bytes |
| `Frames.PayloadRoundTrip` | quic-starter-code-rust/proto/src/frame.rs:345-839 | the concatenated encodings of any list of well-formed frames parse to the same list, given that a frame without length comes only last |
| `PacketNumbers.WireTruncates` | quic-starter-code-rust/proto/src/packet.rs:115-175 | what arrives is the number modulo the window of its length, although a three-byte number is held untruncated |
| `PacketNumbers.NewShortest` | quic-starter-code-rust/proto/src/packet.rs:115-130 | the shortest form of one to four bytes whose range is more than twice the distance to the last acknowledged number, if there is one |
| `PacketNumbers.ExpandExact` | quic-starter-code-rust/proto/src/packet.rs:177-206 | expansion returns the original number exactly when it lies in one window around the expected one |
| `PacketNumbers.Recovered` | quic-starter-code-rust/proto/src/packet.rs:115-206 | through the wire, with the receiver at or past the acknowledged number, the number is recovered if and only if `highest + 1` is less than half a window ahead of it |
| `PacketNumbers.ExpandMisreads` | quic-starter-code-rust/proto/src/packet.rs:177-206 | a number half a window or more behind the expected one is read as one with the same low bits, at least a whole window later |
| `PacketNumbers.RecoveryEdge` | quic-starter-code-rust/core/src/connection/mod.rs:254-257 | half a window minus one ahead is already too far: packet 100 is taken for 356 |
| `SendBuffer.SendBuffer.Write` | quic-starter-code-rust/core/src/connection/stream/send.rs:144-148 | appends a segment and moves the end |
| `SendBuffer.SendBuffer.Ack` | quic-starter-code-rust/core/src/connection/stream/send.rs:153-187 | frees exactly the segments from the front whose first and last bytes are acknowledged, and trims the ACK set |
| `SendBuffer.SendBuffer.PollTransmit` | quic-starter-code-rust/core/src/connection/stream/send.rs:202-260 | takes the next range from the retransmission queue or the unsent data and says whether its length is encoded |
| `SendBuffer.SendBuffer.Get` | quic-starter-code-rust/core/src/connection/stream/send.rs:270-291 | the bytes at an offset up to the end of the segment that holds it |
| `SendBuffer.SendBuffer.Retransmit` | quic-starter-code-rust/core/src/connection/stream/send.rs:295-298 | adds a sent range to the retransmission queue |
| `SendLaws.AckFreesOnlyAcked` | quic-starter-code-rust/core/src/connection/stream/send.rs:166-178 | `ack` frees only acknowledged bytes if and only if each freed segment has both its ends in one acknowledged range |
| `SendLaws.AckHolds` | quic-starter-code-rust/core/src/connection/stream/send.rs:153-187 | after an ACK the buffer still holds exactly the written bytes from its base on |
| `SendLaws.GetIsPrefix` | quic-starter-code-rust/core/src/connection/stream/send.rs:270-291 | `get` on a buffered range returns a non-empty correct prefix, all of it exactly when one segment holds the range |
| `SendLaws.PollBudget` | quic-starter-code-rust/core/src/connection/stream/send.rs:202-260 | for a budget of at least 16, offset, optional length and data never exceed it, with equality when the length is omitted |
| `SendLaws.PollShrinks` | quic-starter-code-rust/core/src/connection/stream/send.rs:202-260 | the outstanding work shrinks by exactly the polled range |
| `SendLaws.WaitsExactly` | quic-starter-code-rust/core/src/connection/stream/send.rs:314-316 | unsent data are reported exactly while some offsets wait to be sent or sent again |
| `SendLaws.PollExact` | quic-starter-code-rust/core/src/connection/stream/send.rs:202-260 | the polled range begins the first range to send again, or the unsent data; the length goes along exactly if all of it would fit without, and then all of it is taken or eight bytes are left for the length |
| `SendLaws.PollStalls` | quic-starter-code-rust/core/src/connection/stream/send.rs:202-260 | with data pending the range is empty if and only if the budget is 16, the offset takes eight bytes and fewer than eight bytes are wanted |
| `SendLaws.AckOneSegment` | quic-starter-code-rust/core/src/connection/stream/send.rs:153-187 | a buffer of one segment is freed whole or not at all, by the test of its two end bytes |
| `SendStream.Send.Ack` | quic-starter-code-rust/core/src/connection/stream/send.rs:83-94 | applies one acknowledged frame and reports completion when FIN and all data are acknowledged |
| `SendStream.SizeFixedOnceClosed` | quic-starter-code-rust/core/src/connection/stream/send.rs:29-80 | once a stream is finished, reset or stopped, its size never changes over any later calls, and every write and every further finish is refused |
| `SendStream.StopReasonSticks` | quic-starter-code-rust/core/src/connection/stream/send.rs:29-80 | over any later calls the first STOP_SENDING counts: later ones change nothing, and finishing, and writing while open, fail with its code |
| `SendStream.FinishedOnce` | quic-starter-code-rust/core/src/connection/stream/send.rs:29-42 | the first finish closes the stream and makes FIN pending, and every later one is refused |
| `SendStream.ResetSticks` | quic-starter-code-rust/core/src/connection/stream/send.rs:59-65 | over any later calls a reset stream stays reset, refuses data and finishing, and is never reported complete |
| `OffsetConservation.InvKept` | quic-starter-code-rust/core/src/connection/stream/send.rs:202-298 | every action keeps the four places of a live stream disjoint and complete and its FIN in one place, unless a forgotten stream begins anew while packets carry frames of it |
| `OffsetConservation.RebornExact` | quic-starter-code-rust/core/src/connection/stream/send.rs:378-379 | a write to a forgotten stream begins a new one in order if and only if no packet carries a frame of the old one |
| `OffsetConservation.OffsetConserved` | quic-starter-code-rust/core/src/connection/stream/send.rs:202-298 | in every state of a run without such a write, each written offset of a live stream is in exactly one place: unsent, queued for retransmission, acknowledged, or carried by exactly one frame |
| `OffsetConservation.FramesOnce` | quic-starter-code-rust/core/src/connection/stream/send.rs:293-298 | in those runs no offset and no FIN is acknowledged twice, and the assertion of `retransmit` always holds |
| `OffsetConservation.FinishedMeansAcked` | quic-starter-code-rust/core/src/connection/stream/state.rs:378-400 | in every run whose ACKs meet the endpoint test inside single ranges, `Finished` is emitted only when FIN and every written byte are acknowledged, and then no packet carries a frame of the stream, so later writes under its id begin in order |
| `CarelessAcks.FinishedTooSoon` | quic-starter-code-rust/core/src/connection/stream/send.rs:166-178 | a run from a new stream, every frame of which fits its packet: writes of 1 and 119 bytes in three frames, the first and last acknowledged, and `Finished` is emitted with 91 bytes unacknowledged |
| `CarelessAcks.DirtyRebirth` | quic-starter-code-rust/core/src/connection/stream/send.rs:378-379 | a write after that run puts an offset in two places |
| `CarelessAcks.LostAndFreed` | quic-starter-code-rust/core/src/connection/stream/send.rs:270-274 | the same run without FIN: the loss of the middle frame makes the next one ask `get` for an offset below its base |
| `OffsetConservation.UnackedIsBuffered` | quic-starter-code-rust/core/src/connection/stream/send.rs:153-291 | in every run whose ACKs meet the endpoint test inside single ranges, `get` on an unacknowledged range returns a non-empty correct prefix |
| `Assembler.Assembler.Read` | quic-starter-code-rust/core/src/connection/stream/recv.rs:195-226 | delivers the next chunk at the read position and keeps the counters |
| `Assembler.Assembler.Insert` | quic-starter-code-rust/core/src/connection/stream/recv.rs:230-324 | trims what was read, places the rest among the buffers and drops what it covers |
| `AssemblerLaws.InsertComplete` | quic-starter-code-rust/core/src/connection/stream/recv.rs:230-324 | after `insert` the offsets at hand are exactly the old ones and the new frame, if and only if no buffer straddles the start of its unread part |
| `AssemblerLaws.InsertMayLose` | quic-starter-code-rust/core/src/connection/stream/recv.rs:296-314 | a frame that overlaps the end of a buffered one makes the byte before it disappear |
| `AssemblerLaws.InsertHas` | quic-starter-code-rust/core/src/connection/stream/recv.rs:230-324 | whatever else is lost, the bytes of the frame itself are at hand afterwards |
| `AssemblerLaws.EnclosesExists` | quic-starter-code-rust/core/src/connection/stream/recv.rs:296-314 | the underflow condition: the unread part of the frame lies strictly inside one buffer |
| `AssemblerLaws.InsertMayUnderflow` | quic-starter-code-rust/core/src/connection/stream/recv.rs:296-314 | a frame strictly inside a buffered one underflows |
| `AssemblerLaws.HistoryComplete` | quic-starter-code-rust/core/src/connection/stream/recv.rs:195-324 | over any history of insertions and reads without a straddling buffer, nothing panics and the offsets at hand are exactly those of the frames that arrived |
| `AssemblerLaws.InsertFaithful` | quic-starter-code-rust/core/src/connection/stream/recv.rs:230-324 | inserting genuine bytes keeps every buffered byte genuine, whatever overlaps |
| `AssemblerLaws.ReadFaithful` | quic-starter-code-rust/core/src/connection/stream/recv.rs:195-226 | a chunk is the next piece of the stream |
| `AssemblerLaws.FrontierIsLeastMissing` | quic-starter-code-rust/core/src/connection/stream/recv.rs:195-226 | repeated reads stop at the first offset not at hand |
| `AssemblerLaws.ReadAll` | quic-starter-code-rust/core/src/connection/stream/recv.rs:195-226 | repeated `read` delivers the whole contiguous received prefix and then blocks |
| `RecvStream.Recv.Ingest` | quic-starter-code-rust/core/src/connection/stream/recv.rs:29-67 | checks the limit and the final size, stores the data and reports what is new |
| `RecvStream.Recv.Stop` | quic-starter-code-rust/core/src/connection/stream/recv.rs:69-92 | discards buffered data once |
| `RecvStream.Recv.Reset` | quic-starter-code-rust/core/src/connection/stream/recv.rs:111-140 | accepts a reset whose final size is consistent |
| `RecvStream.Recv.Next` | quic-starter-code-rust/core/src/connection/stream/recv.rs:482-517 | reads a chunk, or reports the end of the stream, a reset, or that nothing is ready |
| `RecvStream.FinalSizeFixed` | quic-starter-code-rust/core/src/connection/stream/recv.rs:29-140 | once known, the final size never changes, over any later history |
| `RecvStream.FinBelowDataNeverEnds` | quic-starter-code-rust/core/src/connection/stream/recv.rs:29-67 | a first FIN is accepted even if its frame ends below the highest offset seen, and then, whatever calls follow, the end of the stream is never reported |
| `RecvStream.SizeCoversData` | quic-starter-code-rust/core/src/connection/stream/recv.rs:29-140 | over any history, no data lies past a known final size if and only if the call that announced it was at least the highest offset seen |
| `RecvStream.RefusedExactly` | quic-starter-code-rust/core/src/connection/stream/recv.rs:29-140 | exactly which frames and resets are refused: offsets past 62 bits, data past or a size other than the known one, and a reset below the data that has arrived; what is refused changes nothing |
| `RecvStream.ResetDiscards` | quic-starter-code-rust/core/src/connection/stream/recv.rs:109-140 | after a reset, whatever calls the stream layer makes, nothing is buffered or accounted for, and every read answers with the code of that reset |
| `RecvStream.IngestAfterReset` | quic-starter-code-rust/core/src/connection/stream/state.rs:128-131 | without the check that the stream is still receiving, a late frame would be buffered after a reset and read |
| `RecvStream.StopDiscards` | quic-starter-code-rust/core/src/connection/stream/recv.rs:69-86 | stopping gives the bytes up to the highest offset that were not read as credits, once; nothing is buffered or read after any later calls |
| `RecvStream.BytesAddUp` | quic-starter-code-rust/core/src/connection/stream/recv.rs:29-67 | over any history the new bytes reported add up to the highest offset, and the bytes handed out to the reading position |
| `RecvStream.NextExact` | quic-starter-code-rust/core/src/connection/stream/recv.rs:482-517 | a read answers with data exactly if the next byte is at hand, else with the reset, else with the end exactly if reading stands there |
| `StreamTransfer.InvKept` | quic-starter-code-rust/core/src/connection/stream/state.rs:78-150 | every event of sender, network and receiver, except a write to a forgotten stream, keeps every message genuine and the receiver consistent with the stream |
| `StreamTransfer.BytesReadArePrefix` | quic-starter-code-rust/core/src/connection/stream/recv.rs:482-517 | end to end, over every interleaving in which nothing is written after the stream was forgotten: what was read is a prefix of what was written, the end is reported only after all of it was read, and the receiver never fails the connection |
| `StreamTransfer.ReopensExactly` | quic-starter-code-rust/core/src/connection/stream/state.rs:107-171 | delivery to a stream without an entry makes one exactly for RESET_STREAM, and for a first frame without FIN unless the receiver opened the stream |
| `StreamTransfer.ReportedPerFin` | quic-starter-code-rust/core/src/connection/stream/recv.rs:482-517 | in every such run the end of a stream is reported at most once for each time its FIN frame is taken in, whoever opened it |
| `StreamTransfer.ReportedOnce` | quic-starter-code-rust/core/src/connection/stream/recv.rs:482-517 | if no message is taken in twice, the end is reported at most once: FIN travels in one message only |
| `StreamTransfer.EndExactly` | quic-starter-code-rust/core/src/connection/stream/recv.rs:482-517 | in every single-use run a read reports the end if and only if the final size is known and the whole stream was read |
| `TransferRuns.ReportedTwice` | quic-starter-code-rust/core/src/connection/mod.rs:254-271 | a run in which late duplicates of the data and of FIN are taken for new packets, so that the whole stream is read twice and its end reported twice |
| `TransferRuns.StreamReopened` | quic-starter-code-rust/core/src/connection/stream/state.rs:112-125 | a run in which data declared lost and sent again in a second packet reopen a peer-opened stream after it was read to its end, and are read a second time, although no message was taken in twice |
| `StreamTransfer.DeliveredAtHand` | quic-starter-code-rust/core/src/connection/stream/state.rs:105-131 | exactly when delivery puts the bytes of a frame at the receiver: the stream has an entry or the frame makes one, and the entry takes data or has the bytes already |
| `TransferRuns.OneFrameStreamLost` | quic-starter-code-rust/core/src/connection/stream/state.rs:119-125 | a run in which a stream of one frame with FIN is delivered, acknowledged and reported finished, and the receiver has dropped it |
| `TransferRuns.RewriteBreaksTransfer` | quic-starter-code-rust/core/src/connection/stream/send.rs:378-379 | a run in which a write to a stream that was read, acknowledged and forgotten leaves the reader with bytes that are no prefix, and makes the receiver fail the connection |
| `Rewrites.PrefixWhileExtending` | quic-starter-code-rust/core/src/connection/stream/recv.rs:482-517 | what was read stays a prefix of what is written over any number of streams under the same id, if each begins with the whole one before it |
| `Rewrites.RewriteExact` | quic-starter-code-rust/core/src/connection/stream/send.rs:378-379 | exactly when a write to a forgotten stream keeps the prefix property, whatever follows: it begins with the whole old stream while the receiver can still read that, and with what was read if the receiver opened the stream and is done; and beginning with the whole old stream always suffices |
| `StreamTransfer.FinalSizeIsLength` | quic-starter-code-rust/core/src/connection/stream/recv.rs:29-140 | the final size a receiver knows is the length of the stream |
| `Scheduler.PendingStreamsQueue.PushPending` | quic-starter-code-rust/core/src/connection/stream/state.rs:492-509 | appends to the list of waiting entries |
| `Scheduler.PendingStreamsQueue.Pop` | quic-starter-code-rust/core/src/connection/stream/state.rs:511-513 | the top of the heap is the longest waiting entry of the highest priority, unless an unfinished stream was put back |
| `Scheduler.NoOvertaking` | quic-starter-code-rust/core/src/connection/stream/state.rs:434-513 | over any run of pushes and pops, entries of one priority are served in the order in which they were pushed |
| `Scheduler.ServedInTurn` | quic-starter-code-rust/core/src/connection/stream/state.rs:434-513 | an entry is served as soon as there have been more pops than entries ahead of it plus pushes of higher priority |
| `StreamFrames.TransmitProduces` | quic-starter-code-rust/core/src/connection/stream/state.rs:324-340 | with at least 25 bytes and something pending a frame always results, so the give-up branch is never taken; only the send point, the queue and FIN change |
| `StreamFrames.FillServesAll` | quic-starter-code-rust/core/src/connection/stream/state.rs:286-374 | filling a packet keeps every pending stream queued and leaves one pending only if the room is used up |
| `StreamFrames.FillConserves` | quic-starter-code-rust/core/src/connection/stream/state.rs:286-374 | the bytes and the FIN that a stream loses are exactly those that its frames declare |
| `StreamFrames.FillData` | quic-starter-code-rust/core/src/connection/stream/state.rs:350-355 | the data of every frame is a true, non-empty prefix of what it declares, and FIN ends what was written |
| `StreamFrames.TurnData` | quic-starter-code-rust/core/src/connection/stream/state.rs:342-355 | a frame carries all the data it declares exactly when one segment holds the range |
| `StreamFrames.UnfairStays` | quic-starter-code-rust/core/src/connection/stream/state.rs:358-369 | in unfair mode a stream with more to send is served again before any other |
| `StreamFrames.OnlyLastIsOpen` | quic-starter-code-rust/core/src/connection/stream/state.rs:324-348 | if every frame carries all its data, a frame without a length can only be the last |
| `StreamFrames.FrameFitsExactly` | quic-starter-code-rust/core/src/connection/stream/state.rs:324-355 | a frame fits the room it was given if and only if a test on the wanted range, the offset, the id, the segment and the room before the call says so |
| `StreamFrames.UsualFramesFit` | quic-starter-code-rust/core/src/connection/stream/state.rs:324-355 | for ids below 2^30 and packets below 2^14 bytes, a frame that carries all it declares fits exactly if the wanted range is shorter than the room |
| `StreamFrames.LongIdOverruns` | quic-starter-code-rust/core/src/connection/stream/state.rs:324-325 | with an eight-byte id a frame with a length overruns as well |
| `StreamFrames.FinishedPacket` | quic-starter-code-rust/core/src/connection/stream/state.rs:286-374 | a packet on which the source does not panic stays within its room, and each of its frames that carries all its data has a length |
| `StreamFrames.FramesArrive` | quic-starter-code-rust/proto/src/frame.rs:426-447 | if every frame carries all its data, a parser of the packet sees exactly the frames that were written |
| `StreamFrames.PacketArrives` | quic-starter-code-rust/core/src/connection/stream/state.rs:286-374 | from the buffers of all streams to the parser: if every frame in the packet carries all its data, the parsed frames are these, and each is true of what was written to its stream, FIN included |
| `StreamFrames.OpenFrameSwallows` | quic-starter-code-rust/core/src/connection/stream/state.rs:342-355 | after a frame without a length the parser takes everything that follows for data |
| `StreamFrames.ShortFrameSwallows` | quic-starter-code-rust/core/src/connection/stream/state.rs:350-355 | a frame with less data than its header declares makes the parser take the following bytes for data |
| `StreamFrames.TwoWritesShortFrame` | quic-starter-code-rust/core/src/connection/stream/state.rs:350-355 | two one-byte writes produce such a frame |
| `Streams.StreamsState.Write` | quic-starter-code-rust/core/src/connection/stream/send.rs:372-386 | queues the stream unless it was pending; every pending stream keeps a queue entry |
| `Streams.StreamsState.Finish` | quic-starter-code-rust/core/src/connection/stream/send.rs:399-413 | the same for FIN |
| `Streams.StreamsState.Reset` | quic-starter-code-rust/core/src/connection/stream/send.rs:416-429 | abandons a stream once and records the RESET_STREAM frame to send |
| `Streams.StreamsState.ReceivedAckOf` | quic-starter-code-rust/core/src/connection/stream/state.rs:378-400 | applies one acknowledged frame, and forgets and reports a completed stream |
| `Streams.StreamsState.Retransmit` | quic-starter-code-rust/core/src/connection/stream/state.rs:404-428 | queues lost offsets, and the stream unless it was pending |
| `Priorities.QueuesOnce` | quic-starter-code-rust/core/src/connection/stream/send.rs:372-413 | write, finish and retransmit add exactly one entry, the last, with the priority of the stream, if the stream was not pending and the call is accepted; otherwise the queue stays as it was |
| `Priorities.KeepsExactly` | quic-starter-code-rust/core/src/connection/stream/send.rs:432-440 | every call keeps the priorities in the queue equal to those of the streams, except exactly a change of priority, or a new stream, that meets an entry with another one |
| `Priorities.FillStrict` | quic-starter-code-rust/core/src/connection/stream/state.rs:286-370 | in fair mode the frames of a packet come in the order of the priorities of their streams, beginning with the highest that has something to send, and no stream that still has something is of higher priority than one that was served |
| `Priorities.HighestFirst` | quic-starter-code-rust/core/src/connection/stream/state.rs:286-370 | so it is for the next packet after any run of calls that meets no stale entry |
| `Streams.StreamsState.WriteStreamFrames` | quic-starter-code-rust/core/src/connection/stream/state.rs:286-374 | the loop terminates; it completes if and only if no frame overruns the packet, and then writes exactly the frames of `Fill` within the capacity; every pending stream keeps a queue entry |
| `InFlight.StepFollows` | quic-starter-code-rust/core/src/connection/mod.rs:451-537 | every event of packets and streams is a sequence of `OffsetConservation` actions of each stream |
| `InFlight.EveryStreamFollows` | quic-starter-code-rust/core/src/connection/mod.rs:451-537 | every run of packets and streams, seen from any one stream, is a clean run of its sender, careful if all ACKs were, whose frames in flight are exactly those of scheduled and outstanding packets |
| `InFlight.CarriedOnce` | quic-starter-code-rust/core/src/connection/mod.rs:451-537 | in every reachable state an offset of a live stream is carried by at most one packet at one place, and then is not queued for retransmission |
| `InFlight.CarefulIsPossible` | quic-starter-code-rust/core/src/connection/stream/state.rs:350-355 | while all ACKs meet the endpoint test inside single ranges, neither filling a packet nor a write to a forgotten stream can go wrong: what they need follows |
| `InFlight.AlwaysSendable` | quic-starter-code-rust/core/src/connection/stream/state.rs:350-355 | in every state of a run with such ACKs only, the bytes that the streams want to send are buffered, so the loop that fills a packet cannot underflow |
| `Handover.TakenDistinct` | quic-starter-code-rust/core/src/connection/mod.rs:501-537 | an ACK takes each packet at most once, however its ranges overlap |
| `Handover.AckIsEvents` | quic-starter-code-rust/core/src/connection/mod.rs:501-560 | the frames that an ACK hands over, acknowledged and then lost, are those of the packets that leave, each once: ACK processing is a run of `InFlight` |
| `SendSide.SendSide.Pack` | quic-starter-code-rust/core/src/connection/mod.rs:868-952 | filling and scheduling a packet keeps packet layer and streams in step; it meets no freed byte unless an ACK was careless |
| `SendSide.SendSide.HandleAck` | quic-starter-code-rust/core/src/connection/mod.rs:476-563 | ACK processing with the calls into the streams is a run of `InFlight`, whatever the ACK; the assertion of `retransmit` is proved |
| `SendSide.SendSide.LossTimer` | quic-starter-code-rust/core/src/connection/mod.rs:1054-1066 | the same for the loss pass on its own |
| `Dedup.Dedup.Insert` | quic-starter-code-rust/core/src/connection/space.rs:272-300 | true exactly when the number was inserted before or lies more than 128 below the highest |
| `Dedup.Dedup.SmallestMissing` | quic-starter-code-rust/core/src/connection/space.rs:304-330 | the least number of the interval that was neither inserted nor is left of the window |
| `Dedup.BitOfSlide` | quic-starter-code-rust/core/src/connection/space.rs:272-300 | how shifting the window renumbers its bits |
| `Dedup.History` | quic-starter-code-rust/core/src/connection/space.rs:257-300 | over any history, the reply depends only on the set of numbers inserted before |
| `PendingAcks.PendingAcks.InsertOne` | quic-starter-code-rust/core/src/connection/space.rs:555-567 | adds a number and gives up the lowest block beyond 64 |
| `PendingAcks.PendingAcks.SubtractBelow` | quic-starter-code-rust/core/src/connection/space.rs:572-576 | drops everything up to and including the bound |
| `PendingAcks.PendingAcks.IsOutOfOrder` | quic-starter-code-rust/core/src/connection/space.rs:497-537 | true exactly for a packet below the largest, or with an unreported number missing below it |
| `PendingAcks.PendingAcks.PacketReceived` | quic-starter-code-rust/core/src/connection/space.rs:444-493 | the packet becomes pending; an immediate ACK is required, and the timer armed, exactly as the policy says |
| `PendingAcks.CappedSpec` | quic-starter-code-rust/core/src/connection/space.rs:555-567 | what the cap leaves: at most 64 blocks, and exactly the numbers above the block given up |
| `PendingAcks.EverySecondPacket` | quic-starter-code-rust/core/src/connection/space.rs:444-551 | after an ACK was sent, one ack-eliciting packet in order makes none due but arms the timer, and the next one makes it due |
| `PendingAcks.ConfirmationForgets` | quic-starter-code-rust/core/src/connection/mod.rs:518-522 | confirming an ACK frame forgets an unlisted number if and only if it is pending, at most one past the largest listed and absent from the frame |
| `PendingAcks.PendingHistory` | quic-starter-code-rust/core/src/connection/space.rs:444-576 | over any history of arrivals, ACK frames and confirmations at most 64 blocks are pending, only numbers owed to the peer that no confirmed frame passed over, and all of those if the cap was never reached |
| `PendingAcks.ConfirmationDropsUnlisted` | quic-starter-code-rust/core/src/connection/mod.rs:518-522 | a number above or below the largest listed that arrives late is dropped although no ACK frame lists it |
| `Congestion.WindowBounds` | quic-starter-code-rust/core/src/connection/path.rs:238-302 | over any run with ACKs of at most one MTU, window and threshold stay at least two MTU and the byte counter below the window |
| `Congestion.StartsBounded` | quic-starter-code-rust/core/src/connection/path.rs:238-246 | the controller starts within those bounds, in slow start with ten MTU |
| `Congestion.AcksOnlyGrow` | quic-starter-code-rust/core/src/connection/path.rs:250-277 | acknowledgements alone never shrink the window and leave threshold and recovery period alone |
| `Congestion.OneCutPerPeriod` | quic-starter-code-rust/core/src/connection/path.rs:279-297 | after a cut, any signals about packets sent before it change nothing |
| `Congestion.GrowthBound` | quic-starter-code-rust/core/src/connection/path.rs:250-297 | the growth since the last congestion event is at most the bytes acknowledged since |
| `Congestion.CutHalves` | quic-starter-code-rust/core/src/connection/path.rs:279-297 | a congestion event about a packet sent after the last one halves the window, but not below two MTU, sets the threshold to it, and starts a recovery period |
| `Congestion.CutsHalve` | quic-starter-code-rust/core/src/connection/path.rs:279-297 | any run of congestion events that falls into k recovery periods leaves the window divided by two to the k, or two MTU if that is more |
| `Congestion.SlowStartExact` | quic-starter-code-rust/core/src/connection/path.rs:250-277 | below the threshold, any run of acknowledgements grows the window by exactly the bytes that count: of packets sent after the last cut, while the application fills the window |
| `Congestion.AvoidanceExact` | quic-starter-code-rust/core/src/connection/path.rs:250-277 | above it, the window grows by one MTU for each full window of such bytes, and the rest is carried over |
| `Congestion.SmoothedBounds` | quic-starter-code-rust/core/src/connection/path.rs:127-187 | after the first sample the smoothed value stays between the tracked minimum and the largest sample, despite integer division |
| `Congestion.SampleMoves` | quic-starter-code-rust/core/src/connection/path.rs:151-187 | one sample moves the smoothed value an eighth, and the variance a quarter, of the way to it, to within a unit; the ACK delay is taken off exactly if the result stays above the tracked minimum |
| `Congestion.EstimateConverges` | quic-starter-code-rust/core/src/connection/path.rs:151-187 | over n equal samples the distance of the smoothed value shrinks to seven eighths to the n of what it was, and at most seven units more |
| `Recovery.TakeConserves` | quic-starter-code-rust/core/src/connection/space.rs:87-94 | taking a packet out: the path owns it, nothing underflows, and the totals still agree |
| `Recovery.ElicitingCounts` | quic-starter-code-rust/core/src/connection/path.rs:209-219 | the ack-eliciting total is the number of such packets |
| `Recovery.ScheduleConserves` | quic-starter-code-rust/core/src/connection/mod.rs:868-952 | numbering and queueing a packet keeps the invariant |
| `Recovery.SendConserves` | quic-starter-code-rust/core/src/connection/path.rs:73-102 | sending the head of the queue keeps the invariant; the first packet sent is number 0 |
| `Recovery.LostExact` | quic-starter-code-rust/core/src/connection/mod.rs:424-446 | the loss pass picks exactly the packets up to the largest acknowledged that are old enough, each once, in order |
| `Recovery.DeadlineExact` | quic-starter-code-rust/core/src/connection/mod.rs:437-448 | the loss time is the earliest deadline among the survivors |
| `Recovery.CutAtMostOnce` | quic-starter-code-rust/core/src/connection/path.rs:279-297 | however many packets are lost together, the window is cut at most once |
| `Recovery.LossPassCutsOnce` | quic-starter-code-rust/core/src/connection/mod.rs:399-472 | a loss pass cuts the window once, exactly if it finds a lost ack-eliciting packet sent after the last cut |
| `Recovery.TakenExact` | quic-starter-code-rust/core/src/connection/mod.rs:501-537 | an ACK takes exactly the outstanding packets that its ranges name |
| `RecoveryLaws.LossPassMeans` | quic-starter-code-rust/core/src/connection/mod.rs:415-446 | in times alone: a packet up to the largest acknowledged leaves exactly if more than nine eighths of the larger of last and smoothed RTT, and one millisecond, have passed since it was sent; the loss time is the earliest send time among the others, and that delay more |
| `RecoveryLaws.AckPassMeans` | quic-starter-code-rust/core/src/connection/mod.rs:501-563 | after an ACK, an outstanding packet is gone exactly if the frame names it, or it is numbered up to its largest and overdue |
| `RecoveryLaws.NewestExact` | quic-starter-code-rust/core/src/connection/mod.rs:508-516 | the packet that gives the RTT sample is the latest of those that the frame names and that were outstanding |
| `RecoveryLaws.RttMeans` | quic-starter-code-rust/core/src/connection/mod.rs:551-557 | the estimator takes the time since that packet was sent as its sample |
| `Connection.AckDelayExact` | quic-starter-code-rust/core/src/connection/mod.rs:552-553 | the delay field counts eight microseconds, and its top bit is lost |
| `RecoveryLaws.ForgetExact` | quic-starter-code-rust/core/src/connection/mod.rs:518-522 | a number stays pending exactly if it is more than one past the largest that any of the acknowledged packets had reported |
| `RecoveryLaws.AckGrowsWindow` | quic-starter-code-rust/core/src/connection/mod.rs:528-536 | in slow start an ACK frame adds exactly the size of the ack-eliciting packets that it takes and that were sent after the last cut, unless the application limits the sending |
| `RecoveryLaws.MergedExact` | quic-starter-code-rust/core/src/connection/space.rs:167-175 | what lost packets carried of control data is pending afterwards, behind what was pending before, and nothing else |
| `RecoveryLaws.TailExact` | quic-starter-code-rust/core/src/connection/space.rs:99-119 | over any packets sent in order, the space knows the last ack-eliciting one and counts those after it, packet 0 excepted |
| `Connection.Connection.Schedule` | quic-starter-code-rust/core/src/connection/mod.rs:868-952 | numbers a packet and queues it |
| `Connection.Connection.SendOne` | quic-starter-code-rust/core/src/connection/path.rs:73-102 | moves the head of the queue to the outstanding packets and counts it |
| `Connection.Connection.DiscardSpace` | quic-starter-code-rust/core/src/connection/mod.rs:209-220 | forgets the outstanding packets of a space; the totals still agree |
| `Connection.Connection.DetectLostPackets` | quic-starter-code-rust/core/src/connection/mod.rs:399-472 | removes exactly the lost packets, hands over their frames and control data once, sets the loss time, and congests once |
| `Connection.Connection.OnAckReceived` | quic-starter-code-rust/core/src/connection/mod.rs:476-563 | refuses exactly the unsent and the regressed ACK without a trace; otherwise hands over the frames of exactly the packets named, grows the window, samples the RTT from the newest, and runs the loss pass; bytes in flight stay the sum over the three spaces, and every frame ever scheduled is in the queue, outstanding, acknowledged or lost, as often as it was scheduled |
| `AckSoundness.NumberArrives` | quic-starter-code-rust/core/src/connection/mod.rs:254-257 | exactly inside the window, and always for the first packet, the receiver recovers the number that was sent |
| `AckSoundness.AckArrives` | quic-starter-code-rust/core/src/connection/mod.rs:977-996 | an ACK frame is read back as the pending ranges of its sender |
| `AckSoundness.StepKeeps` | quic-starter-code-rust/core/src/connection/mod.rs:237-348 | every event of two endpoints and the network keeps the invariant, and no largest acknowledged number decreases |
| `AckSoundness.AcksAreSound` | quic-starter-code-rust/core/src/connection/mod.rs:484-499 | over every run in which packets come in time, each ACK frame lists only numbers of packets that the peer has allocated and put on the wire, so the check for unsent packets never fires |
| `AckSoundness.LargestIsAllocated` | quic-starter-code-rust/core/src/connection/mod.rs:544-548 | in every reachable state the largest acknowledged number is below the next number |
| `AckSoundness.BuildSendable` | quic-starter-code-rust/core/src/connection/mod.rs:868-871 | a packet can be built unless its number, delay or distance does not fit |
| `AckSoundness.ClosedOnlyByOvertaking` | quic-starter-code-rust/core/src/connection/mod.rs:490-499 | delivery closes the receiver exactly when the packet is new and its ACK was overtaken by a larger one |
| `AckSoundness.DuplicateExact` | quic-starter-code-rust/core/src/connection/mod.rs:254-271 | a duplicate changes nothing if it comes in time; later it is read as a packet at least a window ahead, and its frames are processed again exactly if that number does not count as received |
| `AckSoundness.TakenOnce` | quic-starter-code-rust/core/src/connection/mod.rs:254-271 | over every run in which packets come in time, once the duplicate filter has seen a packet every later delivery of it changes nothing |
| `LateDuplicates.LateDuplicateCloses` | quic-starter-code-rust/core/src/connection/mod.rs:484-488 | a run from the start in which a duplicate of packet 0 is taken for packet 256, acknowledged although only 128 packets were built, and the check for unsent packets closes the connection |
| `AckRun.ReorderingCloses` | quic-starter-code-rust/core/src/connection/mod.rs:490-499 | in every reachable state, two ACK frames delivered in the wrong order, neither in a duplicate and the later for an outstanding packet, close the connection |
| `AckRun.OvertakenAckCloses` | quic-starter-code-rust/core/src/connection/mod.rs:490-499 | a run from the start in which that happens |

## Left out

- Endpoint, tokio tasks, UDP sockets, the client and server programs, timers and wakers: input and output only. A timer is an optional instant.
- Handshake progress, connection close, stateless reset, connection ids, spin and key-phase bits, and the long-header variants; packet numbers are modelled from their bytes on.
- Liveness: the probe timeout, retransmission of FIN and completeness of ACKs, which the code does not provide.
- Unordered reads and defragmentation of receive buffers: the first is not implemented, the second changes no contents.
- `EltIter` with front and back calls mixed, set union of whole range sets, `reset_acked`: unused by the transport.
- Parsing a NEW_CONNECTION_ID frame with an id longer than 20 bytes panics in the source; the parser model reports `Panicked`. The refusal of an empty payload by `FrameParser::new` is not modelled.
- Stream limits and flow control, and control-frame writing beyond recording what is to be sent.
- `NewReno`, `RttEstimator` and `Send` as objects inside the connection: the classes are proved to compute the values that `Connection` and `Streams` hold, so aliasing between them is not modelled.
- BTreeRangeSet.RangeSet.Subtract: requires two distinct objects, as the borrow rules of the source do.
- SendBuffer.SendBuffer.Get: requires the range to begin at or after the first buffered byte, because the subtraction underflows otherwise.
- Streams.StreamsState.WriteStreamFrames: requires that waiting offsets are buffered and have encodings, because the source panics otherwise; `InFlight.AlwaysSendable` proves the first of every careful run. A stream is held as a value.
- Connection.Connection.OnAckReceived: packet spaces, NewReno and the RTT estimator are values inside the connection; re-arming timers is not modelled.
- InFlight.EveryStreamFollows: excludes a write to a forgotten stream of which packets still carry frames, since it mixes two streams up (`CarelessAcks.DirtyRebirth`), and a packet filled from freed bytes, where the source panics (`CarelessAcks.LostAndFreed`); neither can happen while all ACKs are careful (`InFlight.CarefulIsPossible`).
- StreamTransfer.BytesReadArePrefix: excludes writes to a forgotten stream, which break it (`TransferRuns.RewriteBreaksTransfer`) exactly as `Rewrites.RewriteExact` says, and transmissions of a range that no single segment holds, which put false data on the wire. It follows one stream over its own frames; in a packet the condition is needed of the frames of every stream (`StreamFrames.PacketArrives`, `StreamFrames.ShortFrameSwallows`).
- Rewrites.RewriteExact: for a stream that the peer opened and none of whose frames can open it (it was sent in one frame with FIN), only one half is proved: a new stream that begins with the old one is harmless.
- AckSoundness.AcksAreSound: one packet number space at a time, and deliveries in which the receiver is not half a window ahead of the packet; beyond that window the number itself is misread (`AckSoundness.DuplicateExact`, `LateDuplicates.LateDuplicateCloses`).
- Scheduler.PendingStreamsQueue.PushPending: the recency counter does not stop at zero, which takes 2^64 pushes.
- Overflow of 64-bit counters and times: not modelled, apart from the limits named above.
