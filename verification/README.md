# The stream data path of quic-go, in Dafny

This project models the data path of the QUIC transport in `quic-go/` and proves what it promises
(RFC 9000, RFC 8899). `dafny verify dfyconfig.toml` verifies all of it. It is organised like the
program, one module to a component:

- **Receiving** — `Tree.dfy` (the AVL tree of gaps), `FrameSorter.dfy`, `Reassembly.dfy` (whole runs of
  the sorter), `ReceiveStream.dfy`, `ReceiveRuns.dfy` (whole runs of a stream).
- **Sending** — `Wire.dfy` (frame sizes), `FrameLedger.dfy` (where every byte is), `Sender.dfy` (a stream
  seen from outside), `SendStream.dfy`, `SendRuns.dfy`, `Framer.dfy` (packing a packet), `Codec.dfy` (frames
  as bytes).
- **Credit** — `FlowControl.dfy` (stream and connection controllers), `SharedCredit.dfy` (many streams
  on one connection).
- **CRYPTO streams** — `ClientHello.dfy` (finding the server name), `CryptoPlan.dfy` (how often a cut
  ClientHello sends each byte), `CryptoStream.dfy`, `CryptoRuns.dfy`, `Chaos.dfy` and `ChaosSplit.dfy`
  (chaos protection).
- **Path MTU** — `Mtu.dfy`.
- **Stream limits** — `OutgoingStreams.dfy`, `IncomingStreams.dfy`.
- **Shared** — `Protocol.dfy` (constants), `Sums.dfy`.

Objects that the code updates in place are classes, with loops and arrays where the code has them.
A region that holds the mutex is one method call; where the code waits on a channel, a method returns
(`Blocked`, `Waiting`) and another one goes on after the wake-up. So an interleaving is a sequence of
calls, and the methods named `Run` take any such sequence and state what holds of all of them. Random
numbers, acknowledgements and losses, limiters, clocks and deadlines are arbitrary arguments.

The runs are proved against simpler things: a receiving stream against a tally of events that knows no
frames or gaps, a sending stream against byte counts, without a buffered frame, the lines of
`OpenStreamSync` against a queue without channels, incoming streams against three counters, a connection
against the sums over its streams' accounts.

Some promises hold only under a condition, which is given exactly:

- The cuts of a scrambled ClientHello send every byte once if and only if they are separated
  (`CryptoPlan.OnceIffSeparated`) and are not started over. An encrypted hello right before the server name
  breaks the first (`CryptoPlan.TouchingCutsRepeat`), an empty write between the cuts the second
  (`CryptoRuns.EmptyWriteRepeats`); the receiver still gets the ClientHello (`CryptoRuns.Deliver`).
- With an empty server name the stream never finishes (`CryptoRuns.EmptyNameNeverEnds`): all that is cut
  before the name is sent, what is cut or written behind it is not. A ClientHello with an encrypted hello
  but without a server name is never sent (`CryptoPlan.MissingCutStalls`), since the comparison at
  `quic-go/crypto_stream.go:203-211` leaves the missing cut first. `CryptoRuns.Run` has the exact condition
  for both.
- An MTU search tolerates two chance losses and not three (`Mtu.Discover`): with at most two it is
  accurate whatever else happens, while three at the start of any search that is not over at once mislead
  it. The outcome of a probe from before a reset is ignored unless the number of resets since is a multiple
  of 256 (`Mtu.StaleProbe`): the generation is an 8-bit counter.
- A read that returns the last byte, into a buffer that holds it, also returns the end of the stream, unless
  the frame that holds it was fetched before the end was known (`ReceiveStreams.ReceiveStream.Read`): then
  that takes one more read (`ReceiveStreams.LateFin`), since `quic-go/receive_stream.go:177-179` returns first.
- A write that waits is woken up when it can go on, unless a part of the buffered frame is still to be sent
  (`Senders.LateWakeUp`): then only with the last byte of that frame.
- A frame with the computed data length fits if and only if that length takes at most two bytes
  (`Wire.MaximalFitsIff`).

One branch of the code is never taken: a woken `OpenStreamSync` always finds a stream
(`OutgoingStreams.AwakeFindsStream`), so it never goes back to waiting at
`quic-go/streams_map_outgoing.go:125-128`.

## Model

| member | source | states |
|---|---|---|
| `GapTree.Insert` | quic-go/internal/utils/tree/tree.go:91-128 | inserting keeps the AVL tree ordered and balanced, adds exactly the value, and says whether it was new |
| `GapTree.Delete` | quic-go/internal/utils/tree/tree.go:254-304 | deleting keeps the AVL tree ordered and balanced, removes exactly the value, and says whether it was there |
| `GapTree.Match` | quic-go/internal/utils/tree/tree.go:424-443 | the pruned in-order search returns, in ascending order, exactly the gaps that overlap or touch the given range |
| `GapTree.SingleRightAvl` | quic-go/internal/utils/tree/tree.go:446-455 | a single right rotation of a left-heavy node restores balance and keeps order and elements |
| `GapTree.SingleLeftAvl` | quic-go/internal/utils/tree/tree.go:458-467 | a single left rotation of a right-heavy node restores balance and keeps order and elements |
| `GapTree.HeightFitsInt8` | quic-go/internal/utils/tree/tree.go:496-503 | with at most 20002 gaps the height is at most 20, so the 8-bit height field never wraps |
| `GapTree.Btree.InsertValue` | quic-go/internal/utils/tree/tree.go:81-89 | the set of values grows by exactly the value |
| `GapTree.Btree.DeleteValue` | quic-go/internal/utils/tree/tree.go:236-244 | the set of values loses exactly the value |
| `GapTree.Btree.MatchValues` | quic-go/internal/utils/streamframe_interval.go:15-41 | the gaps that overlap or touch a frame, ascending |
| `FrameSorting.FillKeepsPartition` | quic-go/frame_sorter.go:113-185 | filling part of the gaps with one entry keeps the partition of the offsets into read bytes, disjoint non-empty entries and separated gaps, and makes exactly these bytes present |
| `FrameSorting.PlanFills` | quic-go/frame_sorter.go:50-187 | whatever cuts, replacements and splits a push makes, its outcome is one entry, cut from the frame, that holds all its new bytes; the partition is kept |
| `FrameSorting.OneMoreGap` | quic-go/frame_sorter.go:113-185 | whatever a push cuts, replaces and splits, it leaves at most one gap more |
| `FrameSorting.FrameSorter.DeleteConsecutive` | quic-go/frame_sorter.go:190-203 | removes a maximal run of adjacent entries and calls each of their callbacks once |
| `FrameSorting.FrameSorter.ReplaceCovered` | quic-go/frame_sorter.go:84-111 | the entries the frame covers from its start on are removed, up to one that reaches further |
| `FrameSorting.FrameSorter.CutFrame` | quic-go/frame_sorter.go:77-169 | the frame is cut to its new part; gaps and entries change as planned; a frame inside a stored one changes nothing; it counts as cut exactly if it got shorter, or replaced a frame and ends where a stored one starts |
| `FrameSorting.CutMeans` | quic-go/frame_sorter.go:84-111 | a frame that is not shortened counts as cut exactly if it brings nothing new and an entry starts where it ends |
| `FrameSorting.FrameSorter.CopyIfShort` | quic-go/frame_sorter.go:171-179 | the callback is called, and dropped from the entry, exactly if the frame was cut and fewer than 128 bytes are left |
| `FrameSorting.NewFrameStored` | quic-go/frame_sorter.go:50-187 | a frame of new bytes only is stored whole under its own callback, beside all other entries |
| `FrameSorting.CallsExplained` | quic-go/frame_sorter.go:39-187 | a push leaves every callback where it is that neither an entry inside the frame nor the frame itself gives up |
| `FrameSorting.FrameSorter.StoreFrame` | quic-go/frame_sorter.go:77-187 | the partition is kept, the new bytes are filled in, the callback is in exactly one place: with the entry, unless the frame was cut to fewer than 128 bytes; the frame is refused exactly when that leaves more than 20000 gaps |
| `FrameSorting.FrameSorter.PushFrame` | quic-go/frame_sorter.go:50-187 | a duplicate changes nothing and holds nothing new; otherwise exactly the frame's bytes stop being missing, and the entry keeps the callback unless the frame was cut short; refused exactly beyond 20000 gaps, at most one of which is new |
| `FrameSorting.FrameSorter.Push` | quic-go/frame_sorter.go:39-48 | after a successful push exactly the bytes of the frame stop being missing, its new part replaces the entries it covers and nothing else changes, and every callback keeps its one place; it calls callbacks only of entries it covers, and its own only if it brings nothing new or was cut to fewer than 128 bytes; a frame of new bytes only is stored whole with its callback, and nothing is called; a push fails only beyond 20000 gaps, and adds at most one |
| `FrameSorting.FrameSorter.Pop` | quic-go/frame_sorter.go:205-215 | pops the entry at the read position; empty exactly when that byte is missing; its callback is handed out |
| `FrameSorting.FrameSorter.PeekCheck` | quic-go/frame_sorter.go:227-246 | succeeds exactly when a frame starts at the offset and no byte of the range is missing |
| `FrameSorting.FrameSorter.Peek` | quic-go/frame_sorter.go:227-256 | on success the buffer holds the stored bytes of the range; on failure it is untouched |
| `Reassembly.Step` | quic-go/frame_sorter.go:39-215 | one push or pop keeps what is known about the whole run: agreement with the stream, the missing bytes, the callbacks, the number of gaps; a push fails only beyond 20000 |
| `Reassembly.Reassemble` | quic-go/frame_sorter.go:39-215 | for every interleaving of pushes and pops of frames cut from one stream, in any order, overlap and repetition: the chunks concatenate to a prefix of the stream, a pop is empty exactly when the next byte was never pushed, every callback issued was called, handed out or is stored, exactly once, the callback of a frame that overlaps no other is never called, and with fewer than 20000 pushes none fails |
| `ReceiveStreams.ReceiveStream.HandleStreamFrame` | quic-go/receive_stream.go:449-468 | exactly the bytes of an accepted frame stop being missing and count on both levels, a known final offset does not change; refused exactly for a final size that contradicts the data, or else beyond a window, or with too many gaps |
| `ReceiveStreams.ReceiveStream.HandleResetStreamFrame` | quic-go/receive_stream.go:486-516 | an accepted reset settles the final offset, which does not change if known, makes the reliable size that of the first reset or a smaller one, and returns credit once it is effective; refused exactly for a final size that contradicts the data, or else beyond a window |
| `ReceiveStreams.ReceiveStream.DequeueNextFrame` | quic-go/receive_stream.go:385-394 | the buffer that was read goes back once; the next frame continues at the read position; without one, the next byte is missing |
| `ReceiveStreams.ReceiveStream.Consume` | quic-go/receive_stream.go:225-246 | reading bytes credits both flow controllers, and a reset that thereby becomes effective gives back everything received |
| `ReceiveStreams.ReceiveStream.FinishLast` | quic-go/receive_stream.go:248-255 | the last frame is finished exactly at the final offset, and its buffer goes back once |
| `ReceiveStreams.ReceiveStream.ReadRound` | quic-go/receive_stream.go:181-255 | one round copies the next bytes of the stream, unless a reset is effective; it waits only for a missing byte before the final offset and the reliable size of a reset, ends only at the final offset, goes on there only with a frame that is not known to be the last, and returns an error only for its reason |
| `ReceiveStreams.ReceiveStream.NextRound` | quic-go/receive_stream.go:171-260 | fetching a frame and reading a round of it continues what was read before; a short read has a missing byte behind it |
| `ReceiveStreams.ReceiveStream.ReadLoop` | quic-go/receive_stream.go:171-262 | the buffer gets the next bytes of the stream; a short read means that the next byte is missing, the end, or an error |
| `ReceiveStreams.ReceiveStream.Read` | quic-go/receive_stream.go:158-262 | reads bytes at the read position that have arrived, none once a reset is effective; EOF only at the final offset; after that, cancellation, an effective reset, shutdown and a passed deadline come before any reading, in this order, and otherwise only for their reason; waits only for a missing byte before the final offset and the reliable size of a reset; with everything up to the final offset there and nothing in the way it returns all of it that fits, with EOF if and only if the buffer holds it and the frame being read was not fetched before the end was known |
| `ReceiveStreams.ReceiveStream.ReadsToEnd` | quic-go/receive_stream.go:171-262 | what a read comes to when everything up to the final offset has arrived: all that fits, and EOF exactly under that condition |
| `ReceiveStreams.LateFin` | quic-go/receive_stream.go:173-179 | for every stream that arrives in one frame, is peeked at and only then ended by an empty frame: a read with room to spare returns all of it without EOF, which takes one more read |
| `ReceiveStreams.ReceiveStream.PeekEnd` | quic-go/receive_stream.go:334-356 | a short peek ends at the reliable size of a reset or the final offset, with all bytes up to there; otherwise some byte before both is missing |
| `ReceiveStreams.ReceiveStream.Peek` | quic-go/receive_stream.go:287-383 | returns bytes at the read position that have arrived, without moving it, and fetches the frame there; EOF only with all bytes up to the final offset; cancellation, an effective reset, shutdown and a passed deadline come first, in this order; waits only for a missing byte before the final offset and the reliable size of a reset; each error only for its reason |
| `ReceiveStreams.ReceiveStream.PeekAgain` | quic-go/receive_stream.go:378-382 | a peek that goes on after a wait promises the same, and notices the end of the stream even after the deadline |
| `ReceiveStreams.ReceiveStream.CancelRead` | quic-go/receive_stream.go:415-430 | the state stays valid and the stream is cancelled unless it was shut down |
| `ReceiveRuns.PeekForetellsReads` | quic-go/receive_stream.go:270-285 | what a peek returned is what the reads return at that position |
| `ReceiveRuns.ReceivedPrefix` | quic-go/receive_stream.go:158-262 | what the reads of a run return is a prefix of the stream, and only grows |
| `ReceiveRuns.FinalNeverChanges` | quic-go/receive_stream.go:449-516 | a final offset, once known, never changes and is the highest offset received |
| `ReceiveRuns.ReceivedArrived` | quic-go/receive_stream.go:158-468 | no read returns a byte that no frame brought |
| `ReceiveRuns.ReliableIsSmallest` | quic-go/receive_stream.go:494-514 | once a reset took hold, the reliable size is no larger than that of any reset received |
| `ReceiveRuns.ResetKeepsReliable` | quic-go/receive_stream.go:171-276 | a read fails for a reset only once everything below the smallest reliable size was received |
| `ReceiveRuns.Take` | quic-go/receive_stream.go:158-516 | one step comes to an event that the events so far allow, or is a frame refused for its reason |
| `ReceiveRuns.Run` | quic-go/receive_stream.go:158-516 | over every interleaving of STREAM and RESET_STREAM frames, reads, peeks, cancellation and shutdown: every step comes to what the events before it allow, reads to the next bytes of the stream, peeks to the bytes that follow, all of which arrived, EOF only at the final offset, a reset error only once everything below the smallest reliable size was read, waiting only for bytes that have not arrived and may still be needed; once everything up to the final offset has arrived, a read returns all of it that fits, with EOF if it reaches the final offset, unless everything had arrived before the end was known and some of it was unread; the run stops early only at a frame that contradicts the final size, exceeds a window or follows 19999 others; and without cancellation, credit equals what was read, or everything received once a reset took effect |
| `FlowControl.UpdateAdvances` | quic-go/flow_controller_base.go:35-80 | an update is made exactly if at least the threshold fraction of the window was read; it moves the window strictly forward and keeps all bounds; the size doubles, up to the maximum, exactly if more than half of it was read since the epoch began, too fast, and memory allows it |
| `FlowControl.UpdateIffDue` | quic-go/flow_controller_base.go:35-41 | what is left of the window is below the rounded limit if and only if at least the threshold fraction of the window was read, for every size and fraction |
| `FlowControl.RunKeepsWindow` | quic-go/flow_controller_base.go:31-84 | over any run without error the window never shrinks and unread data stays within the window size |
| `FlowControl.NewWindowRuns` | quic-go/flow_controller_base.go:31-84 | from a new controller, the window size never exceeds the larger of initial and maximum size |
| `FlowControl.NeverStuck` | quic-go/flow_controller_base.go:31-80 | after any run, once everything the peer may send was read, an update lets it send at least the initial window more |
| `FlowControl.ConnectionFlowController.TryAddBytesSent` | quic-go/flow_controller_connection.go:74-84 | credit for all bytes or none, and never beyond the window |
| `FlowControl.ConnectionFlowController.AddBytesSentWithLimiter` | quic-go/flow_controller_connection.go:86-104 | takes what the window and the limiter allow, and reports when the limiter held back |
| `FlowControl.ConnectionFlowController.IsNewlyBlocked` | quic-go/flow_controller_connection.go:127-136 | reports a used-up window exactly if it was not reported yet; a second call in a row reports nothing |
| `FlowControl.ConnectionFlowController.EnsureMinimumWindowSize` | quic-go/flow_controller_connection.go:152-170 | the window size never shrinks, reaches the given size or the maximum if that is more and memory allows it, nothing else but the epoch moves, and all bounds are kept |
| `FlowControl.StreamFlowController.UpdateHighestReceived` | quic-go/flow_controller_stream.go:51-101 | stream and connection advance equally; a final size error exactly when the final offset would change, be exceeded or contradict the data; a flow control error exactly when otherwise either window would be exceeded |
| `FlowControl.StreamFlowController.AddBytesRead` | quic-go/flow_controller_stream.go:103-110 | both levels are credited with the same bytes; an update is asked for, on either level, exactly if at least the threshold fraction of the window was read, and on the stream only before the final offset |
| `FlowControl.StreamFlowController.Abandon` | quic-go/flow_controller_stream.go:112-120 | everything received counts as read on both levels; a second call changes nothing |
| `FlowControl.StreamFlowController.TryAddBytesSent` | quic-go/flow_controller_stream.go:131-141 | credit is taken on both levels or on neither |
| `FlowControl.StreamFlowController.AddBytesSentWithLimiter` | quic-go/flow_controller_stream.go:143-154 | both levels are charged the same, at most what both windows and the limiter allow |
| `FlowControl.StreamFlowController.GetUpdate` | quic-go/flow_controller_stream.go:177-196 | no update after the final offset; a grown stream window grows the connection's to one and a half times its size |
| `SharedCredit.Act` | quic-go/flow_controller_stream.go:51-196 | every action changes the account of the stream as it says, moves the connection by the same amounts, keeps both within their windows, and fails only for a frame that is refused for its reason |
| `SharedCredit.Step` | quic-go/flow_controller_stream.go:51-196 | an action on any stream keeps the connection equal to the sums over its streams |
| `SharedCredit.Run` | quic-go/flow_controller_connection.go:46-167 | for any number of streams and any actions up to the first frame that is refused, for its reason: each stream counts what its account says, which follows from the actions alone, and the connection has received, read and sent exactly the sums over its streams and stays within its windows |
| `Wire.MaxStreamDataLenIsMaximal` | quic-go/internal/wire/stream_frame.go:136-158 | the computed data length is the largest that fits, as long as it takes at most two bytes to encode |
| `Wire.MaximalFitsIff` | quic-go/internal/wire/stream_frame.go:136-158 | a frame of the computed length fits if and only if that length takes at most two bytes; otherwise it is two bytes too long |
| `Wire.MaybeSplitOff` | quic-go/internal/wire/stream_frame.go:161-187 | head and rest join to the frame, the head fits and no longer one does, the rest keeps the FIN; no head exactly if not even one byte fits |
| `Codec.VarintBack` | quic-go/quicvarint/varint.go:82-130 | every number up to 2^62 - 1 is parsed as it was encoded, whatever follows |
| `Codec.VarintShortest` | quic-go/quicvarint/varint.go:164-180 | no shorter encoding would hold the number |
| `Codec.StreamBack` | quic-go/internal/wire/stream_frame.go:22-111 | every STREAM frame is parsed as it was encoded, whatever follows it, and if nothing follows also without a length field |
| `Codec.EncodeStream` | quic-go/internal/wire/stream_frame.go:87-124 | the encoding takes exactly the computed length |
| `Codec.PacketBack` | quic-go/internal/wire/stream_frame.go:22-124 | STREAM frames of which at most the last has no length field are parsed as they were packed, and together take exactly the length computed for the packet |
| `Codec.CryptoBack` | quic-go/internal/wire/crypto_frame.go:16-51 | every CRYPTO frame is parsed as it was encoded, whatever follows |
| `Wire.MaxCryptoDataLenIsMaximal` | quic-go/internal/wire/crypto_frame.go:54-66 | the computed data length is the largest that fits |
| `Senders.GoSound` | quic-go/send_stream.go:238-322 | a write that returns has passed on exactly the bytes it reports, among them all that were sent |
| `Senders.PopSays` | quic-go/send_stream.go:349-454 | a popped frame is the first lost one, or the head of it that fits, or the next bytes of the stream; a new one is empty only for a FIN, which comes with the last byte or behind it, once; a limit is reported when new data uses it up, once; nothing is left behind when there is no more |
| `Senders.PopIsLargest` | quic-go/send_stream.go:394-454 | without a limiter, a popped frame has the most bytes that packet, credit and data at hand allow, and there is none exactly if they allow none |
| `Senders.PopObeysLimiter` | quic-go/send_stream.go:394-434 | a limiter is asked about the most bytes that packet, credit and data at hand allow, exactly what it allows of them goes out, and less than that ends the write |
| `Senders.ResendSays` | quic-go/send_stream.go:494-502 | the first lost frame goes out again whole if it fits, and otherwise as much of it as fits |
| `Senders.WriteReturnsIff` | quic-go/send_stream.go:204-335 | a write on a closed stream or after the deadline fails and changes nothing; otherwise it returns at once, in full, if and only if what is unsent then fits a packet |
| `Senders.WriteEnds` | quic-go/send_stream.go:238-322 | a write that waited goes on waiting exactly if no limiter ended it, the deadline has not passed, not all was sent and the rest does not fit a packet; it reports all bytes without an error, and those sent with one, which is that of its reason |
| `Senders.TryWriteAllIff` | quic-go/send_stream.go:149-202 | all of it is accepted if and only if the credit that is left covers it on both levels, and otherwise nothing; nothing while a write waits or after closing |
| `Senders.PopProgress` | quic-go/send_stream.go:394-434 | with data, credit and room for a byte, and without a limiter, a pop yields a frame |
| `Senders.LateWakeUp` | quic-go/send_stream.go:457-482 | with 1400 bytes buffered, a write of 100 bytes waits; popping 200 of them makes room for it without waking it up, which popping the rest does |
| `FrameLedger.SendNew` | quic-go/send_stream.go:456-492 | a first-time frame right behind everything sent keeps every byte in exactly one place |
| `FrameLedger.Acknowledge` | quic-go/send_stream.go:811-830 | an acknowledged frame moves, and every byte stays in exactly one place |
| `FrameLedger.Lose` | quic-go/send_stream.go:832-873 | a lost frame moves to the retransmissions, and every byte stays in exactly one place |
| `FrameLedger.Resend` | quic-go/send_stream.go:494-502 | a retransmission moves back in flight |
| `FrameLedger.ResendHead` | quic-go/send_stream.go:494-502 | resending only the head of a lost frame keeps every byte and the FIN in exactly one place |
| `FrameLedger.AllAcknowledged` | quic-go/send_stream.go:520-546 | with nothing in flight or lost, every byte sent was acknowledged exactly once |
| `SendStreams.SendStream.TryWriteAll` | quic-go/send_stream.go:149-202 | all or nothing: it blocks exactly when a write is in progress or credit for all that was accepted is short on either level, and then changes nothing |
| `SendStreams.SendStream.Write` | quic-go/send_stream.go:204-322 | takes all of the slice or waits, exactly as the counts of accepted and sent bytes say; returns an error only for its reason |
| `SendStreams.SendStream.WriteAgain` | quic-go/send_stream.go:297-322 | a woken write returns or waits again exactly as the counts say, with an error only for its reason |
| `SendStreams.SendStream.WriteRound` | quic-go/send_stream.go:238-322 | a write that returns has passed on exactly the bytes it reports; one that waits has a wake-up coming when it can go on, unless a part of the next frame is still to be sent |
| `SendStreams.SendStream.PopRetransmission` | quic-go/send_stream.go:494-502 | the first lost frame, or as much of it as fits, goes out again |
| `SendStreams.SendStream.TakeCredit` | quic-go/send_stream.go:395-434 | credit is taken once per byte, within both windows, for as many bytes as the counts say; a limiter that holds back ends the write |
| `SendStreams.SendStream.SendNow` | quic-go/send_stream.go:435-453 | the bytes that were charged are sent; a window that is used up is reported as blocking exactly if it was not reported yet |
| `SendStreams.SendStream.SendData` | quic-go/send_stream.go:456-492 | the frame carries exactly the next bytes of the stream, at the write offset, and the FIN exactly with the last of a closed stream |
| `SendStreams.SendStream.SendFin` | quic-go/send_stream.go:380-391 | an empty frame carries the FIN when everything was sent before the stream was closed |
| `SendStreams.SendStream.PopStreamFrame` | quic-go/send_stream.go:337-454 | the frame, the limit reported as blocking and whether there is more are exactly those for the counts of accepted, sent, lost and charged bytes; it fits the budget |
| `SendStreams.SendStream.IsNewlyCompleted` | quic-go/send_stream.go:520-546 | completion exactly when the FIN was sent and nothing is in flight, lost or pending, and only once |
| `SendStreams.SendStream.OnAcked` | quic-go/send_stream.go:811-830 | the frame is acknowledged, the count of outstanding frames stays right, and completion is reported exactly when FIN and every byte are acknowledged for the first time |
| `SendStreams.SendStream.OnLost` | quic-go/send_stream.go:832-873 | the frame is queued for retransmission, and the count of outstanding frames stays right |
| `SendStreams.SendStream.UpdateSendWindow` | quic-go/send_stream.go:690-702 | the window never shrinks; data is reported exactly when a raised window can be used |
| `SendStreams.SendStream.Summary` | quic-go/send_stream.go:149-546 | any valid state: what was sent is a prefix of what was accepted, charged once, and completion means all of it was acknowledged |
| `SendRuns.DoSays` | quic-go/send_stream.go:149-546 | what a step does to the bytes accepted and sent can be read off its result |
| `SendRuns.DoKeepsEnding` | quic-go/send_stream.go:349-546 | after the FIN nothing more is sent, and the stream is completed exactly when the FIN was sent and no frame is in flight or lost |
| `SendRuns.Run` | quic-go/send_stream.go:149-546 | over every interleaving of writes, pops, acknowledgements, losses and window updates: every step comes to exactly what it comes to for a stream without a buffered frame, known only by byte counts; first-time frames tile the stream in order and carry a prefix of what the writes took, all of it on completion, which comes exactly when the FIN was sent and no frame is in flight or lost; every byte and the FIN is acknowledged, in flight or lost in exactly one frame; every byte is charged once within both windows; the limiter approved exactly the bytes framed from limited writes |
| `OutgoingStreams.WokenIsHead` | quic-go/streams_map_outgoing.go:99-133 | the waiter that was woken stands at the head of the line |
| `OutgoingStreams.WakeUpIff` | quic-go/streams_map_outgoing.go:99-133 | a channel can be received from exactly when its waiter stands at the head and a stream is available, or after closing |
| `OutgoingStreams.AwakeFindsStream` | quic-go/streams_map_outgoing.go:125-128 | a waiter that took its wake-up finds a stream, so it never waits again |
| `OutgoingStreams.OutgoingStreamsMap.OpenStream` | quic-go/streams_map_outgoing.go:65-79 | opens exactly when nobody waits and an ID is available, and otherwise reports the limit, once |
| `OutgoingStreams.OutgoingStreamsMap.OpenStreamSync` | quic-go/streams_map_outgoing.go:81-97 | opens at once exactly when nobody waits and an ID is available, and otherwise joins the end of the line and reports the limit, once |
| `OutgoingStreams.OutgoingStreamsMap.Cancel` | quic-go/streams_map_outgoing.go:102-110 | a cancelled waiter leaves the line, and a wake-up it may have held passes on |
| `OutgoingStreams.OutgoingStreamsMap.Resume` | quic-go/streams_map_outgoing.go:114-133 | whoever opens stood at the head and takes the next ID |
| `OutgoingStreams.OutgoingStreamsMap.SetMaxStream` | quic-go/streams_map_outgoing.go:189-205 | the limit never shrinks, the head is woken when it can open, and a new limit is reported blocked exactly if someone in line has to wait for a higher one |
| `OutgoingStreams.OutgoingStreamsMap.CloseWithError` | quic-go/streams_map_outgoing.go:239-253 | closing empties the line |
| `OutgoingStreams.Run` | quic-go/streams_map_outgoing.go:65-253 | over every interleaving the channels and wake-ups make a plain line: every step comes to what the line without channels says, a waiter wakes up exactly when it stands at the head and a stream is available, or after closing; IDs are consecutive by four within the limit, waiters are served in order, no limit is reported blocked twice, and whenever someone in line has to wait for a higher limit, the current one was reported |
| `OutgoingStreams.Advance` | quic-go/streams_map_outgoing.go:111-133 | a head that can open gets to open, without anything else happening |
| `OutgoingStreams.Drain` | quic-go/streams_map_outgoing.go:111-133 | the wake-ups alone serve the line, in order, until it is empty or IDs run out |
| `IncomingStreams.IncomingStreamsMap.GetOrOpenStream` | quic-go/streams_map_incoming.go:115-153 | opens the stream and all below it; a limit error exactly beyond the limit; a closed stream is not reopened |
| `IncomingStreams.IncomingStreamsMap.OpenUpTo` | quic-go/streams_map_incoming.go:142-148 | the loop opens exactly the streams in steps of four |
| `IncomingStreams.IncomingStreamsMap.Delete` | quic-go/streams_map_incoming.go:168-199 | a stream that was not accepted is only marked; an accepted one is gone, and raises the limit by exactly one, which is sent, unless stream IDs run out |
| `IncomingStreams.IncomingStreamsMap.Erase` | quic-go/streams_map_incoming.go:185-198 | the limit goes up by exactly one, and exactly that limit is sent, unless stream IDs run out, when both stay |
| `IncomingStreams.IncomingStreamsMap.AcceptStream` | quic-go/streams_map_incoming.go:73-113 | accepts in ID order; a stream that completed before is gone when accepted, and raises the limit by exactly one |
| `IncomingStreams.IncomingStreamsMap.LimitIsCounted` | quic-go/streams_map_incoming.go:168-199 | the limit is the allowed number plus the streams that were accepted and are done, or 2^60 where that would be more |
| `IncomingStreams.LimitsAreRight` | quic-go/streams_map_incoming.go:115-199 | in every run a frame of the peer on its n-th stream is a limit error if and only if n is at least the allowed number plus the number of streams gone so far, while stream IDs last |
| `IncomingStreams.GoneIsRight` | quic-go/streams_map_incoming.go:73-199 | the streams that are gone are those that were accepted and that some step completed |
| `IncomingStreams.LimitNeverShrinks` | quic-go/streams_map_incoming.go:168-199 | the limit never shrinks over a run |
| `IncomingStreams.Run` | quic-go/streams_map_incoming.go:73-209 | over every interleaving of frames, acceptances and completions: every step comes to what counting opened, accepted and completed streams says; acceptance is in ID order without repetition; a stream is gone exactly if it was accepted and completed; the peer may open the allowed number of streams plus one for each that is gone, and the first beyond that is an error; the live streams are those opened and not gone, at most the allowed number; one new limit is advertised for each stream that is gone, until stream IDs run out |
| `Mtu.AckedCloser` | quic-go/mtu_discoverer.go:198-233 | an acknowledged probe makes the lexicographic measure of the search smaller |
| `Mtu.LostCloser` | quic-go/mtu_discoverer.go:235-253 | a lost probe keeps the array well-formed and makes the measure smaller |
| `Mtu.AckedOnTrack` | quic-go/mtu_discoverer.go:198-233 | an acknowledged probe keeps the usable size between minimum and the genuine losses |
| `Mtu.LostOnTrack` | quic-go/mtu_discoverer.go:235-253 | so does a lost one, with one more chance loss if the path would have delivered it |
| `Mtu.DoneIsAccurate` | quic-go/mtu_discoverer.go:137-148 | with at most two chance losses a finished search is within 21 bytes of the usable size |
| `Mtu.NoDropsNoChance` | quic-go/mtu_discoverer.go:198-253 | a path that drops no fitting probe causes no chance loss |
| `Mtu.AckedRoom` | quic-go/mtu_discoverer.go:164-233 | without chance losses, a probe that arrives leaves less room below the three bounds, by a binary digit if it went half way to the largest |
| `Mtu.LostRoom` | quic-go/mtu_discoverer.go:164-253 | a lost probe takes the place of the largest bound and leaves a binary digit less |
| `Mtu.ProbesTaken` | quic-go/mtu_discoverer.go:126-253 | without drops a search goes on for at most six probes for every binary digit of its range |
| `Mtu.ThreeChanceLossesMislead` | quic-go/mtu_discoverer.go:235-253 | for every search that is not over from the start: if the path drops the first three probes, though it would deliver them, the finished search is more than 21 bytes short |
| `Mtu.MtuFinder.GetPing` | quic-go/mtu_discoverer.go:164-177 | the probe lies between the current size and the ceiling |
| `Mtu.MtuFinder.Reset` | quic-go/mtu_discoverer.go:183-189 | a reset starts over in the next generation, modulo 256 |
| `Mtu.MtuFinder.OnAcked` | quic-go/mtu_discoverer.go:198-233 | the in-place update computes the next search state; an older generation changes nothing |
| `Mtu.MtuFinder.OnLost` | quic-go/mtu_discoverer.go:235-253 | the in-place insertion computes the next search state; an older generation changes nothing |
| `Mtu.ProbeOnce` | quic-go/mtu_discoverer.go:164-253 | a probe and its outcome bring the search closer to its end, never down, and count as a chance loss exactly if the path would have delivered it |
| `Mtu.Discover` | quic-go/mtu_discoverer.go:126-253 | the search ends for every pattern of drops; sizes never decrease or exceed the usable size; with at most two chance losses, and so with no drops, they end within 21 bytes of it, and with the first three probes dropped they do not; without drops the number of probes is at most six times the number of binary digits of the range |
| `Mtu.StaleProbe` | quic-go/mtu_discoverer.go:164-253 | the outcome of a probe from before resets is ignored if and only if their number is not a multiple of 256; otherwise the code panics if no probe is in flight, and takes it for the outcome of the one that is |
| `ClientHello.FindSniAndEch` | quic-go/sni.go:19-136 | positions found lie inside the ClientHello, behind its fixed part: that of a host name of the length found, and that of an encrypted hello extension |
| `ClientHello.FoundInList` | quic-go/sni.go:32-136 | the message is a complete ClientHello, and the positions found are those of the encrypted hello, and of the first host name of a server name extension that its name list fills, in the list of extensions |
| `ClientHello.NotFoundNotInList` | quic-go/sni.go:32-136 | what is not found is not there: if no encrypted hello was found the list of extensions has none, and if no name was found no server name extension of it has a host name |
| `ClientHello.LongerIsIncomplete` | quic-go/sni.go:26-29 | what follows a complete ClientHello is not looked into again |
| `ClientHello.PrefixIsIncomplete` | quic-go/sni.go:19-29 | no proper prefix of a ClientHello is searched |
| `ClientHello.HelloSearched` | quic-go/sni.go:19-80 | for every version, random, session ID, cipher suites, compression methods and extensions, the ClientHello made of them is searched from its first extension to its last |
| `CryptoPlan.OnceIffSeparated` | quic-go/crypto_stream.go:221-281 | cuts without an empty one send every byte exactly once if and only if none starts at 0, touches or overlaps another |
| `CryptoPlan.SeparatedIff` | quic-go/crypto_stream.go:193-211 | with a server name, the cuts are separated if and only if the name is not empty and an encrypted hello before its middle starts more than 17 bytes before it |
| `CryptoPlan.TouchingCutsRepeat` | quic-go/crypto_stream.go:255-263 | a ClientHello with an encrypted hello right before a server name of eight bytes: a byte is sent twice |
| `CryptoPlan.SendableIff` | quic-go/crypto_stream.go:193-211 | whether the first cut is there and no cut is empty, as a condition on the name position and length found; the comparison leaves a missing cut first exactly when there is no name position and a name length below two |
| `CryptoPlan.MissingCutStalls` | quic-go/crypto_stream.go:203-211 | a ClientHello with an encrypted hello and no server name: the missing cut comes first |
| `CryptoPlan.EmptyCutNeverEnds` | quic-go/crypto_stream.go:193-211 | a ClientHello with an empty server name: its only cut is empty |
| `CryptoPlan.PassGoesOn` | quic-go/crypto_stream.go:255-280 | the first pass leaves out exactly the cuts that are still ahead when it reaches them |
| `CryptoPlan.PassBalance` | quic-go/crypto_stream.go:265-280 | a frame of the first pass keeps every byte sent or pending as often as planned and started over |
| `CryptoPlan.CutBalance` | quic-go/crypto_stream.go:225-245 | so does a frame of a cut |
| `CryptoStreams.CryptoStream.PopFront` | quic-go/crypto_stream.go:98-108 | the next bytes at the write offset, as many as fit |
| `CryptoStreams.CryptoStream.PopCryptoFrameTail` | quic-go/crypto_stream.go:114-125 | the last bytes that are queued, at their own offset; the write offset stays |
| `CryptoStreams.CryptoStream.PopFromCut` | quic-go/crypto_stream.go:226-244 | the start of the cut, as much as fits; nothing from an empty cut |
| `CryptoStreams.CryptoStream.PopSkipped` | quic-go/crypto_stream.go:222-253 | the cuts in order; scrambling ends exactly when none is left |
| `CryptoStreams.CryptoStream.PopBetween` | quic-go/crypto_stream.go:255-282 | the next bytes outside the cuts; nothing only if nothing fits |
| `CryptoStreams.CryptoStream.PopCryptoFrame` | quic-go/crypto_stream.go:216-283 | a frame within the budget, keeping the balance of the plan; nothing exactly if nothing fits, nothing is queued, or the next cut is empty or missing |
| `CryptoStreams.CryptoStream.Arrange` | quic-go/crypto_stream.go:193-211 | the cuts follow from the ClientHello; cutting again starts the cuts over |
| `CryptoStreams.CryptoStream.Write` | quic-go/crypto_stream.go:174-214 | what is written is queued behind everything; the plan is made exactly when a ClientHello with something to cut is complete, scrambling ends if there is nothing to cut, an empty write after the first cut starts the cuts over, and an error comes exactly for something that is no ClientHello |
| `CryptoStreams.CryptoStream.AllSent` | quic-go/crypto_stream.go:98-283 | once nothing is queued, every byte was sent exactly as often as planned, and once more for each time its cut was started over |
| `CryptoStreams.CryptoStream.ServerNameApart` | quic-go/crypto_stream.go:193-195 | with separated cuts no frame carries a whole server name of two bytes or more |
| `CryptoRuns.Drain` | quic-go/crypto_stream.go:216-283 | popping with any budgets that fit a byte ends; it sends everything if the first cut is there and no cut is empty |
| `CryptoRuns.Run` | quic-go/crypto_stream.go:165-283 | for every sequence of writes and budgets: frames carry what was written at their offsets; nothing is sent before the ClientHello is complete; then the plan is the one its positions give; the stream finishes if and only if the name length found is at least one, or two without a name position; everything is sent if and only if it finishes, or nothing follows the ClientHello and its server name is empty with no encrypted hello behind it; a finished stream has sent each byte once if and only if the cuts are separated and were not started over |
| `CryptoRuns.SentBeforeEmptyCut` | quic-go/crypto_stream.go:221-252 | sending that comes to an empty cut has sent everything exactly if nothing follows the ClientHello and that cut is the last |
| `CryptoRuns.EmptyWriteRepeats` | quic-go/crypto_stream.go:174-214 | for every ClientHello with a server name and an encrypted hello, an empty write between the cuts sends every byte of the first cut once more |
| `CryptoRuns.EmptyNameNeverEnds` | quic-go/crypto_stream.go:225-245 | for every ClientHello with an empty server name the stream keeps data that no pop ever yields |
| `CryptoRuns.Deliver` | quic-go/crypto_stream.go:34-62 | pushing the frames into a frame sorter, in any order and repetition, yields exactly what was written, without failure for fewer than 20000 frames |
| `ChaosSplit.EvenShares` | quic-go/packet_packer_chaos.go:65-71 | the even share fits a packet, the rest fits the other packets, and there are at least two |
| `ChaosSplit.SplitFits` | quic-go/packet_packer_chaos.go:49-85 | whenever it splits, head and tail do not overlap, fit the packet with both headers, and the rest fits the computed number of further packets |
| `ChaosSplit.SplitIff` | quic-go/packet_packer_chaos.go:49-85 | when it splits, and into what: with the number of packets that is just enough and an even share of them, it splits if and only if the first packet's share, less one header, is longer than the drawn head, and then head and tail make up that share |
| `ChaosSplit.HeadBudget` | quic-go/packet_packer.go:636 | the budget for the head fits exactly its length |
| `ChaosSplit.FirstPacket` | quic-go/packet_packer.go:634-646 | tail and head leave exactly the middle queued |
| `ChaosSplit.FillPacket` | quic-go/packet_packer.go:648-656 | a packet is not overfull, takes at least as much as one frame can, and ends only when nothing is left or not a byte fits |
| `ChaosSplit.SendHello` | quic-go/packet_packer.go:630-656 | tail pop, head pop and front pops send every byte exactly once at its own offset, in no more packets than computed, and no packet carries more than it can |
| `Chaos.CutInTwo` | quic-go/packet_packer_chaos.go:228-238 | cutting a frame in two keeps its bytes at their offsets and costs at most one worst-case header |
| `Chaos.ShredCryptoFrames` | quic-go/packet_packer_chaos.go:206-244 | for every random choice the frames carry the same bytes at the same offsets, equally often, and the budget pays exactly for their growth and is never overdrawn; a frame is cut if the first attempt hits one of two bytes or more and the budget covers a header |
| `Chaos.SpreadPadding` | quic-go/packet_packer_chaos.go:254-274 | for every random choice the runs are positive and sum to exactly the budget; each position takes the share drawn for it of what is left, the last run all of it |
| `Chaos.AnyRuns` | quic-go/packet_packer_chaos.go:254-274 | every way to break the budget into that many positive runs comes out for some draws |
| `Chaos.SplitCryptoFrames` | quic-go/packet_packer_chaos.go:185-196 | every frame goes to exactly one of the two lists |
| `Chaos.Shuffle` | quic-go/packet_packer_chaos.go:147 | a permutation, the one the draws give by swapping from the end on |
| `Chaos.AnyOrder` | quic-go/packet_packer_chaos.go:147 | every order of the frames comes out for some draws |
| `Chaos.AppendChaosProtectedPayload` | quic-go/packet_packer_chaos.go:105-165 | for every random choice the size is exactly payload plus padding, so the size error never occurs, and CRYPTO data and other frames are the same |
| `Framing.InflatedFits` | quic-go/framer.go:256-260 | a frame popped with the inflated budget is too long by at most its own length field |
| `Framing.Framer.QueueControlFrame` | quic-go/framer.go:66-86 | frames are queued up to the limits |
| `Framing.Framer.AddActiveStream` | quic-go/framer.go:220-227 | the stream is active, and goes to the end of the queue unless it was active |
| `Framing.Framer.RemoveActiveStream` | quic-go/framer.go:238-245 | every stream that stays active still has a turn coming |
| `Framing.Framer.AppendStreamControl` | quic-go/framer.go:174-194 | the stream is asked exactly as long as it gives a frame and has more, or until 25 bytes or less are left; the frames it gave go out in order; it is taken off the list exactly if it said, when last asked, that it has no more; frames of up to 25 bytes never overrun |
| `Framing.Framer.AppendStreamControls` | quic-go/framer.go:174-195 | every stream on the list is visited once, unless 25 bytes or less are left; their frames go out in the order of the visits; exactly those leave the list that have no more |
| `Framing.Framer.AppendQueued` | quic-go/framer.go:197-206 | queued frames go out latest first, none is lost, and it stops only when the next does not fit |
| `Framing.Framer.AppendControlFrames` | quic-go/framer.go:156-209 | one path response exactly if there is one and it fits, then the frames of the streams visited, every one of them unless the packet is full, then queued frames, as long as they fit, with the exact length, within the budget |
| `Framing.Framer.GetNextStreamFrame` | quic-go/framer.go:247-270 | the head of the queue has its turn; it goes to the end if it has more, and every active stream keeps a turn |
| `Framing.Framer.TakeTurn` | quic-go/framer.go:99-128 | turns are taken in the order of the queue, with all the room that is left; streams with more go to its end, and only finished ones stop being active |
| `Framing.Framer.AppendStreamFrames` | quic-go/framer.go:99-128 | streams are served in turn, each with all the room that is left, their frames and reports go out in that order, only the last frame may be too long, by no more than its length field, and it stops only without room or when a report does not fit |
| `Framing.Framer.Append` | quic-go/framer.go:88-154 | the returned length is the exact total of the frames and at most the budget; a path response, the frames of the streams visited, queued frames from the latest on and reports go out in that order; streams are left out only of a full packet, queued frames stay and reports are queued only if they do not fit; STREAM frames are those of the turns, in order, each with all the room that was left, only the last without a length field |

## Left out

- Resets and shutdown on the sending side (`CancelWrite`, STOP_SENDING, the reliable boundary): send streams are modelled up to that point.
- Completion of receive streams, STOP_SENDING and MAX_STREAM_DATA queueing, and the final-size callback: bookkeeping on top of the flags that are modelled.
- `ReceiveStreams.ReceiveStream.CancelRead`: does not model which error the application sees, or the credit returned when a cancelled stream completes.
- `CryptoStreams.CryptoStream.Write`: requires that no tail was popped before; the code keeps the write offset on a tail pop, so a later write would reuse the tail's offsets.
- `CryptoStreams.CryptoStream.PopCryptoFrameTail`: only without scrambling; the packet packer uses it only under chaos protection, for which `quic-go/crypto_stream.go:144-153` turns scrambling off.
- `Wire.MaybeSplitOff`: for frames with a length field, only packets of up to 16386 bytes or data of up to 16383; datagrams are far smaller.
- `Framing.Framer.Append`: for budgets below 2^14 and stream control frames of at most 25 bytes; what streams hand out is arbitrary within the contract proved for `SendStreams.SendStream.PopStreamFrame`.
- `Codec.StreamBack`: for frames of at most 1452 bytes of data, which is what the parser's buffers hold.
- `Chaos.AppendChaosProtectedPayload`: for payloads without STREAM frames; frames are counted by their encoded length, not encoded to bytes.
- `ClientHello.FindSniAndEch`: the parser's loops are recursive functions.
- `GapTree.Insert`, `GapTree.Delete`: the AVL tree is a value, so sharing and update in place of its nodes are not modelled; `GapTree.Btree` has the in-place set.
- Limits on the crypto streams' receiving side (16 kB, data after the end): only add easy members.
- The handshake 0-RTT rejection path of framer and stream maps, beyond resetting the connection's send window.
- Byte encodings of frames other than STREAM and CRYPTO, and of packet headers.
- Auto-tuning's use of RTT and time: its three decisions are arbitrary inputs.
- Deadlines, contexts, timers: an argument says whether, or after how many looks at the clock, they have passed.
- `ReceiveRuns.Run`: both windows stay as they are; `SharedCredit.Run` has window updates.
- Two concurrent calls of `AcceptStream` sharing one wake-up slot.
- Buffer pools and slice capacities: a stored frame is a value with a callback.
- Sockets, TLS, packet protection, loss detection, congestion control, connection IDs, logging, HTTP/3 and WebTransport.
