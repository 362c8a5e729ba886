# KCP transport engine: a model and its proofs

KCP is an ARQ protocol over datagrams. An endpoint cuts what its user sends into numbered segments, keeps each one
until it is acknowledged, retransmits on timeouts or on duplicate acknowledgements, probes a closed remote window,
packs everything that is to go out into datagrams of at most one mtu, and on the other side puts segments back in
order and joins them to messages. This project models one endpoint completely, two endpoints over an unreliable
network, the peer that schedules updates, and the reader that hands messages out through buffers of any size.

How it is built:

- The behaviour of each part is a function on values (`Wire`, `Chunks`, `Receiving`, `Sending`, `Control`, `Packing`,
  `Engine`). The laws are proved about these functions, and the invariant of one endpoint and what a flush puts out
  in `Endpoint`, `Flushing`, `Timing` and `Lifetime`. `Arrivals` and `Effects` say in full what one datagram and one
  flush do, from the endpoint before alone: what is dropped, sampled, acknowledged and counted, and what is sent,
  numbered and re-timed, how the congestion window moves, and where a flush has failed.
- `KcpEngine.Kcp` is the engine with its mutable fields and its loops. Each method is proved to have exactly the effect
  of the corresponding function, on the state, on the datagrams sent and on the bytes of the wire. The stages of
  the long methods (`input`, `flush`) are methods of their own here.
  `KcpPeers.KcpPeer` and `KcpReaders.KcpReader` are the two layers above it, built the same way.
- `Network`, `Preservation`, `Safety`, `Traffic`, `Progress` and `Streams` are about two endpoints. A system state holds
  two nodes and every datagram ever sent. A step is a `send`, a `recv`, an update, a flush, or the delivery of any datagram the
  other side has ever sent; so datagrams may be lost, repeated and reordered, but not altered. `Run` folds a list of
  steps, and the theorems are about every run. The continuations of `Progress` never set a clock back, and `Streams`
  puts a reader on one side, whose reads come between any steps.
- `Witnesses` holds lives of an endpoint, from its construction on, in which a property one could expect fails, and a
  first exchange byte by byte.

What the model assumes, and what is a parameter:

- Arithmetic wraps at the width of its type, as in a release build. Time is an argument, as in the original.
- `room` (in the functions, `limit`) is how many datagrams the socket takes before `send` reports an error, so that every
  point of failure of a flush is covered. Polls of a lock are atomic; `locked` says that a lock cannot be had.
- Sequence numbers stay below 2^31 minus a margin of some windows. The original mixes signed differences and plain
  comparisons (kcp.rs:509, kcp.rs:758), which agree only there. `Arith.TimediffOfCounters` and `Arith.WindowTest`
  say what the differences do beyond.
- Configuration is fixed before traffic: the setters keep the invariant on an endpoint that has not carried any.
- In the engine class, the scalars of the configuration, the round-trip estimator, the congestion window, the probe
  timer and the clock are held in one record field each. The two probe bits are two booleans. A segment that waits in
  the send queue has only its fragment number and data; the original fills in the header when it is numbered.

Where the code differs from what one would expect, the model follows the code:

- `set_interval` overwrites its own clamp (kcp.rs:1116-1121), so a bound on the interval is an assumption where needed.
- `set_wndsize` says the receive window is 32 by default; it is 128 and never less (kcp.rs:1154-1162).
- In stream mode a `send` that is refused as too big may have extended the last queued segment. Those bytes count as
  taken over (`Sending.Taken`).
- `flush_async` advances the clock by 10 by itself (kcp.rs:1015).
- `input` with decoding slices its buffer from position 4 on before it looks at the length (kcp.rs:616-618), and the
  listener hands it every datagram after the handshake (kcp_listener.rs:159-161). With fewer than four bytes the call
  panics, having changed nothing. The model has this as the outcome `Panic`; it occurs exactly when `decode` is set and there are fewer than
  four bytes (`Engine.PanicExactly`).
- `need_update` compares with `<` although `update` runs at `>=`. The one call suppressed in between is idle unless the
  stored time is the flush time; `Witnesses.AFlushIsSkipped` is a life in which a flush with data is put off by this.
- The retransmission delay of a segment grows without bound. All deadlines are ahead after a flush exactly when no delay
  passes half the range of the clock (`Timing.FlushArmsExactly`); `Witnesses.DelayOutgrowsTheClock` is a life in which
  one does.
- A deadline exactly half the range of the clock away is ahead for `flush` and past for `check`. After an update that
  flushes, `check` is positive exactly when there is no such segment (`Lifetime.CheckIsTimely`);
  `Witnesses.CheckStandsStill` is a life with one.

## Model

| member | source | states |
|---|---|---|
| `Arith.TimediffOfCounters` | src/kcp/kcp_module/kcp.rs:61-63 | counters that run on without bound, taken modulo 2^32, compare as the true counters do while less than 2^31 apart |
| `Arith.WindowTest` | src/kcp/kcp_module/kcp.rs:553-555 | the two signed comparisons accept exactly the `rcv_wnd` numbers after `rcv_nxt` on the circle, for every `sn` a datagram can carry |
| `Wire.HeaderFields` | src/kcp/kcp_module/kcp.rs:109-116 | the header read from bytes equals a segment's header if and only if the bytes start with that segment's encoded header |
| `Wire.EncodedBytes` | src/kcp/kcp_module/kcp.rs:109-117 | every byte of an encoded segment: each field at its place, lowest byte first, then the data |
| `Wire.ParseOfEncoding` | src/kcp/kcp_module/kcp.rs:638-671 | round trip: parsing the concatenated encodings of any segments of the conversation, followed by any bytes, yields those segments in order and then what the rest yields |
| `Wire.EncodingOfParse` | src/kcp/kcp_module/kcp.rs:638-752 | the converse on arbitrary bytes: what the loop hands on is what the consumed bytes encode; when it ends normally less than a header is left |
| `Wire.ParsedAreKnown` | src/kcp/kcp_module/kcp.rs:638-677 | on any bytes, only known commands of the right conversation are handed on |
| `Wire.ParseStops` | src/kcp/kcp_module/kcp.rs:638-677 | on any bytes, the loop stops exactly where less than a header is left or the header there is refused, with the error of the first check it fails |
| `Wire.MaskTwice` | src/kcp/kcp_module/kcp.rs:151-164 | masking twice with the same key, of any length, restores the bytes |
| `Wire.XorByteBits` | src/kcp/kcp_module/kcp.rs:151-163 | masking a byte is exclusive or: each bit is set exactly when the bits of byte and key differ |
| `Wire.SealedBytes` | src/kcp/kcp_module/kcp.rs:132-163 | each byte of a sealed datagram: the first four as they were, every other one masked bit by bit with the byte of the key whose turn it is |
| `Wire.UnsealSeal` | src/kcp/kcp_module/kcp.rs:132-147 | the receiver's decoding undoes the sender's, with and without a key, and the first four bytes travel in the clear |
| `Preservation.WireRoundTrip` | src/kcp/kcp_module/kcp.rs:616-671 | a datagram sent with any key is decoded and parsed to exactly its list of segments, all bytes consumed |
| `Preservation.InputOfGood` | src/kcp/kcp_module/kcp.rs:616-779 | `input` on such a datagram is the fold of the per-segment step followed by the work after the loop |
| `Chunks.PeekSizeIsMessageSize` | src/kcp/kcp_module/kcp.rs:328-380 | on every queue, the size announced is the number of bytes `recv` pops, so its assertion cannot fail |
| `Receiving.DrainFacts` | src/kcp/kcp_module/kcp.rs:382-396 | draining moves exactly the consecutively numbered front that fits, in order, and stops only at a gap or a full queue |
| `Receiving.ParseDataFacts` | src/kcp/kcp_module/kcp.rs:550-589 | a segment outside the window changes nothing; inside, it is merged at its place unless it is there, and the numbered front is delivered; the invariant is kept |
| `Receiving.ParseDataHas` | src/kcp/kcp_module/kcp.rs:550-589 | no number held is forgotten, and the arriving one is held afterwards |
| `Receiving.BufferFitsWindow` | src/kcp/kcp_module/kcp.rs:781-787 | the reorder buffer has at most `rcv_wnd` entries, and queue length and announced window add up to `rcv_wnd` |
| `Receiving.RecvFacts` | src/kcp/kcp_module/kcp.rs:355-406 | a successful `recv` takes the front message and then the numbered run that now fits, and keeps the invariant |
| `Confluence.FeedIsCanonical` | src/kcp/kcp_module/kcp.rs:550-589 | feeding any segments of the window in any order with any repetition ends in the canonical state: the longest run that fits is queued, the rest sorted |
| `Confluence.ArrivalOrderDoesNotMatter` | src/kcp/kcp_module/kcp.rs:550-589 | two arrival orders of the same segments end in the same `rcv_nxt`, queue and buffer contents |
| `Sending.FragmentsFacts` | src/kcp/kcp_module/kcp.rs:457-473 | fragments join to the data, are at most `mss`, all but the last are full, and `frg` counts down to 0 (or is 0 in stream mode) |
| `Sending.SendBytes` | src/kcp/kcp_module/kcp.rs:409-476 | the queued bytes grow by exactly the bytes taken over: all of them on success, whose value is the length; on refusal none in message mode, and what fitted the last segment in stream mode |
| `Sending.SendAccepts` | src/kcp/kcp_module/kcp.rs:414-452 | `send` succeeds if and only if what is left after filling up the last queued segment (stream mode) is at most 127 segments; the only error is that it is too big |
| `Sending.SendShape` | src/kcp/kcp_module/kcp.rs:414-473 | the queue stays well formed (segments at most `mss`, tail ends a message, full segments in stream mode), fewer than 128 are added |
| `Sending.FrontMessage` | src/kcp/kcp_module/kcp.rs:328-380 | a queue that starts with the fragments of a message announces and yields exactly that message |
| `Sending.PartialMessage` | src/kcp/kcp_module/kcp.rs:335-337 | with only some of a message's fragments there, the queue asks for more |
| `Sending.UnaKeeps` | src/kcp/kcp_module/kcp.rs:495-529 | any cumulative acknowledgement removes a prefix, only numbers before it; the sender invariant holds and `snd_una` does not go back |
| `Sending.AckKeeps` | src/kcp/kcp_module/kcp.rs:494-518 | any selective acknowledgement removes the segment it names and no other; the sender invariant holds and `snd_una` does not go back |
| `Sending.FastackKeeps` | src/kcp/kcp_module/kcp.rs:531-543 | counting duplicate acknowledgements changes only the counters |
| `Sending.FastackExactly` | src/kcp/kcp_module/kcp.rs:531-543 | for a number in flight exactly the kept segments before it count one more; otherwise nothing changes |
| `Sending.AdmitKeeps` | src/kcp/kcp_module/kcp.rs:900-919 | admission numbers a prefix of the queue consecutively, appends it, keeps the sender invariant, and stops only at a full window or an empty queue |
| `Control.CoherentIsQuotient` | src/kcp/kcp_module/kcp.rs:758-776 | a coherent window is `incr / mss` |
| `Control.GrowFits` | src/kcp/kcp_module/kcp.rs:758-771 | every sum and product of the growth step fits its type |
| `Control.GrowKeeps` | src/kcp/kcp_module/kcp.rs:758-776 | growth keeps `cwnd*mss <= incr < (cwnd+1)*mss`, is by at most one, and never passes `rmt_wnd` |
| `Control.GrowExactly` | src/kcp/kcp_module/kcp.rs:758-776 | below the remote window: under the threshold one segment more; from it on `incr` rises by `mss*mss/incr + mss/16`, and `cwnd` exactly when `incr` has reached the next segment |
| `Control.GrowthOpens` | src/kcp/kcp_module/kcp.rs:758-776 | below the remote window, 31 growth steps raise `cwnd` |
| `Control.SettleKeeps` | src/kcp/kcp_module/kcp.rs:986-1009 | a completed flush leaves a coherent window of at least one, and with `fastresend <= 32767` its sum fits `u16` |
| `Control.UpdateAckKeeps` | src/kcp/kcp_module/kcp.rs:478-492 | one sample: nothing overflows, the estimates stay within the range of the samples, the timeout is the clamped sum |
| `Control.SamplesKeep` | src/kcp/kcp_module/kcp.rs:478-492 | the same over every history of samples in `[lo, hi]` with `hi < 2^29` |
| `Packing.SizeIsLength` | src/kcp/kcp_module/kcp.rs:120-122 | the accounted size of a datagram is the length of its encoding |
| `Packing.TxFacts` | src/kcp/kcp_module/kcp.rs:933-978 | the transmission loop puts out the packing of the due packets, changes no segment's identity, and unless a send fails passes every segment |
| `Packing.TxReport` | src/kcp/kcp_module/kcp.rs:930-977 | what the loop reports: a timeout or early resend was seen if and only if there was one, all timeouts are counted, and the link is dead if and only if a segment was sent often enough |
| `Packing.TxStops` | src/kcp/kcp_module/kcp.rs:933-970 | a loop left at a failed send has passed the segments up to that one and left the others alone |
| `Packing.DueIsSent` | src/kcp/kcp_module/kcp.rs:933-972 | every due segment is among the packets sent |
| `Packing.DueOrigin` | src/kcp/kcp_module/kcp.rs:933-972 | every packet sent is a due segment's |
| `Packing.DueInOrder` | src/kcp/kcp_module/kcp.rs:933-972 | data packets of one flush are strictly increasing in `sn`, so none is sent twice |
| `Engine.PanicExactly` | src/kcp/kcp_module/kcp.rs:616-631 | `input` panics if and only if it is to decode fewer than four bytes |
| `Endpoint.IntakeKeeps` | src/kcp/kcp_module/kcp.rs:616-779 | the same as `Endpoint.InputKeeps` on any bytes of the socket, however short, decoded or not |
| `Endpoint.InputKeeps` | src/kcp/kcp_module/kcp.rs:622-779 | on any decoded bytes the invariant of the endpoint is kept and neither `snd_una` nor `rcv_nxt` goes back |
| `Arrivals.InputAnswers` | src/kcp/kcp_module/kcp.rs:622-677 | the result of `input` on any bytes: too short, the length taken, or the error of the first refused segment |
| `Arrivals.InputState` | src/kcp/kcp_module/kcp.rs:622-778 | on an error the effect of the segments before is kept; on success duplicate counts and congestion window follow, and nothing else differs |
| `Arrivals.ArrivalDrops` | src/kcp/kcp_module/kcp.rs:679-693 | a datagram drops exactly the kept segments it acknowledges, cumulatively or by name, and leaves the others as they are |
| `Arrivals.ArrivalSamples` | src/kcp/kcp_module/kcp.rs:687-691 | the round-trip estimator sees exactly the ages of the acknowledgements, in order |
| `Arrivals.ArrivalFeeds` | src/kcp/kcp_module/kcp.rs:709-735 | the receiver is fed exactly the data segments, in order |
| `Arrivals.ArrivalAcks` | src/kcp/kcp_module/kcp.rs:709-714 | exactly the data segments before the end of the window are to be acknowledged, each with its number and time stamp |
| `Arrivals.ArrivalHighest` | src/kcp/kcp_module/kcp.rs:695-700 | the number that drives the duplicate counts is the highest one acknowledged by name |
| `Arrivals.InputCounts` | src/kcp/kcp_module/kcp.rs:754-756 | exactly the kept segments before that number count one more, if it is in flight |
| `Arrivals.ArrivalProbes` | src/kcp/kcp_module/kcp.rs:679-743 | the remote window is the last one announced, and the own one is to be told exactly when it was or is asked for |
| `Arrivals.InputGrows` | src/kcp/kcp_module/kcp.rs:758-776 | the congestion window changes only when `snd_una` has moved on, and then by exactly one growth step |
| `Flushing.FlushSends` | src/kcp/kcp_module/kcp.rs:873-984 | conservation: datagrams sent plus the buffer are the old buffer followed by a prefix of the plan (acknowledgements, probes, each due segment once); all of it with an empty buffer on success; success when the socket takes enough |
| `Flushing.FlushEndsWithPlan` | src/kcp/kcp_module/kcp.rs:980-984 | the last segment a successful flush sends is the last of its plan |
| `Flushing.FlushPacks` | src/kcp/kcp_module/kcp.rs:789-984 | each datagram is non-empty, whole segments, at most mtu; the buffer fits the mtu also when a send fails |
| `Effects.FlushIsTight` | src/kcp/kcp_module/kcp.rs:789-970 | no datagram is sent while the next segment still fits |
| `Flushing.FlushFitsMtu` | src/kcp/kcp_module/kcp.rs:132-141 | the bytes that reach the socket are between one header and the mtu, with any key |
| `Flushing.ProbeTimerBounded` | src/kcp/kcp_module/kcp.rs:806-827 | the probe delay stays within its limit and runs while the remote window is closed |
| `Flushing.FlushOpensWindow` | src/kcp/kcp_module/kcp.rs:1006-1009 | after a completed flush the congestion window is at least one |
| `Effects.FlushWindow` | src/kcp/kcp_module/kcp.rs:986-1009 | after a timeout the window is one segment and the threshold half the smallest window; else after an early resend both follow from half of what is in flight; else it stays, or opens from zero to one |
| `Effects.FlushAfterEarlyResend` | src/kcp/kcp_module/kcp.rs:986-995 | with fast resend in its usual range, the window after an early resend in plain numbers |
| `Effects.FlushAdmits` | src/kcp/kcp_module/kcp.rs:894-919 | a successful flush numbers queued segments from the front, consecutively, until the smallest window is full or the queue empty |
| `Effects.FlushedSegments` | src/kcp/kcp_module/kcp.rs:933-964 | what becomes of every kept segment, by whether it is new, has timed out, was overtaken often enough, or none of these |
| `Effects.PlanInFull` | src/kcp/kcp_module/kcp.rs:789-978 | a flush sends one acknowledgement for each pending one, echoing its number and time stamp, then the probe commands that are due, then exactly the data segments that need sending |
| `Effects.EverySegmentAnnounces` | src/kcp/kcp_module/kcp.rs:880-886 | every segment sent announces the receive window and acknowledges what was received in order; data carries the time of the flush |
| `Effects.FlushCounts` | src/kcp/kcp_module/kcp.rs:941-976 | the counter of timeouts and the dead-link mark after a successful flush |
| `Effects.FlushFails` | src/kcp/kcp_module/kcp.rs:888-984 | a flush that fails has failed at one place of its plan; acknowledgements and probes are kept unless all of them were put out |
| `Effects.ProbeBackoff` | src/kcp/kcp_module/kcp.rs:806-827 | a closed window is asked for after 7 seconds, then after half as long again each time, and two minutes at most |
| `Effects.UpdateClock` | src/kcp/kcp_module/kcp.rs:1029-1049 | when an update flushes, and when the next flush is due: the schedule is kept while it is near and ahead |
| `Effects.FlushAsyncClock` | src/kcp/kcp_module/kcp.rs:1014-1022 | a flush outside the schedule moves the clock by ten and leaves the schedule |
| `Flushing.FlushKeeps` | src/kcp/kcp_module/kcp.rs:873-1012 | a flush keeps the invariant at every point of failure, and neither loses nor invents a queued or numbered segment |
| `Flushing.FlushWithoutData` | src/kcp/kcp_module/kcp.rs:888-890 | a flush that fails before its data part leaves the sending side untouched |
| `Flushing.FlushAckSends` | src/kcp/kcp_module/kcp.rs:789-804 | the same conservation for acknowledgements alone; they are dropped only when all are out |
| `Flushing.SendKeeps` | src/kcp/kcp_module/kcp.rs:409-476 | `send` keeps the invariant of the endpoint |
| `Flushing.ReceiveKeeps` | src/kcp/kcp_module/kcp.rs:355-406 | `recv` keeps the invariant, an error leaves the endpoint as it was, and `rcv_nxt` does not go back |
| `Effects.ReceiveExactly` | src/kcp/kcp_module/kcp.rs:355-406 | what `recv` answers, from the queue; and the window is to be told exactly when it was or a full queue has been reopened |
| `Effects.ReopeningIsTold` | src/kcp/kcp_module/kcp.rs:398-403 | after a `recv` that reopens a full queue the next successful flush sends the window, which is open |
| `Flushing.UpdateKeeps` | src/kcp/kcp_module/kcp.rs:1029-1052 | `update` keeps the invariant |
| `Timing.DeadlineExactly` | src/kcp/kcp_module/kcp.rs:936-958 | a segment the loop has passed is not due again if and only if its delay is positive and at most half the clock's range |
| `Timing.FlushArmsExactly` | src/kcp/kcp_module/kcp.rs:933-984 | after a successful flush all deadlines are ahead if and only if every delay fits |
| `Timing.FlushArmsTimers` | src/kcp/kcp_module/kcp.rs:921-984 | with timers in order, after a successful flush every kept segment has been sent and its deadline is ahead |
| `Timing.FlushKeepsTimers` | src/kcp/kcp_module/kcp.rs:873-984 | a flush keeps the timers in order at every point of failure |
| `Timing.InputTimers` | src/kcp/kcp_module/kcp.rs:616-779 | no bytes from the network, once decoded, disturb the timers of the kept segments |
| `Timing.PacketWaitFacts` | src/kcp/kcp_module/kcp.rs:1075-1084 | the wait `check` finds is no longer than to any deadline, and positive when all are ahead |
| `Timing.CheckExactly` | src/kcp/kcp_module/kcp.rs:1057-1087 | `check` is zero before the first update, when the flush time is not ahead or far off, or a deadline has come; otherwise it is the smallest of the interval, the distance to the flush time and those to the deadlines |
| `Timing.ScheduleIsAhead` | src/kcp/kcp_module/kcp.rs:1036-1047 | an update that flushes sets a next flush time that is ahead by at most one interval |
| `Timing.CheckAfterUpdate` | src/kcp/kcp_module/kcp.rs:1029-1087 | with timers in order, after an update that flushes `check` is at most `interval` and at most the distance to every deadline; it is at least 1 if and only if no kept segment's deadline was exactly half the clock's range away |
| `Timing.SkippingIsSound` | src/kcp/kcp_module/kcp.rs:1029-1087 | after any events, an update up to the time `check` named only sets the clock, except exactly at that time when it is the flush time, where it flushes |
| `Lifetime.AlwaysInOrder` | src/kcp/kcp_module/kcp.rs:550-779 | after any operations and any bytes from the socket, decoded or not: receive and send buffers strictly increasing in their windows, receiver drained, in-flight count fits its `u16` cast, `cwnd == incr / mss`, buffer within the mtu |
| `Lifetime.NeverBack` | src/kcp/kcp_module/kcp.rs:494-529 | over every such life `snd_una` and `rcv_nxt` never decrease |
| `Lifetime.WindowArithmeticFits` | src/kcp/kcp_module/kcp.rs:758-771 | in every reachable state each sum and product of the next growth step, and of the window after an early retransmission, fits its type |
| `Lifetime.DeadlinesAreAhead` | src/kcp/kcp_module/kcp.rs:921-984 | over every life, whatever failed before, after an update or flush that succeeds every kept segment has been sent and its deadline is ahead |
| `Lifetime.CheckIsTimely` | src/kcp/kcp_module/kcp.rs:1029-1087 | over every life, the statement of `Timing.CheckAfterUpdate` |
| `Witnesses.AFlushIsSkipped` | src/kcp/kcp_server/kcp_peer.rs:94-96 | a new endpoint, updated once and given a message, for which `need_update` says no at a time at which `update` would send the message |
| `Witnesses.DelayOutgrowsTheClock` | src/kcp/kcp_module/kcp.rs:941-950 | a life with 10,737,417 timeouts after which a successful update leaves a deadline that is due again at once |
| `Witnesses.CheckStandsStill` | src/kcp/kcp_module/kcp.rs:1075-1084 | a life after which an update flushes, keeps its segment as it is, and `check` names no time ahead |
| `Witnesses.FirstBytes` | src/kcp/kcp_module/kcp.rs:99-118 | the bytes of the first segment of a new endpoint |
| `Witnesses.FirstExchange` | src/kcp/kcp_module/kcp.rs:616-984 | a new endpoint that gets it, with any key, answers with the acknowledgement that echoes its time stamp and announces one segment less |
| `Safety.RunKeeps` | src/kcp/kcp_module/kcp.rs:255-1052 | every run of two endpoints keeps the system invariant |
| `Safety.ExactDelivery` | src/kcp/kcp_module/kcp.rs:354-476 | in every run the bytes `recv` has returned on one side are a prefix of the bytes `send` has taken over on the other |
| `Safety.MessageBoundaries` | src/kcp/kcp_module/kcp.rs:354-476 | in message mode the k-th successful `recv` returns the k-th accepted message |
| `Safety.NothingIsLost` | src/kcp/kcp_module/kcp.rs:502-589 | in every reachable state each number given is still kept by the sender or held by the receiver, and every datagram ever sent still tells the truth about its sender |
| `Safety.NeverWedged` | src/kcp/kcp_module/kcp.rs:328-352 | in every reachable state a full receive queue has a whole message at its front |
| `Safety.QueueYields` | src/kcp/kcp_module/kcp.rs:328-352 | a queue that yields nothing holds fewer than 128 segments, and once everything has arrived it yields until it is empty |
| `Progress.NeverStuck` | src/kcp/kcp_module/kcp.rs:806-1009 | from every reachable state with anything waiting there is a continuation, in which no clock is set back, that strictly lowers `wait_snd`, also out of closed windows and full queues |
| `Progress.EverythingCanArrive` | src/kcp/kcp_module/kcp.rs:354-1012 | from every reachable state there is a continuation, in which no clock is set back, after which nothing waits and the other side has returned exactly what was taken over |
| `KcpEngine.KcpOutput.Decode` | src/kcp/kcp_module/kcp.rs:151-164 | the loop masks the bytes in place, position by position with the repeating key, and leaves what is before it |
| `KcpEngine.KcpOutput.Send` | src/kcp/kcp_module/kcp.rs:130-141 | what reaches the socket is the sealed datagram, or nothing when it fails |
| `KcpEngine.Kcp.constructor` | src/kcp/kcp_module/kcp.rs:278-325 | a new engine is the initial state and satisfies the invariant |
| `KcpEngine.Kcp.SetMtu` | src/kcp/kcp_module/kcp.rs:1092-1107 | a small mtu is refused; otherwise mtu and segment size follow, and before traffic the invariant is kept |
| `KcpEngine.Kcp.SetWndsize` | src/kcp/kcp_module/kcp.rs:1155-1163 | zero is ignored, the receive window never falls below 128 |
| `KcpEngine.Kcp.SetInterval` | src/kcp/kcp_module/kcp.rs:1115-1122 | the value asked for is stored, in or out of the range |
| `KcpEngine.Kcp.SetNodelay` | src/kcp/kcp_module/kcp.rs:1132-1151 | the interval is clamped, negative values are ignored |
| `KcpEngine.Kcp.PeekSize` | src/kcp/kcp_module/kcp.rs:328-352 | the loop computes the size of the message at the front |
| `KcpEngine.Kcp.Recv` | src/kcp/kcp_module/kcp.rs:355-406 | the caller's buffer starts with the message and is otherwise untouched, the engine makes the step of `Engine.Receive`; on error nothing changes |
| `KcpEngine.Kcp.MergeFragments` | src/kcp/kcp_module/kcp.rs:369-380 | the popping loop writes exactly the front message to the start of the caller's buffer, leaves the rest of both, and stops after as many bytes as `peek_size` announced |
| `KcpEngine.Kcp.Send` | src/kcp/kcp_module/kcp.rs:409-476 | the engine makes the step of `Engine.SendData`, with its result |
| `KcpEngine.Kcp.UpdateAck` | src/kcp/kcp_module/kcp.rs:478-492 | the in-place estimator is `Control.UpdateAck` |
| `KcpEngine.Kcp.ParseAck` | src/kcp/kcp_module/kcp.rs:502-518 | the scan with its early exits removes what `Sending.ParseAck` removes |
| `KcpEngine.Kcp.ParseUna` | src/kcp/kcp_module/kcp.rs:520-529 | the loop removes the acknowledged prefix |
| `KcpEngine.Kcp.ParseFastack` | src/kcp/kcp_module/kcp.rs:531-543 | the loop counts on exactly the segments before the acknowledged one |
| `KcpEngine.Kcp.ParseData` | src/kcp/kcp_module/kcp.rs:550-589 | search from the back, insertion and draining amount to `Receiving.ParseData` |
| `KcpEngine.Kcp.Input` | src/kcp/kcp_module/kcp.rs:616-779 | decoding in place, the parsing loop with all its error exits and the work after it amount to `Engine.Intake` on the bytes of the socket, the panic included |
| `KcpEngine.Kcp.FlushAcks` | src/kcp/kcp_module/kcp.rs:789-804 | the loop puts out one packet per pending acknowledgement and clears the list only when none failed |
| `KcpEngine.Kcp.ProbeWndSize` | src/kcp/kcp_module/kcp.rs:806-827 | the probe timer steps as `Engine.ProbeTimer` |
| `KcpEngine.Kcp.FlushProbeCommands` | src/kcp/kcp_module/kcp.rs:829-853 | the pending probe commands go out, the question first, and are forgotten only when both are out |
| `KcpEngine.Kcp.TransmitSegments` | src/kcp/kcp_module/kcp.rs:933-978 | the in-place loop over the send buffer, left at the first failed send, amounts to `Packing.TxAll` |
| `KcpEngine.Kcp.Flush` | src/kcp/kcp_module/kcp.rs:874-1012 | state, datagrams and result of a flush are those of `Engine.Flush`, wherever the socket fails |
| `KcpEngine.Kcp.FlushAck` | src/kcp/kcp_module/kcp.rs:856-871 | the same for acknowledgements alone; refused before the first update |
| `KcpEngine.Kcp.FlushAsync` | src/kcp/kcp_module/kcp.rs:1014-1024 | advances the clock by 10 and flushes |
| `KcpEngine.Kcp.Update` | src/kcp/kcp_module/kcp.rs:1029-1052 | the step of `Engine.Update`: clock, schedule and flush |
| `KcpEngine.Kcp.Check` | src/kcp/kcp_module/kcp.rs:1057-1087 | the loop with its early exits computes `Engine.Check` |
| `KcpPeers.KcpPeer.Input` | src/kcp/kcp_server/kcp_peer.rs:60-69 | a datagram the engine takes makes the next update due at once; a refused one leaves the schedule |
| `KcpPeers.KcpPeer.Update` | src/kcp/kcp_server/kcp_peer.rs:100-110 | before the stored time nothing happens; from it on the engine is updated and the next time stored unless the flush failed |
| `KcpPeers.KcpPeer.SkippedUpdatesAreIdle` | src/kcp/kcp_server/kcp_peer.rs:94-104 | whatever has happened since the last update, an update before the stored time would only set the clock |
| `KcpPeers.KcpPeer.SkippedAtTheTime` | src/kcp/kcp_server/kcp_peer.rs:94-96 | at the stored time itself an update flushes if that time is the flush time, and otherwise only sets the clock |
| `KcpReaders.ReadFacts` | src/kcp/kcp_server/kcp_peer/reader.rs:58-152 | one read pops at most the next message and gives and keeps exactly its bytes |
| `KcpReaders.ReadGives` | src/kcp/kcp_server/kcp_peer/reader.rs:58-152 | a read gives as much as fits of the rest or of the next message, and waits or reports a broken pipe only when there is neither |
| `KcpReaders.ReadsExhaust` | src/kcp/kcp_server/kcp_peer/reader.rs:58-152 | with a buffer of at least one byte, enough reads leave no message and no rest |
| `KcpReaders.ReadsDeliverMessages` | src/kcp/kcp_server/kcp_peer/reader.rs:58-152 | for any read sizes on an endpoint at rest, the bytes given followed by the unread rest are the popped messages joined, and those are the engine's first messages |
| `KcpReaders.ReadSizesDoNotMatter` | src/kcp/kcp_server/kcp_peer/reader.rs:58-152 | of two ways to size the reads on an endpoint at rest, what one has given is a prefix of what the other has |
| `Streams.ReadsDeliverMessages` | src/kcp/kcp_server/kcp_peer/reader.rs:58-152 | with reads of any sizes between any steps of the two endpoints, the system makes one of its runs, and the bytes given followed by the unread rest are what `recv` has returned |
| `Streams.StreamIsExact` | src/kcp/kcp_server/kcp_peer/reader.rs:58-152 | so the bytes given are always a prefix of what the other side's `send` has taken over |
| `Streams.ReadSizesDoNotMatter` | src/kcp/kcp_server/kcp_peer/reader.rs:58-152 | of two lives of a connection with the same bytes sent, whatever the read sizes and the network, what one reader has given is a prefix of what the other has |
| `KcpReaders.KcpReader.FillCache` | src/kcp/kcp_server/kcp_peer/reader.rs:89-104 | a message too large for the caller is popped whole into the cache; stale bytes of a larger cache stay outside |
| `KcpReaders.KcpReader.PollRecv` | src/kcp/kcp_server/kcp_peer/reader.rs:58-152 | the state machine over cache and engine amounts to one `Read`; `handed` followed by the cached rest is always the popped messages joined |
| `KcpReaders.KcpReader.PollRead` | src/kcp/kcp_server/kcp_peer/reader.rs:156-168 | the same, and a finished poll leaves the state machine at its beginning |

## Left out

- Sockets, the listener's accept loop, tasks, sleeping and the system clock: input and output. Sending is a log that may fail.
- The handshake, `make_conv` and the peer map: single-branch facts around concurrent library calls.
- `KcpWriter`, the poll plumbing of `KcpPeer::recv`, wakers: state machines around lock futures without data of their own. The broken-pipe flag is a plain field; nothing is claimed about wake-ups.
- `KcpConfig::apply_config`, getters, logging, error display: they only pass values on.
- Sequence numbers at and beyond 2^31: the code's comparisons disagree there, so the invariants are not the code's.
- Reconfiguration while segments are queued: the code does not cut them again.
- The unreachable error arms of the reader after a successful `peek_size`: shown to be unreachable and not written out.
- ExactDelivery: a `send` that would take the sequence numbers past 2^31 minus a margin is not a step of the system; the same holds for the other theorems about runs.
- FlushArmsTimers: requires timers in order and fewer than 35791 transmissions of each segment; `FlushArmsExactly` has the exact condition without either.
- DeadlinesAreAhead: requires `rx_minrto >= 1` and, before every operation, fewer than 35791 transmissions of each kept segment; the same holds for CheckIsTimely.
- KcpReaders.ReadsDeliverMessages: nothing arrives between the reads, as in KcpReaders.ReadSizesDoNotMatter; the two lemmas of the same names in `Streams` are about living connections.
- AlwaysInOrder: the congestion part is for an `mss` below 65536, where the products fit.
- EverythingCanArrive: gives a continuation in which the network delivers; nothing forces a network to.
