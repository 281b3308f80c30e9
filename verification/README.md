# netrpc, modelled and proved in Dafny

netrpc is a C++ RPC framework: TinyPB frames over TCP, a growable byte buffer, a dispatcher, a client channel,
a timer queue, a consistent-hash ring, MD5, an asynchronous log and a message-id generator. This project models the
parts with the most state and arithmetic and proves what they keep over every input and every run. Where the code
misses what it is for, the exact condition under which it meets it is proved instead.

| file | what it models |
|---|---|
| `Bytes.dfy`, `Numerals.dfy` | bytes and 32-bit integers in network order; numbers in decimal |
| `TcpBuffer.dfy` | the byte buffer as a class, its values, its runs and their cost |
| `TinyPB.dfy` | the frame coder: encoding through a write pointer, the scanning and decoding loop |
| `DecodeLoop.dfy` | the decoding loop to its end, also after it has moved back; whether it stops |
| `FrameStreams.dfy` | one frame and streams of frames: layout, parsing, scanning, decoding |
| `Delivery.dfy` | round trip, and exactly how much noise a stream survives |
| `Cuts.dfy` | exactly which unfinished tails are kept for later |
| `Chunks.dfy` | delivery in chunks, by reads or by writes |
| `Dispatcher.dfy` | the reply to each request, with services as parameters |
| `TcpConnection.dfy` | server and client side of a connection: replies, callbacks by message id |
| `EndToEnd.dfy` | requests to fired callbacks, under any repetition of frames |
| `SendRuns.dfy` | the client's queue over runs of pushes and writes |
| `Wire.dfy` | the client over a run of reads, and over the partial writes of the server |
| `ConsistentHash.dfy` | the ring as a class, routing, histories of adds and deletes |
| `Timer.dfy`, `TimerRuns.dfy` | the timer queue and its events as classes; every run of them |
| `TimerOrder.dfy` | what the timer is armed for and in which order events run, over every run |
| `Words.dfy`, `Md5Tables.dfy`, `Md5Padding.dfy`, `Md5.dfy` | MD5 and RFC 1321 (sections 3.1 to 3.5) |
| `Md5Sines.dfy` | the additive constants of MD5 as integer parts of 2^32 times the sine |
| `RpcChannel.dfy` | controller and channel; every interleaving of a call's continuations |
| `LogPipeline.dfy` | the log's two classes; every interleaving of pushers, sync callers and the writer |
| `MsgId.dfy` | the per-thread decimal message ids |

Each class method is proved against a function on values; the lemmas then speak about those functions, over all
inputs and over whole runs. Where a decoding call, a ring look-up or an id leaves defined behaviour, or never ends, the
model has an outcome for it (`Undefined`, `Diverges`). Preconditions are what callers owe: a buffer whose indices are in
order, no index move after which a negative count would be copied, frames whose length an `int` holds.

## What the code does not do

These are consequences of the model, each with its exact condition among the rows below.

- A decoded stream that ends exactly at the capacity of the buffer is decoded for ever, unless an earlier frame made
  the buffer compact (`Delivery.StreamRoundTrip`; a frame in a new buffer of its length, `Delivery.ExactFitDiverges`);
  a read that exactly fills the buffer is dropped (`TcpBuffers.StepIsFifo`).
- Up to six bytes of leading noise are harmless, seven and more are not (`Delivery.HarmlessNoiseIff`).
- A cut inside a frame's length field can make the decoder spin or read before its array
  (`Cuts.CutInsideLengthFails`); which tails are kept for later is decided by the scanner's test on every byte of
  them, in the buffer that the whole frames leave (`Cuts.CutStreamIff`, `Cuts.CallKeepsIff`; for whole deliveries
  `Chunks.DeliveredIff`).
- Every frame a connection has ever sent goes out again with each later write (`EndToEnd.OldFramesGoOutAgain`); the
  callbacks nevertheless fire once (`EndToEnd.RequestToCallback`, `Wire.ClientFiresInPieces`).
- A partial write makes the loop start over from the front (`Connections.CleanSendIff`). While partial writes end at the
  ends of frames the callbacks still fire once (`Wire.PartialWritesFire`); inside a frame the client may take the
  front part and the frame after it for a frame that overruns its arrays (`Wire.PartialWriteBreaks`).
- Every closure reply is sent twice, and a method that drops its closure still yields a reply with error code 0
  (`EndToEnd.FramesAndErrors`).
- A timeout that comes first means that the closure never runs, although the code calls `callBack` there
  (`RpcCompletion.ClosureRunsIff`); after one failed connect no later connect queues the request
  (`RpcCompletion.QueuedIff`); late failures overwrite the outcome of a finished call (`RpcCompletion.LateReports`).
- Buffer growth is paid by the bytes written only as long as no resize gives capacity up
  (`TcpBuffers.AmortisedCost`, `TcpBuffers.ShrinkingIsCharged`).
- An event deleted while `onTimer` is running its tasks still runs if it was collected
  (`TimerRuns.DeletedRunsIffCollected`, such a run `TimerRuns.DeletedEventRuns`).
- MD5 padding is wrong for lengths of 56 modulo 64 and from nine octets below 2^28 on
  (`Md5Padding.PaddingIff`); a digest loses the high zero octets of each word (`Md5.OutputIff`).
- Twenty nines after a second seeding make `GenMsgID` index outside its string (`MsgIds.UndefinedIff`), in the third
  call when the random source delivers nines (`MsgIds.ThirdCallUndefined`).
- Deleting a ring node erases colliding points of others (`ConsistentHashing.DeleteDisturbsMinimallyIff`), and with
  collisions the ring depends on history (`ConsistentHashing.HistoryIndependentIff`).
- Two sync callers of the log can overtake each other (`LogPipeline.InOrderIff`).

## Model

| member | source | states |
|---|---|---|
| Bytes.NetRoundTrip | netrpc/common/util.cc:42-47 | four bytes laid out in network order read back as the same signed 32-bit number |
| TcpBuffers.TcpBuffer.constructor | netrpc/net/tcp/tcp_buffer.cc:8-10 | a new buffer is zeroed, empty, of the given capacity |
| TcpBuffers.TcpBuffer.WriteToBuffer | netrpc/net/tcp/tcp_buffer.cc:34-42 | the bytes are appended to the readable ones, growing to three halves when needed; growth copies are counted |
| TcpBuffers.TcpBuffer.ReadFromBuffer | netrpc/net/tcp/tcp_buffer.cc:44-58 | returns and removes the first readable bytes; the vector passed in stays when there are none |
| TcpBuffers.TcpBuffer.ResizeBuffer | netrpc/net/tcp/tcp_buffer.cc:60-70 | as many readable bytes as fit move to the front of a zeroed vector of the new size |
| TcpBuffers.TcpBuffer.AdjustBuffer | netrpc/net/tcp/tcp_buffer.cc:72-85 | compacts from a dead prefix of a third on, keeping the contents; copies are counted |
| TcpBuffers.TcpBuffer.MoveReadIndex | netrpc/net/tcp/tcp_buffer.cc:87-95 | moves the read index by any `int` and compacts, or does nothing when the index would be negative or reach the capacity |
| TcpBuffers.TcpBuffer.MoveWriteIndex | netrpc/net/tcp/tcp_buffer.cc:97-105 | moves the write index by any `int` and compacts, or does nothing when the index would be negative or reach the capacity |
| TcpBuffers.StepIsFifo | netrpc/net/tcp/tcp_buffer.cc:34-105 | one operation is the operation of a plain byte queue if and only if its index move is not refused |
| TcpBuffers.RunIsFifo | netrpc/net/tcp/tcp_buffer.cc:34-105 | over every run, bytes held at the start and put in are the bytes taken out and held at the end, in order |
| TcpBuffers.PerformAll | netrpc/net/tcp/tcp_buffer.cc:34-105 | the object over any run of its calls: its bytes, and the counts of what it copied, are those of the ledger |
| TcpBuffers.AmortisedCost | netrpc/net/tcp/tcp_buffer.cc:34-85 | over every run whose resizes leave three bytes or more, growth copies at most 3 bytes per byte put in and 2 per byte of capacity given up, compaction at most 4 per byte taken out, and the dead prefix stays below a third |
| TcpBuffers.ShrinkingIsCharged | netrpc/net/tcp/tcp_buffer.cc:34-70 | without the charge for capacity given up no linear bound holds: for every factor a run that copies more |
| TcpBuffers.TinyVectorsCopy | netrpc/net/tcp/tcp_buffer.cc:72-85 | in a vector below three bytes every adjustment copies all there is, with nothing taken out |
| TinyPB.EncodeTinyPB | netrpc/net/coder/tinypb_coder.cc:140-213 | the bytes written through the moving pointer are the frame of the message, which gets its default id and its lengths |
| TinyPB.Encode | netrpc/net/coder/tinypb_coder.cc:12-26 | the frames of all messages are appended in order |
| TinyPB.FindFrame | netrpc/net/coder/tinypb_coder.cc:39-60 | the scanning loop finds the first start byte whose length leads to an end byte, or says where it leaves the arrays |
| TinyPB.DecodeOnce | netrpc/net/coder/tinypb_coder.cc:31-137 | one pass: the scan, the move of the read index by the length found, whatever its sign, and the fields |
| TinyPB.SpinsForEver | netrpc/net/coder/tinypb_coder.cc:30-69 | a pass said to diverge leaves the buffer as it was, so any number of passes does, each pushing the same messages |
| TinyPB.DecodeIsTheLoop | netrpc/net/coder/tinypb_coder.cc:29-138 | as long as no negative length is accepted, finished or undefined is how the loop of passes stops, after the passes counted, and diverging means that it is running after any number of passes |
| DecodeLoop.StopsSoonOrNever | netrpc/net/coder/tinypb_coder.cc:29-138 | from any buffer, moved back or not, the loop stops within (write index + 1) times (capacity + 2) passes or never |
| DecodeLoop.DecodeAllIsTheLoop | netrpc/net/coder/tinypb_coder.cc:29-138 | for every buffer: diverging means that the loop never stops, having pushed those messages and left that buffer at some pass; anything else that it stops with just that outcome, those messages and that buffer |
| DecodeLoop.DecodeBuffer | netrpc/net/coder/tinypb_coder.cc:29-138 | the decoding loop pushes the messages of `DecodeAll`, leaves its buffer, and ends as it says |
| FrameStreams.FrameLaidOut | netrpc/net/coder/tinypb_coder.cc:140-201 | every field of a frame, its length and the trailer sit at their offsets |
| FrameStreams.FrameRoundTrip | netrpc/net/coder/tinypb_coder.cc:67-131 | a frame parses back to its message if and only if its id, method and error text are free of NUL and below 100, 512 and 512 bytes |
| FrameStreams.AnyFrame | netrpc/net/coder/tinypb_coder.cc:67-131 | any bytes between a start byte and the end byte its length leads to: dropped if and only if the header reaches the end byte, parsed if and only if it fits in front of the last four bytes, else read outside the arrays |
| FrameStreams.AnyFrameFields | netrpc/net/coder/tinypb_coder.cc:73-131 | what is parsed then: id, method and error text up to a NUL, the code, and as data what stands between the text and the last four bytes |
| FrameStreams.ScanQuietIff | netrpc/net/coder/tinypb_coder.cc:39-65 | the scanner runs to the end if and only if every byte passes its test: a start byte has its length field in the vector and leads beyond the written bytes or to no end byte |
| FrameStreams.DecodeStream | netrpc/net/coder/tinypb_coder.cc:29-138 | noise, frames and an unfinished tail decode to exactly the messages, leaving a lag as long as the noise and the tail; a bare stream with no room at the end diverges |
| Delivery.StreamRoundTrip | netrpc/net/coder/tinypb_coder.cc:12-138 | decoding what was encoded gives the same messages and drains the buffer if and only if the last frame ends below the capacity or an earlier one made it compact; else it diverges |
| Delivery.ExactFitDiverges | netrpc/net/coder/tinypb_coder.cc:29-138 | the other case arises: one frame written into a new buffer of just its length is decoded for ever |
| Delivery.FrameEndIsQuiet | netrpc/net/coder/tinypb_coder.cc:197-201 | the last six or fewer bytes of any frame cannot fool the scanner |
| Delivery.Resynchronises | netrpc/net/coder/tinypb_coder.cc:39-68 | one to six bytes of noise without a start byte cost no message of any stream |
| Delivery.LongNoiseFails | netrpc/net/coder/tinypb_coder.cc:39-76 | any seven or more bytes of noise before a frame whose data ends in 3, 2 and zeros to match: the frame arrives and then the decoder spins, or reads before its array once the buffer has been compacted |
| Delivery.HarmlessNoiseIff | netrpc/net/coder/tinypb_coder.cc:39-76 | noise of length n without a start byte costs no message of any stream in any buffer if and only if n is at most six, for every n up to 100 below the range of `int` (a buffer holds noise and a frame) |
| Chunks.DeliveredIff | netrpc/net/coder/tinypb_coder.cc:29-138 | over any cutting of a stream into chunks read or written, every chunk is taken in whole and decoded into the frames then complete, the rest staying pending, if and only if every index move is accepted and every cut meets the condition of `CallKeepsIff`, buffer by buffer |
| Chunks.DeliveredBringsAll | netrpc/net/coder/tinypb_coder.cc:29-138 | such a delivery brings all the messages and drains the buffer |
| Chunks.GoodCuttingDelivers | netrpc/net/coder/tinypb_coder.cc:29-65 | by the bytes alone: so does every cutting whose tails have no, one, or at least five bytes without a second start byte, and whose chunks leave a third of the capacity free or are written with something left pending |
| Chunks.FrameByFrameIsGood | netrpc/net/coder/tinypb_coder.cc:29-65 | a chunk for each frame is such a cutting when every frame leaves a third of the capacity free |
| Chunks.WellCutIsQuiet | netrpc/net/coder/tinypb_coder.cc:39-54 | a front part of a frame of no, one, or at least five bytes without a second start byte is quiet |
| Cuts.LeftAloneIff | netrpc/net/coder/tinypb_coder.cc:29-138 | in any buffer, decoding ends without having moved back and leaves all readable bytes there if and only if every one of them passes the test of the scanner |
| Cuts.CutStreamIff | netrpc/net/coder/tinypb_coder.cc:29-138 | frames and a tail decode to exactly the frames with the tail kept if and only if a bare stream has room to finish, or the bytes of the tail pass that test in the buffer the frames leave, whose unread part is zeros if a move reached a third of the vector and untouched if not |
| Cuts.CallLeavesAloneIff | netrpc/net/coder/tinypb_coder.cc:29-138 | the same of the whole call, moved back or not, for a read index where the index moves leave it |
| Cuts.CallKeepsIff | netrpc/net/coder/tinypb_coder.cc:29-138 | and for a cut stream: the whole call ends with exactly the frames and the tail kept if and only if `Keeps` holds |
| Cuts.CutInsideLengthFails | netrpc/net/coder/tinypb_coder.cc:42-58 | a cut two to four bytes into a frame with zeros beyond, behind a whole frame: the decoder spins below a third of the vector and reads before its array above |
| Dispatcher.ParseServiceFullName | netrpc/net/rpc/rpc_dispatcher.cc:147-164 | fails if and only if there is no dot; else the two parts around a dot rebuild the name and the first has no dot |
| Dispatcher.FirstDotSplit | netrpc/net/rpc/rpc_dispatcher.cc:152-159 | a dot-free service name, a dot and any method name split back into the two |
| Dispatcher.ReplyKeepsIdentity | netrpc/net/rpc/rpc_dispatcher.cc:25-94 | every reply, error or not, has its request's id and method name and stays within the field limits |
| Dispatcher.NamelessReply | netrpc/net/rpc/rpc_dispatcher.cc:36-39 | a name without a dot: not sent, code 10000010 and its text, no data |
| Dispatcher.NamedReply | netrpc/net/rpc/rpc_dispatcher.cc:41-97 | for method `n` of service `s`, by the registry alone: whether the closure sends the reply, and its data, numeric code and text, for an unknown service, an unknown method, a body that does not parse, a dropped closure, a response serialised to `data` (which the reply carries) and one that does not serialise |
| Connections.TcpConnection.Reply | netrpc/net/tcp/tcp_connection.cc:129-132 | the frames of the replies are appended to the out buffer |
| Connections.TcpConnection.DispatchOne | netrpc/net/rpc/rpc_dispatcher.cc:81-97 | a closure that runs sends the reply at once, and the response kept is the one it sent |
| Connections.TcpConnection.ExcuteServer | netrpc/net/tcp/tcp_connection.cc:88-110 | closure replies first, then the whole batch again, behind what the out buffer held |
| Connections.TcpConnection.ExcuteClient | netrpc/net/tcp/tcp_connection.cc:111-124 | each decoded message fires and removes the callback under its id, if any |
| Connections.TcpConnection.OnWrite | netrpc/net/tcp/tcp_connection.cc:134-190 | on whatever results the writes bring, the bytes of `Send` go out and nothing is consumed; the client encodes its queue first, message by message in order, and once the loop has ended has run each of its callbacks, in order and with its message, and forgotten the queue |
| SendRuns.RunSends | netrpc/net/tcp/tcp_connection.cc:134-242 | over every run of pushes and writes: what was pushed up to the last write is encoded in order behind what the out buffer held and each of its callbacks has run exactly once, in that order; what was pushed later is queued |
| Connections.CleanSendIff | netrpc/net/tcp/tcp_connection.cc:155-177 | a loop that ends with all written has sent the front parts of its earlier turns and then everything: everything once if and only if no earlier turn wrote anything |
| Wire.WholeFramesGoOut | netrpc/net/tcp/tcp_connection.cc:155-177 | when every partial write ends at the end of a frame, the bytes on the wire are a stream of whole frames, all of them among it once everything is written |
| Wire.PartialWritesFire | netrpc/net/tcp/tcp_connection.cc:155-177 | then each registered callback of the client fires exactly once with the reply to its own request |
| Wire.PartialWriteBreaks | netrpc/net/coder/tinypb_coder.cc:39-91 | seven bytes of a frame of thirty and then the whole of it decode to nothing but an overrun of the id array |
| Connections.TcpConnection.PushReadMessage | netrpc/net/tcp/tcp_connection.cc:244-246 | registers a callback unless one is registered under the id |
| Connections.TcpConnection.PushSendMessage | netrpc/net/tcp/tcp_connection.cc:240-242 | queues a message with its callback |
| EndToEnd.FiresOnceEach | netrpc/net/tcp/tcp_connection.cc:116-123 | for any messages, each registered id that occurs fires exactly once, with the first message that carries it, and is unregistered |
| EndToEnd.FiresInOrder | netrpc/net/tcp/tcp_connection.cc:116-123 | callbacks run in the order of the messages, exactly at the first message under each registered id, each with that message |
| EndToEnd.RepliesInOrder | netrpc/net/tcp/tcp_connection.cc:95-105 | closures reply in the order of the requests, exactly for those whose closure runs |
| EndToEnd.RepeatsAreSilent | netrpc/net/tcp/tcp_connection.cc:116-123 | messages whose ids have all been seen fire nothing |
| EndToEnd.ServerOutput | netrpc/net/tcp/tcp_connection.cc:88-110 | the out buffer holds its old frames, the closure replies and the batch, for every stream of requests |
| EndToEnd.ClientFires | netrpc/net/tcp/tcp_connection.cc:111-124 | any order and repetition of the server's frames fires each callback once, with the reply to its own request |
| EndToEnd.RequestToCallback | netrpc/net/tcp/tcp_connection.cc:88-132 | from request bytes to fired callbacks, each exactly once, however often the server's bytes arrive; a callback whose method returned some bytes gets those bytes, under the request's id and name, with no error |
| Wire.ClientFiresInPieces | netrpc/net/tcp/tcp_connection.cc:111-124 | the same when the frames arrive in pieces with a call of `excute` after each, for every cutting whose cuts survive |
| Wire.ExcuteRounds | netrpc/net/tcp/tcp_connection.cc:56-124 | over the connection's own calls, the callbacks run and left are those of `ClientRun` |
| EndToEnd.ReplyRounds | netrpc/net/tcp/tcp_connection.cc:129-190 | over rounds of `reply` and a write taken whole, the bytes on the wire are the frames of `SentOver` |
| EndToEnd.SentOverIsSent | netrpc/net/tcp/tcp_connection.cc:156-177 | for any out buffer and any frames held in it, the bytes sent over rounds of appending and sending everything are the frames of `SentOver` |
| EndToEnd.OldFramesGoOutAgain | netrpc/net/tcp/tcp_connection.cc:156-177 | in `SentOver` a frame of round i of n occurs n - i times: nothing sent is ever consumed |
| EndToEnd.FramesAndErrors | netrpc/net/rpc/rpc_dispatcher.cc:36-97 | a batch of requests brings about a frame for each and one more for each closure that runs; errors once for each request no method takes and twice for each response that does not serialise |
| ConsistentHashing.NodeKeyText | netrpc/common/consistent_hash.cc:25-26 | a key is the two fixed texts with the machine's index and the virtual node's number in shortest decimal |
| ConsistentHashing.InitialOwners | netrpc/common/consistent_hash.cc:19-31 | a new ring holds exactly the hashes of the keys of all machines and virtual nodes, each owned by the first machine that claims it |
| ConsistentHashing.NodeKeyInjective | netrpc/common/consistent_hash.cc:25-27 | different virtual nodes have different keys |
| ConsistentHashing.SeparatingHash | netrpc/common/consistent_hash.cc:25-28 | a hash that tells those keys apart makes no collisions |
| ConsistentHashing.ConsistentHash.Initialize | netrpc/common/consistent_hash.cc:19-31 | the nested loops add every machine's points in turn |
| ConsistentHashing.ConsistentHash.GetServerIndex | netrpc/common/consistent_hash.cc:33-43 | `lower_bound`, or `begin` past the end, gives the owner of a point to which no point is nearer clockwise; undefined if and only if the ring is empty |
| ConsistentHashing.ConsistentHash.DeleteNode | netrpc/common/consistent_hash.cc:45-58 | the loop erases all points of the machine, whoever owns them |
| ConsistentHashing.ConsistentHash.AddNewNode | netrpc/common/consistent_hash.cc:60-69 | the loop adds the machine's points where none was |
| ConsistentHashing.AddDisturbsMinimally | netrpc/common/consistent_hash.cc:60-69 | after an add every key keeps its server or goes to the new machine |
| ConsistentHashing.DeleteSendsOn | netrpc/common/consistent_hash.cc:45-58 | after a delete keys of surviving points stay and the others go to the next survivor clockwise |
| ConsistentHashing.DeleteDisturbsMinimallyIff | netrpc/common/consistent_hash.cc:45-58 | a delete leaves all other machines' keys in place if and only if it erases only its own points |
| ConsistentHashing.DeleteDisturbsMinimally | netrpc/common/consistent_hash.cc:19-69 | after any history from `Initialize` on, without collisions, a delete moves the keys of that machine and no others, each to the next surviving point |
| ConsistentHashing.HistoryDoesNotMatter | netrpc/common/consistent_hash.cc:19-69 | without collisions any two histories after `Initialize` with the same live machines give the same ring |
| ConsistentHashing.HistoryIndependentIff | netrpc/common/consistent_hash.cc:45-69 | histories over a set of machines never matter if and only if no two of them collide |
| ConsistentHashing.AddDeleteIdentityIff | netrpc/common/consistent_hash.cc:45-69 | adding then deleting is the identity if and only if none of the points was taken |
| Timers.TimerEvent.constructor | netrpc/net/timer_event.cc:7-11 | a new event arrives an interval from now and is not cancelled |
| Timers.TimerEvent.ResetArriveTime | netrpc/net/timer_event.cc:13-16 | the arrival becomes now plus the interval |
| Timers.ArmsForInterval | netrpc/net/timer.cc:84-106 | the time set is valid and exact: the deadline is the arrival if that is to come, else 100 ms from now |
| Timers.Timer.ResetArriveTime | netrpc/net/timer.cc:74-111 | the deadline becomes the first arrival if that is to come, else 100 ms from now; with nothing waiting the descriptor is left alone |
| Timers.Timer.AddTimerEvent | netrpc/net/timer.cc:113-133 | files the event behind its equals and re-arms when it comes first |
| Timers.Timer.DeleteTimerEvent | netrpc/net/timer.cc:135-155 | marks the event and erases its entry among those with its arrival time |
| Timers.Timer.OnTimer | netrpc/net/timer.cc:22-72 | the loops collect, erase, re-queue and re-arm as `FireDue` says |
| TimerOrder.InsertAt | netrpc/net/timer.cc:127 | an entry is filed behind all entries of its arrival or earlier and before all later ones |
| TimerOrder.AddArms | netrpc/net/timer.cc:116-132 | adding an event sets the deadline, to its arrival or 100 ms from now, if and only if it is the only one or earlier than all |
| TimerOrder.TimerArms | netrpc/net/timer.cc:22-65 | `onTimer` leaves the exact deadline for the first event that then waits, or with none a descriptor that has been read |
| TimerOrder.DeadlineWasCalledFor | netrpc/net/timer.cc:22-133 | over every run, an armed deadline is exactly what some state so far called for: its first arrival if still to come, else 100 ms after its clock |
| TimerOrder.CollectedAsFiled | netrpc/net/timer.cc:35-63 | over every run, events are collected in order of arrival, and those of one arrival in the order in which they were last filed |
| TimerOrder.RunsAsCollected | netrpc/net/timer.cc:67-71 | over every run, each collected event runs exactly once, in order of collection, or still waits for its turn |
| TimerRuns.FiresExactly | netrpc/net/timer.cc:35-72 | collects exactly the due, uncancelled events, once each and in order; keeps the others, re-files the repeating ones and stays armed |
| TimerRuns.NoLostWakeup | netrpc/net/timer.cc:22-155 | in every reachable state a waiting event means an armed descriptor, due by the first arrival or 100 ms from the clock |
| TimerRuns.DeletedRunsIffCollected | netrpc/net/timer.cc:135-155 | a deleted event is never collected again, and runs later if and only if it had been collected and not run yet |
| TimerRuns.DeletedEventRuns | netrpc/net/timer.cc:35-72 | a run of the timer in which a deleted event is run |
| TimerRuns.RateBound | netrpc/net/timer.cc:57-63 | the i-th and j-th collection of a repeating event are at least (j - i) intervals apart, in every run |
| Words.SumsWrap | netrpc/common/enc/md5.h:35-37 | the additions are sums modulo 2^32, in any order |
| Words.ShiftsRotate | netrpc/common/enc/md5.h:36 | the two shifts are a left rotation for every amount used |
| Words.PushedOctets | netrpc/common/enc/md5.cpp:121-125 | the loop pushes the octets of a word, lowest first, without its high zero octets |
| Md5Tables.XIsK | netrpc/common/enc/md5.cpp:28-33 | the index table holds the word indices of section 3.4 of RFC 1321 |
| Md5Tables.SIsAmount | netrpc/common/enc/md5.cpp:21-26 | the rotation table holds the amounts of section 3.4 |
| Md5Sines.ConstantIsSine | netrpc/common/enc/md5.cpp:10-19 | for any function between all partial sums of the sine's series at 1 that obeys the addition theorems, each constant is the integer part of 2^32 times its absolute value at 1 to 64 |
| Words.OctetsBack | netrpc/common/enc/md5.cpp:43 | a word assembled from four octets, lowest first, has those octets |
| Md5.WordOctets | netrpc/common/enc/md5.cpp:43 | the octets of a block's words are the octets of the block in order |
| Md5.InitOctets | netrpc/common/enc/md5.cpp:5-8 | the four initial words have the octets that section 3.3 of RFC 1321 lists |
| Md5.AuxForms | netrpc/common/enc/md5.h:22-27 | F, G, H and I, as bitwise choices between two words |
| Md5.FourSteps | netrpc/common/enc/md5.cpp:47-52 | four steps with turned arguments are four steps of the register-rotating definition |
| Md5.MD5.CalculateBlock | netrpc/common/enc/md5.cpp:40-80 | the four unrolled loops are the 64 steps of section 3.4, with the constants, octets and bitwise choices of the rows above, added to the state |
| Md5.MD5.Padding | netrpc/common/enc/md5.cpp:89-106 | the loops append what `Padded` says, with the `int` arithmetic wrapped |
| Md5.MD5.Compute | netrpc/common/enc/md5.cpp:108-113 | the blocks are folded in order |
| Md5.MD5.GenDigest | netrpc/common/enc/md5.cpp:115-128 | the four words' octets without high zero octets |
| Md5.MD5.Digest | netrpc/common/enc/md5.cpp:130-137 | padding, definition of the RFC, shortened output |
| Md5.OutputIff | netrpc/common/enc/md5.cpp:115-128 | the output is that of section 3.5 if and only if no word is below 2^24 |
| Md5.DigestIff | netrpc/common/enc/md5.cpp:130-137 | with right padding the digest is that of the RFC if and only if no final word is below 2^24 |
| Md5Padding.PaddedInBlocks | netrpc/common/enc/md5.cpp:89-106 | every padded message is whole 64-byte blocks, for any length |
| Md5Padding.SizeField | netrpc/common/enc/md5.cpp:100-105 | the message is a prefix and the last eight bytes are the size, lowest first |
| Md5Padding.RfcPaddingIsLeast | netrpc/common/enc/md5.cpp:93-99 | the reference padding ends at 56 modulo 64 and no shorter one does |
| Md5Padding.PaddingInjective | netrpc/common/enc/md5.cpp:89-106 | no two messages under 2^28 bytes are padded alike |
| Md5Padding.PaddingIff | netrpc/common/enc/md5.cpp:89-106 | the padding is that of sections 3.1 and 3.2 if and only if the length is not 56 modulo 64 and is below 2^28 - 7 |
| RpcCompletion.RpcController.StartCancel | netrpc/net/rpc/rpc_controller.cc:25-29 | cancelled, failed and finished at once |
| RpcCompletion.RpcController.SetError | netrpc/net/rpc/rpc_controller.cc:45-49 | code, text and failed |
| RpcCompletion.RpcChannel.Init | netrpc/net/rpc/rpc_channel.cc:201-210 | only the first call takes effect |
| RpcCompletion.RpcChannel.DoCallBack | netrpc/net/rpc/rpc_channel.cc:33-45 | nothing once finished; else the closure runs, with its re-entrant runs, and then the call is finished |
| RpcCompletion.RpcChannel.OnTimeout | netrpc/net/rpc/rpc_channel.cc:115-127 | the timeout continuation is its step of the machine, with the timeout printed in the error text |
| RpcCompletion.RpcChannel.OnConnect | netrpc/net/rpc/rpc_channel.cc:138-158 | the connect continuation is its step, with the code and text that the client remembers |
| RpcCompletion.RpcChannel.OnWriteDone | netrpc/net/rpc/rpc_channel.cc:158-163 | once the request is written its reply is awaited |
| RpcCompletion.RpcChannel.OnResponse | netrpc/net/rpc/rpc_channel.cc:163-192 | the read continuation is its step: unparsable, error-coded or good |
| RpcCompletion.CompletionLaw | netrpc/net/rpc/rpc_channel.cc:115-192 | by the events alone: a call is finished if and only if some event decides it (a failed connect, a reply that follows a write that follows a connect, a timeout), and the closure has run if and only if the first such event is no timeout |
| RpcCompletion.DecidedAs | netrpc/net/rpc/rpc_channel.cc:115-192 | the first such event leaves exactly its numeric code, its text and its response, for each kind of event |
| RpcCompletion.GoodCall | netrpc/net/rpc/rpc_channel.cc:138-192 | connected, written and answered well: one run, finished, code 0 and the response |
| RpcCompletion.WaitsIff | netrpc/net/rpc/rpc_channel.cc:138-192 | over every run, by the events alone: a request is queued if and only if a connect has succeeded before any failed and no write is done since; a reply is awaited if and only if such a request was written and no reply has come since |
| RpcCompletion.ClientRemembers | netrpc/net/tcp/tcp_client.cc:54-90 | over every run the client's code and text are those of the last connect that failed |
| RpcCompletion.ClosureRunsIff | netrpc/net/rpc/rpc_channel.cc:33-196 | over every interleaving the closure has run if and only if a completing continuation came before any timeout; a timeout first means never, and cancelled stays |
| RpcCompletion.OnceOnlyIff | netrpc/net/rpc/rpc_channel.cc:33-45 | at most one run in every interleaving if and only if the closure does not re-enter the channel |
| RpcCompletion.FinishedForGood | netrpc/net/rpc/rpc_channel.cc:33-196 | once finished, no continuation un-finishes, cancels or runs the closure |
| RpcCompletion.LateReports | netrpc/net/rpc/rpc_channel.cc:115-192 | over every run after a call is finished its controller shows the failure reported last, and is untouched if none is |
| RpcCompletion.ClosureSees | netrpc/net/rpc/rpc_channel.cc:115-192 | what the closure finds: failed exactly when there is a code, which is the connect's, the serialiser's or the reply's; a timeout leaves its own |
| RpcCompletion.QueuedIff | netrpc/net/rpc/rpc_channel.cc:138-158 | over every run the request is queued at some point if and only if some connect succeeds before any has failed |
| LogPipeline.Logger.PushLog | netrpc/common/log.cc:167-175 | appends to the front buffer, except for a client |
| LogPipeline.Logger.SwapOut | netrpc/common/log.cc:76-80 | the locked part of `syncLoop` is its step of the pipeline |
| LogPipeline.Logger.EnqueueHeld | netrpc/common/log.cc:82-85 | the rest of `syncLoop` is its step of the pipeline |
| LogPipeline.Logger.SyncLoop | netrpc/common/log.cc:73-85 | run by itself it is the two steps, and the front buffer becomes the last batch, if it is not empty |
| LogPipeline.AsyncLogger.PushLogBuffer | netrpc/common/log.cc:292-297 | a batch joins the queue |
| LogPipeline.AsyncLogger.TakeBatch | netrpc/common/log.cc:207-217 | the first batch leaves the queue |
| LogPipeline.AsyncLogger.WriteBatch | netrpc/common/log.cc:267-276 | the loop is all the steps that drain the batch: the file grows by its texts in order, and the thread ends if it was stopped |
| LogPipeline.NothingLostOrDoubled | netrpc/common/log.cc:73-277 | with any number of sync callers, pushed is written plus everything on the way, as multisets, and the file is the text of the written |
| LogPipeline.WrittenIsPrefix | netrpc/common/log.cc:73-277 | with one sync caller the log is an in-order prefix of what was pushed, and the rest is on its way in order |
| LogPipeline.InOrderIff | netrpc/common/log.cc:73-97 | the log is in order in every run if and only if there is at most one sync caller |
| LogPipeline.EndedIff | netrpc/common/log.cc:274-284 | over every run the writer has ended if and only if it was stopped and then got to the end of a batch |
| LogPipeline.EndedLogCompleteIff | netrpc/common/log.cc:274-276 | once the writer has ended the log is complete if and only if nothing was on the way and nothing is pushed any more |
| MsgIds.IncrementAddsOne | netrpc/common/msg_id_util.cc:31-41 | on digits that are not all nines, same length, digits, and the value plus one |
| MsgIds.MsgIDUtil.GenMsgID | netrpc/common/msg_id_util.cc:15-45 | seeding, read error, increment by the loops, or the index underflow |
| MsgIds.Seeded | netrpc/common/msg_id_util.cc:24-27 | each digit of a seed is its own random octet modulo ten |
| MsgIds.UndefinedIff | netrpc/common/msg_id_util.cc:16-34 | a call leaves the string if and only if it stands at twenty nines after more than one seeding |
| MsgIds.ThirdCallUndefined | netrpc/common/msg_id_util.cc:15-45 | a thread gets there in its third call when the random source delivers nines |
| MsgIds.CountsUp | netrpc/common/msg_id_util.cc:31-44 | until the top, the k-th id after a seed has its value plus k, whatever the random source delivers |
| MsgIds.LaterIsGreater | netrpc/common/msg_id_util.cc:31-44 | ids of one seeding are strictly increasing and pairwise distinct |

## Left out

- Sockets, epoll, eventfd, pthreads, semaphores and signal handlers: time is a parameter and threads are atomic steps;
  the race between unlocking and `timerfd_settime` is not modelled.
- The socket loop of `TcpConnection::onRead`: a read is the `Receive` operation of the buffer. Connections are taken to
  be connected.
- Partial writes that end inside a frame: an input shows that they can break the client; which of them do is not
  characterised.
- Buffer capacities and indices beyond the range of `int`: they are unbounded in `TcpBuffers`; decoding assumes
  capacities that an `int` can index.
- TcpBuffers.TcpBuffer.MoveReadIndex: moves after which the compaction copies a negative count are excluded, as for
  MoveWriteIndex; moves that make the indices cross without that are covered.
- `TinyPBProtocol` objects are values, so that a message changed by encoding comes back as a result; two connections
  sharing one message object are not modelled.
- Callbacks that register or remove other callbacks of the connection while `excute` is firing.
- Services that run their closure later or more than once; `registerService` and ZooKeeper.
- Protobuf: whether a body parses and what a response serialises to are parameters.
- The checks of `CallMethod` before its timer is set (null controller, no peer address, not initialised, request that
  does not serialise), load balancing, and the order in which its retry loop calls `connect`: connect outcomes come in
  any number and order.
- TimerRuns.RateBound: speaks of the clock readings at which an event is collected, since a callback may be delayed by
  those before it.
- The sine on all reals: `Md5Sines.ConstantIsSine` speaks of its values at the natural numbers, through the series at 1
  and the addition theorems.
- Md5.MD5.Padding: signed overflow of the bit size just below 2^28 bytes is undefined in C++; the model wraps.
- Md5.MD5.Digest: the loops index with an `int`, which messages of 2^31 bytes and more overflow; the model's index does
  not.
- murmur3: the hash is an arbitrary function to 32 bits, and collisions are hypotheses where they matter.
- The second, identical pipeline for application logs; file naming, rotation and time stamps of log lines.
- Round-robin and consistent-hash load balancing strategies, `FdEventGroup`, the string coder, level names, the event
  loop's task queue, configuration and address parsing: they would add easy members.
