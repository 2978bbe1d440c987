# A model of the eiows transport, with proofs

This project models, in Dafny, the parts of eiows that decide what travels on a
WebSocket connection, and proves properties of the model for every input, every
sequence of calls and every answer of the system.

Four parts are modelled.

**The receive path.** `StreamSession.Session` is the incremental parser and session:
header spill, rotating mask, opcode stack, reassembly buffer, in-place unmasking of
the caller's chunk, borrowed views, closing handshake. `Reference` says what such a
session must do, without buffers: whole frames (RFC 6455, section 5.2), then
fragmentation (5.4), then control frames (5.5). Each call of `Consume` does what the
reference does (`Session.Consume`); the reference does not depend on how the octets
were cut into chunks (`ChunkIndependence`); and it equals a decoder that splits the
stream into frames first and interprets them afterwards. On top of it stand the
discipline of the closing handshake over any calls (`CloseDiscipline`), the payload
limit, before and after a local Close (`ReassemblyBound`), and the round trip of encoded
traffic (`RoundTrip`). `WireRules` tells the reference once more in plain numbers: which
octets are refused and with which code, what comes of each whole message, what a Close and
a Ping are answered with, down to the octets on the wire. `CodePoints` relates the octet
grammar of UTF-8 to code points.
`Utf8`, `Masking`, `Framing`, `Closing` and `Octets` hold what these share.

**The write pipeline.** `WriteRequests.WriteRequest` is one outgoing write: parts of
several storage kinds, two of them inline, and a cursor. `NativeTransport.Transport`
is the queue, the flush, TLS staging, backpressure, cancellation and graceful
shutdown, with JavaScript callbacks that may submit or terminate while any of these
is under way. `WritePipeline` holds its invariant as a predicate on one value, the
steps that keep it, and the relation that any activity, callbacks included, obeys.
`TransportWorld` holds the answers of the world, the frames of the peer, and what a
transport owes to both: that nothing read goes unheeded, and that a connection is closed by
force only after a fault, by a callback, or over the limit.
`QueuedRequests` shows that parts and cursor of a `WriteRequest` implement the request
the queue holds, each cursor operation being the pipeline's step.

**The source-cache lock.** `CacheLock` is a transition system of any number of
attempts, of processes that may die at any step, over a disk of directories with
atomic renames.

**The extension header.** `ExtensionSyntax` is the grammar as syntax trees, a reader,
and the proof that the reader accepts exactly the grammar. `Extensions` holds the
parser and the negotiator as they run.

## Assumptions

- zlib is a function of the messages inflated before in the same context and of the
  next one, giving pieces of output and an end. What the compressor answers is a
  parameter of `CreateFrame`.
- The descriptor, the TLS library and decrypted input answer from sequences given when
  a transport is made, and so does JavaScript: each callback runs the next script. The
  theorems hold for all such sequences; when one runs out the descriptor blocks, TLS
  wants more, nobody calls back.
- The frames a session replies with are Pongs and Closes, of at most 127 octets. What the
  descriptor has for TLS and what TLS decrypts of it are found in one reading.
- A request has an identity that is never used again. The code identifies it by its
  address, which a request freed and allocated within one submission may share.
- Creating the reference that keeps a callback alive succeeds.
- Lock tokens are unique and process numbers are not reused; a probe may report a dead
  process alive (another host, a reused number) but never a living one dead.
- Lengths of outgoing payloads are below 2^63, of close codes below 2^16.

## What was found

- **Lock recovery is not one step.** `recoverCacheLock` looks at the lock again and then
  probes the owner (scripts/build.js:138-140). If the owner releases and exits in between
  and another process acquires, the reclaimer moves the newcomer's lock away, because the
  first owner's tombstone does not exist; the comment at scripts/build.js:141-143 says a
  delayed reclaimer cannot. `CacheLock.SeparateRecoveryCanFail` gives the run.
  Mutual exclusion holds in every run whose dead verdicts are *timely*: at the verdict the
  lock is still the dead owner's, or its tombstone stands (`MutualExclusion`). This condition
  is exact: in any state that runs with timely verdicts lead to, and any other state that keeps
  the invariant, a dead verdict lets two holders come about, all later verdicts being timely,
  if and only if it is not timely itself (`VerdictBreaksUnlessTimely`). Looking and probing in
  one step makes every verdict timely (`MutualExclusionByAtomicRecovery`).
- **A second compressed message after a local Close fails the session.** Data is dropped
  without resetting the mark of a compressed message
  (uWebSockets/src/StreamWebSocket.cpp:386-388), so the next compressed message looks like a
  protocol violation. `RoundTrip.TwoLateCompressedMessages` gives the octets;
  `RoundTrip.PeerCloseReported` states exactly when the peer's Close is still reported.

## Model

| member | source | states |
|---|---|---|
| `StreamSession.Session.Consume` | uWebSockets/src/StreamWebSocket.cpp:525-560 | For any chunk and any reachable session: the session afterwards is the one the reference predicts, and the events handed out, borrowed views included, convey the reference's events octet for octet when the call returns |
| `StreamSession.Session.ParseNext` | uWebSockets/src/WebSocketProtocol.h:503-562 | The parse loop over a buffer performs exactly the steps the reference performs on the same octets, and keeps the rest in the spill |
| `StreamSession.Session.ParseTurn` | uWebSockets/src/WebSocketProtocol.h:511-556 | One turn of the loop either takes the reference's next step or leaves the session waiting inside the frame |
| `StreamSession.Session.CheckHeader` | uWebSockets/src/WebSocketProtocol.h:519-526 | A header is rejected exactly when it is malformed for what was negotiated, and accepting a compressed one is remembered |
| `StreamSession.Session.ReadLength` | uWebSockets/src/WebSocketProtocol.h:528-553 | The length, the header size and minimality are those of the header at the front of the buffer |
| `StreamSession.Session.TakeOpCode` | uWebSockets/src/WebSocketProtocol.h:266-296 | Rejects exactly the fragmentation errors of section 5.4; the two rejections on the opcode stack are unreachable (asserted) |
| `StreamSession.Session.ConsumeMessage` | uWebSockets/src/WebSocketProtocol.h:266-327 | A frame whose header passed is either applied whole, as the reference applies it, or entered with the payload so far |
| `StreamSession.Session.ConsumeWhole` | uWebSockets/src/WebSocketProtocol.h:303-321 | A frame that lies whole in the buffer gives the reference's step, and views handed out before stay intact |
| `StreamSession.Session.UnmaskWhole` | uWebSockets/src/WebSocketProtocol.h:303-305 | Moving the payload onto its own masking key leaves payload octet i equal to wire octet i xor mask octet i mod 4, later octets as they were, and all events conveying what they did |
| `StreamSession.Session.UnmaskStart` | uWebSockets/src/WebSocketProtocol.h:318-326 | The part of a payload that arrived is unmasked in place, and the mask is left rotated for the octets to come |
| `StreamSession.Session.ConsumeContinuation` | uWebSockets/src/WebSocketProtocol.h:329-362 | Continuing a frame in a later chunk takes the reference's step once the frame is complete, and otherwise holds all octets unmasked |
| `StreamSession.Session.HandleFragment` | uWebSockets/src/StreamWebSocket.cpp:372-523 | Delivering part of a frame, the last part included, has the effect the reference gives the whole frame once it is complete, and no visible effect before |
| `StreamSession.Session.HandleControl` | uWebSockets/src/StreamWebSocket.cpp:463-522 | Control payloads gather behind the message data and are answered when whole: a Pong, a Close in kind, or nothing |
| `StreamSession.Session.HandleClose` | uWebSockets/src/StreamWebSocket.cpp:464-480 | A peer's Close is dealt with as the reference deals with it: answered once and reported with its code and reason, or failed with 1002 when malformed |
| `StreamSession.Session.AppendFragment` | uWebSockets/src/StreamWebSocket.cpp:278-290 | Data is kept exactly when the message, with what the frame still announces, fits; otherwise the session fails with 1009 |
| `StreamSession.Session.DeliverMessage` | uWebSockets/src/StreamWebSocket.cpp:391-459 | A whole message is inflated, checked and handed out as the reference says, with the failure code 1007, 1009 or 1011 it says |
| `StreamSession.Session.InflateMessage` | uWebSockets/src/StreamWebSocket.cpp:126-187 | The loop returns all pieces joined, or the limit's failure as soon as they pass it, or the stream's |
| `StreamSession.Session.Fail` | uWebSockets/src/StreamWebSocket.cpp:360-370 | A failing session sends one Close, unless one was sent, and reports 1006 |
| `StreamSession.Session.CreateFrame` | uWebSockets/src/StreamWebSocket.cpp:569-595 | A data frame is made exactly when no closing has begun, the opcode is 1 or 2, text is valid and the compressor, if asked, answered; a client reads it as one whole frame with that opcode, that payload and the compression bit as it was used |
| `StreamSession.Session.CreateCloseFrame` | uWebSockets/src/StreamWebSocket.cpp:597-607 | A Close is made at most once, at any moment, even inside a frame being received, and leaves the session consistent |
| `StreamSession.Session.ParserInvariant` | uWebSockets/src/WebSocketProtocol.h:266-362 | Between frames the opcode stack is 0 exactly inside a fragmented message and else -1; inside a frame nothing is spilled and octets remain |
| `StreamSession.Session.SpillIsShort` | uWebSockets/src/WebSocketProtocol.h:511-559 | A spilled header is shorter than the header it starts, and at most 13 octets |
| `StreamSession.Session.BufferIsMessageThenTip` | uWebSockets/src/StreamWebSocket.cpp:390-521 | In every open session, a local Close sent or not, the reassembly buffer ends with exactly the octets that arrived of an unfinished control frame, at most 125, and what comes before them fits the limit; before a local Close that is exactly the data of the message so far |
| `ChunkIndependence.ChunksDoNotMatter` | uWebSockets/src/StreamWebSocket.cpp:525-560 | Any two ways of cutting the same octets into chunks give the same events and the same session |
| `ChunkIndependence.ByteByByte` | scripts/fuzz-websocket-parser.js:99-118 | Delivery octet by octet gives what any other delivery gives |
| `ChunkIndependence.DrainSplit` | uWebSockets/src/WebSocketProtocol.h:503-562 | Reading a string at once is reading any prefix and then the rest behind what the prefix left pending |
| `ChunkIndependence.FeedAllIsMeaning` | uWebSockets/src/StreamWebSocket.cpp:372-560 | For any chunks, the events are those of splitting all octets into frames and then applying the rules frame by frame, with the same failure at the first offending frame |
| `ChunkIndependence.DrainIsMeaning` | uWebSockets/src/WebSocketProtocol.h:503-562 | The same for the events and the final state of any session on any string |
| `CloseDiscipline.ClosesOnce` | uWebSockets/src/StreamWebSocket.cpp:360-607 | Over any calls in any order, after the Close frame come only Pongs and the report; the report is last and has a Close before it; so there is at most one of each, and no data or message after the Close |
| `CloseDiscipline.LifeObeys` | uWebSockets/src/StreamWebSocket.cpp:360-607 | The outputs of any calls follow the phases open, closing, ended, and leave the session in the phase reached |
| `ReassemblyBound.LifeBounded` | uWebSockets/src/StreamWebSocket.cpp:126-187 | Over any calls, every message handed out, inflated ones included, and the data of the message in progress stay within the payload limit |
| `ReassemblyBound.SessionBounded` | uWebSockets/src/StreamWebSocket.cpp:254-290 | At any moment in the life of a session, a local Close sent or not, the fragments it holds fit the limit, and so does every message that its next chunk gives rise to |
| `RoundTrip.MessageArrives` | uWebSockets/src/StreamWebSocket.cpp:372-523 | The frames of one message, under any masks, in any fragmentation, with Pings and Pongs between, give a Pong for every Ping and then the outcome of the joined message; what follows meets the session left behind |
| `RoundTrip.MessageRoundTrip` | scripts/fuzz-websocket-parser.js:45-67 | From a fresh session and for any chunks: exactly one message with exactly the payload, or 1007 for ill-formed text |
| `RoundTrip.LongMessageRefused` | uWebSockets/src/StreamWebSocket.cpp:278-290 | A message over the limit is refused with 1009 at some fragment, after the Pongs before it, and never delivered |
| `RoundTrip.SplitInvertsEncode` | uWebSockets/src/WebSocketProtocol.h:503-562 | Splitting an encoded list of frames, followed by anything, returns the frames and what follows |
| `RoundTrip.AcceptedFrameIsEncoding` | uWebSockets/src/WebSocketProtocol.h:511-556 | A frame the session accepts is, octet for octet, what a client writes for its contents: no second form of the length or of anything else is accepted |
| `RoundTrip.DataDroppedWhileLeaving` | uWebSockets/src/StreamWebSocket.cpp:386-388 | After a local Close, conforming data is dropped and Pings are answered, while at most one compressed message has begun |
| `RoundTrip.PeerCloseReported` | uWebSockets/src/StreamWebSocket.cpp:464-480 | After a local Close, the peer's Close is reported with its own code and reason if and only if at most one compressed message began before it; without compression, always |
| `RoundTrip.SecondCompressedMessageFails` | uWebSockets/src/StreamWebSocket.cpp:386-388 | A second compressed message after a local Close ends the session as if the peer had violated the protocol |
| `RoundTrip.TwoLateCompressedMessages` | uWebSockets/src/StreamWebSocket.cpp:386-388 | The smallest case of that: two one-octet compressed messages |
| `WireRules.HeaderIsRefused` | uWebSockets/src/WebSocketProtocol.h:503-562 | In numbers, for the first octets of any frame: refused with 1002 exactly for a missing mask, RSV2 or RSV3, a reserved opcode, a fragmented or long control frame, RSV1 where no compressed message may start, a length not in its shortest form, a continuation out of place; with 1009 exactly for a data frame over the limit; accepted otherwise |
| `WireRules.RefusalIsFinal` | uWebSockets/src/StreamWebSocket.cpp:360-370 | After a refused header the session is closed: one Close with that code, unless one was sent, the 1006 report, and nothing of what follows |
| `WireRules.CloseBodyIsGood` | uWebSockets/src/WebSocketProtocol.h:437-456 | A Close body is read as its code and reason exactly when it is a code that may travel, listed in full, followed by text; an empty one reads as 1005, any other as malformed |
| `WireRules.CloseOnTheWire` | uWebSockets/src/WebSocketProtocol.h:458-469 | A client reads a written Close as one whole frame with opcode 8 carrying the code, unless it is 0, 1005 or 1006, and the first 123 octets of the reason if they are text |
| `WireRules.PongOnTheWire` | uWebSockets/src/StreamWebSocket.cpp:481-485 | A client reads a written Pong as one whole frame with opcode 10 and that payload |
| `WireRules.CloseIsAnsweredInKind` | uWebSockets/src/StreamWebSocket.cpp:464-480 | A masked Close with a good body, whatever follows it, is answered by a Close that carries the peer's very payload, then reported with the peer's code and reason, and that is all |
| `WireRules.BadCloseIsRefused` | uWebSockets/src/StreamWebSocket.cpp:464-480 | A Close with a malformed body is answered with 1002 and reported as 1006 |
| `WireRules.PingIsAnswered` | uWebSockets/src/StreamWebSocket.cpp:481-485 | A Ping is answered, before and after a local Close, by a Pong with its payload, a Pong by nothing; both leave all that follows as it would have been |
| `WireRules.MessagesArrive` | uWebSockets/src/StreamWebSocket.cpp:391-459 | Any whole messages, compressed or not, come out in order, each inflated after the messages before it if contexts are taken over and afresh if not, up to the first that is over the limit (1009), corrupt or not text (1007) or that the inflater breaks on (1011) |
| `WireRules.ByeIsAnswered` | uWebSockets/src/StreamWebSocket.cpp:464-480 | A Close 1001 "bye" is answered 88 05 03 E9 62 79 65 under any key |
| `Utf8.IsValidUtf8` | uWebSockets/src/WebSocketProtocol.h:377-429 | True exactly for the strings of the grammar in section 4 of RFC 3629, whichever way ASCII is skipped |
| `Utf8.MultiOctet` | uWebSockets/src/WebSocketProtocol.h:406-425 | The length of the character at a lead octet, or 0 exactly when no text starts there; nothing is read past the end |
| `Utf8.SkipAsciiAvx2` | uWebSockets/src/WebSocketProtocol.h:114-132 | Stops at the first octet that is not ASCII, or at the end |
| `Utf8.SkipAsciiNeon` | uWebSockets/src/WebSocketProtocol.h:167-189 | Stops at the first octet that is not ASCII, or at the end |
| `Utf8.TextConcat` | uWebSockets/src/WebSocketProtocol.h:377-429 | A text followed by a string is a text exactly when the string is |
| `CodePoints.TextIsScalars` | uWebSockets/src/WebSocketProtocol.h:377-429 | A string is valid text exactly when it is the concatenation of the shortest encodings of code points up to U+10FFFF that are not surrogates |
| `Masking.UnmaskImprecise` | uWebSockets/src/WebSocketProtocol.h:192-219 | With the destination overlapping the source 4 octets below it, every octet is the source octet xor its mask octet, and nothing else changes, for the word, AVX2 and NEON forms |
| `Masking.UnmaskInplace` | uWebSockets/src/WebSocketProtocol.h:229-252 | The same in place |
| `Masking.RotateMask` | uWebSockets/src/WebSocketProtocol.h:221-227 | The mask turns by the offset |
| `Masking.UnmaskSplit` | uWebSockets/src/WebSocketProtocol.h:318-326 | Unmasking in two parts, the second with the mask rotated by the length of the first, is unmasking at once |
| `Masking.UnmaskInvolution` | uWebSockets/src/WebSocketProtocol.h:192-214 | Masking twice with one key gives the payload back |
| `Masking.UnmaskIsExclusiveOr` | uWebSockets/src/WebSocketProtocol.h:205-212 | Bit k of octet i of the unmasked payload is 1 exactly when bit k of that octet and of key octet i mod 4 differ |
| `Octets.XorIsExclusiveOr` | uWebSockets/src/WebSocketProtocol.h:244-250 | The operation used for masking is exclusive or: bit by bit the sum modulo 2, for all octets and all eight bits |
| `Framing.HeaderRoundTrip` | uWebSockets/src/WebSocketProtocol.h:528-553 | The header of an encoded frame is read back exactly, whatever follows, with payload and rest in their places |
| `Framing.ServerFrameIsRead` | uWebSockets/src/WebSocketProtocol.h:471-501 | A client that reads a server's frame by the numbers in its octets finds FIN set, no mask, RSV2 and RSV3 clear, the opcode, the compression bit, the length in its shortest form and exactly the payload |
| `Framing.FormatMessageHeader` | uWebSockets/src/WebSocketProtocol.h:471-491 | Writes the one server header for an opcode and length, and nothing behind it |
| `Framing.FrameHeader` | nodejs/src/native_transport.cpp:407-430 | Writes the same header as the protocol library |
| `Framing.SmallTextFrame` | nodejs/src/native_transport.cpp:543-608 | Writes the same frame into the request, exactly when it fits |
| `Closing.ParseInvertsFormat` | uWebSockets/src/WebSocketProtocol.h:437-469 | A valid code and a text reason are read back as written |
| `Closing.FormatInvertsParse` | uWebSockets/src/WebSocketProtocol.h:437-469 | A well-formed Close body is unchanged by reading and writing it: a Close is answered in kind |
| `Closing.FormatClosePayload` | uWebSockets/src/WebSocketProtocol.h:458-469 | Writes that body at the front of its buffer and nothing behind it |
| `WriteRequests.WriteRequest.Prepare` | nodejs/src/native_transport.cpp:623-640 | Succeeds exactly for a request with parts whose size can be counted; then all octets are still to be written, every pointer is good, and the cursor stands on the first octet |
| `WriteRequests.WriteRequest.Flatten` | nodejs/src/native_transport.cpp:642-674 | One part with the same octets, in the inline storage or outside it |
| `WriteRequests.WriteRequest.CoalescePrefix` | nodejs/src/native_transport.cpp:676-715 | The same octets, the first `prefixLength` of them in one part, wherever part boundaries were |
| `WriteRequests.WriteRequest.RemainingIovecs` | nodejs/src/native_transport.cpp:717-734 | The vectors are the first octets still to be written, in order, at most so many, starting with a nonempty one, and all octets when there is room |
| `WriteRequests.WriteRequest.AdvanceCursor` | nodejs/src/native_transport.cpp:777-791 | Exactly the first `length` of the remaining octets are gone, across parts and empty parts |
| `WriteRequests.WriteRequest.Advance` | nodejs/src/native_transport.cpp:755-758 | Sent octets are counted and gone from what remains |
| `WriteRequests.WriteRequest.StageTLS` | nodejs/src/native_transport.cpp:760-764 | Staged octets are gone from what remains but not counted as sent |
| `WriteRequests.WriteRequest.PrependOwned` | nodejs/src/native_transport.cpp:610-621 | A header comes before the part there is, which survives the move |
| `WriteRequests.WriteRequest.AddMessage` | nodejs/src/native_transport.cpp:1156-1191 | Whichever way it is put together, an uncompressed message becomes its one server frame |
| `NativeTransport.PrepareRequest` | nodejs/src/native_transport.cpp:1644-1658 | Fails exactly for no parts or too many octets; joining parts for TLS loses nothing |
| `NativeTransport.Transport.Submit` | nodejs/src/native_transport.cpp:1644-1689 | Exactly the submissions answered asynchronously are promised a callback; those answered synchronously are already delivered; which of the six answers is given is stated by its condition; refusals change nothing. Whatever callbacks do meanwhile, the invariant and the limit are kept, and unless a callback ran or the descriptor or TLS failed, the connection is closed by force only when what is left pending is over the limit |
| `NativeTransport.Transport.SubmitQueued` | nodejs/src/native_transport.cpp:1661-1672 | Behind others a request is only enqueued, its callback promised, as long as pending octets stay within the limit |
| `NativeTransport.Transport.FlushWrites` | nodejs/src/native_transport.cpp:1691-1717 | For any answers of descriptor, TLS library and callbacks: the invariant is kept, history only grows, and the flush ends with the transport closed, octets refused during this very flush, or everything sent, no ciphertext held back and no graceful end outstanding, so that nothing is forgotten |
| `NativeTransport.Transport.WriteTLS` | nodejs/src/native_transport.cpp:1736-1781 | Reports octets only when they are committed and no ciphertext is held anywhere, and none only when octets were refused; stages at most 60 KiB |
| `NativeTransport.Transport.FlushMemoryBIOOutput` | nodejs/src/native_transport.cpp:1441-1496 | Ciphertext reaches the wire in order, none lost or repeated; some stays behind only when the descriptor refused it; the queue is untouched unless the transport closes |
| `NativeTransport.Transport.CompleteHeadWrite` | nodejs/src/native_transport.cpp:1783-1786 | The first request leaves the queue for good, delivered; its callback is the next to start if one was promised, and none starts otherwise |
| `NativeTransport.Transport.CancelWrites` | nodejs/src/native_transport.cpp:1788-1795 | Empties queue and account; the callbacks started are exactly those promised to queued requests, once each, in order, with the given status, whatever they do |
| `NativeTransport.Transport.CloseNow` | nodejs/src/native_transport.cpp:1846-1866 | Closing is final: nothing is queued or pending afterwards, exactly the promised callbacks were started in order with the given status, and a graceful end requires an empty queue |
| `NativeTransport.Transport.TerminateForBackpressure` | nodejs/src/native_transport.cpp:1836-1844 | Called only over the limit; reports, and ends with the transport closed: by the callback of the report, or else with every request queued after the report failing, in order, for want of buffers |
| `NativeTransport.Transport.PerformTLSShutdown` | nodejs/src/native_transport.cpp:1599-1636 | With a graceful end requested and nothing queued, TCP closes now, and TLS closes unless octets were refused, in which case it will be tried again; a graceful close never happens with requests queued, and for TLS not before the closing alert was asked for and all ciphertext is out |
| `NativeTransport.Transport.MaybeFinishPeerClose` | nodejs/src/native_transport.cpp:1577-1597 | A peer's Close leads to a callback and a requested graceful end, whatever the callback does, and with nothing queued only refused octets keep the end waiting |
| `NativeTransport.Transport.ProcessMemoryBIO` | nodejs/src/native_transport.cpp:1404-1439 | Unless called from within itself, reads until nothing more can be decrypted. While the transport stays open, everything read was acted on in order, up to the peer's Close: replies were accepted one after the other, every message and Close made its callback, a Close asked for the graceful end; after the Close, reading on cannot queue anything; ciphertext stays behind only when refused |
| `NativeTransport.Transport.ReadTCP` | nodejs/src/native_transport.cpp:1349-1367 | One read of an unencrypted connection is made and what it finds acted on in the same way; the end of input or a failure closes the transport |
| `NativeTransport.Transport.Consume` | nodejs/src/native_transport.cpp:1511-1549 | While the transport stays open, the session's events are acted on in order, up to the first Close: replies accepted one after the other, a callback for each message and Close, the graceful end requested for a Close; a session that has closed changes nothing |
| `NativeTransport.Transport.Poll` | nodejs/src/native_transport.cpp:1317-1339 | A failure is reported and closes. A readable report is read and everything found is acted on. After a writable one, or a readable one TLS was waiting for, all that was to be sent is sent, including a graceful end, or octets were refused, or the transport is closed. Without a failure it is closed by force only for a reason. Afterwards it is at rest: history only grown, pending octets within the limit, nothing forgotten |
| `NativeTransport.Transport.Write` | nodejs/src/native_transport.cpp:1644-1689 | After any submission from outside the answer is as for `Submit`, and the transport is at rest and closed, unlimited, or within the limit |
| `NativeTransport.Transport.Activate` | nodejs/src/native_transport.cpp:1095-1115 | Succeeds exactly for an open, inactive transport that stays open; then it is active, what TLS had decrypted was acted on, and what was queued is sent or was refused |
| `NativeTransport.Transport.Feed` | nodejs/src/native_transport.cpp:1148-1151 | Input from before the transport took over is acted on like any other, and the transport is at rest again |
| `NativeTransport.Transport.Terminate` | nodejs/src/native_transport.cpp:1128-1130 | Closes by force, with every promised callback of a queued request made, in order, as canceled |
| `NativeTransport.Transport.SendOrFail` | nodejs/src/native_transport.cpp:1441-1496 | Output is sent, at most all of it, and a fault is reported and closes the transport |
| `QueuedRequests.Create` | nodejs/src/native_transport.cpp:1644-1658 | The request made of some parts implements the request that its submission enqueues |
| `QueuedRequests.SendVectors` | nodejs/src/native_transport.cpp:1719-1734 | A gathered write, limited in vectors and taken in part, puts exactly the first octets left on the wire and moves the cursor as the pipeline moves the first request |
| `QueuedRequests.Stage` | nodejs/src/native_transport.cpp:1745-1762 | What TLS takes of what is left of one part is exactly what the pipeline records as passed on, and the cursor moves accordingly |
| `QueuedRequests.Commit` | nodejs/src/native_transport.cpp:766-768 | Committing counts on the request what the pipeline counts |
| `QueuedRequests.CountsAgree` | nodejs/src/native_transport.cpp:746-772 | Remaining and unstaged octets, computed from counters, are what the cursor has before it |
| `WritePipeline.StreamConserved` | nodejs/src/native_transport.cpp:1691-1734 | Before closing, octets on the wire followed by what the queue still holds are the accepted stream; for TLS, wire, held ciphertext and library contents are all ciphertext; sent and pending octets add up |
| `WritePipeline.PromisesAreKept` | nodejs/src/native_transport.cpp:1783-1795 | When nothing is queued, the callbacks started are exactly those promised, each once, in order of submission |
| `WritePipeline.SuccessIsTrue` | nodejs/src/native_transport.cpp:1691-1717 | A success reported is of a request all of whose octets, or all of whose ciphertext, are on the wire, and stays so |
| `WritePipeline.FirstOwed` | nodejs/src/native_transport.cpp:1736-1781 | The cursor of the first request is what was sent plus what is committed, and never more is owed on it than is pending, so the clamps never bind |
| `WritePipeline.GracefulEndDrains` | nodejs/src/native_transport.cpp:1599-1636 | A graceful end comes after everything accepted, the Close reply included, is on the wire |
| `WritePipeline.SettledStays` | nodejs/src/native_transport.cpp:1836-1844 | The limit is kept by any activity from a state at rest |
| `WritePipeline.EnqueuedInv` | nodejs/src/native_transport.cpp:1797-1802 | Enqueuing keeps accounting, conservation and the order of promises |
| `WritePipeline.StagedInv` | nodejs/src/native_transport.cpp:1745-1762 | Staging keeps them, and marks how much ciphertext each octet needs |
| `WritePipeline.DrainedInv` | nodejs/src/native_transport.cpp:1441-1496 | Moving ciphertext outward, in any pieces, keeps them |
| `WritePipeline.FinishedInv` | nodejs/src/native_transport.cpp:1783-1786 | Completing the first request keeps them |
| `WritePipeline.GoneLater` | nodejs/src/native_transport.cpp:1846-1866 | Closing with everything canceled is a proper end of the history |
| `CacheLock.MutualExclusion` | scripts/build.js:156-210 | In every interleaving with timely verdicts, crashes included, at most one live attempt holds the lock |
| `CacheLock.MutualExclusionByAtomicRecovery` | scripts/build.js:137-154 | The same when every dead verdict directly follows the look at the lock |
| `CacheLock.VerdictBreaksUnlessTimely` | scripts/build.js:137-154 | In any state that keeps the invariant, two live holders can come about after a dead verdict, all later verdicts being timely, if and only if that verdict is untimely |
| `CacheLock.SeparateRecoveryCanFail` | scripts/build.js:138-140 | A run from the empty disk to two live holders, with check and probe as the separate steps they are |
| `CacheLock.LockIsWhole` | scripts/build.js:163-173 | In every interleaving the lock path is absent or names an owner, unless something without owner was there from the start, which stays as it is |
| `CacheLock.TombstoneStays` | scripts/build.js:141-146 | A tombstone is never changed or removed, by any run |
| `CacheLock.ReclaimHitsItsTarget` | scripts/build.js:144-153 | A reclaimer, however late, moves the dead owner's lock or nothing |
| `CacheLock.ReleaseRetiresItsOwn` | scripts/build.js:174-187 | A release retires its own token and leaves the path free; a second call changes nothing |
| `CacheLock.NothingIsLeft` | scripts/build.js:183-209 | In every interleaving, an attempt that is over, by release or by giving up, has left neither its prepared nor its retired directory behind |
| `CacheLock.FreeLockIsAcquired` | scripts/build.js:167-173 | From any reachable state with a free path, a new attempt of a living process can get the lock |
| `CacheLock.DeadOwnersLockIsFreed` | scripts/build.js:137-149 | From any reachable state where a dead attempt holds the path, a new attempt can free it, leaving the tombstone |
| `CacheLock.StepGuarded` | scripts/build.js:156-210 | Every step with a timely verdict keeps the invariant that the path names the one live holder |
| `CacheLock.StepSane` | scripts/build.js:156-210 | Every step keeps the directories well-formed |
| `ExtensionSyntax.ParsesExactlyTheGrammar` | uWebSockets/src/Extensions.cpp:47-164 | A string is accepted with certain offers if and only if the grammar writes it with that meaning |
| `ExtensionSyntax.PrintedOffersParse` | uWebSockets/src/Extensions.cpp:39-164 | Printing offers, quoting values where needed, and parsing returns them with names and token values in lower case |
| `ExtensionSyntax.TokensHaveNoSeparators` | uWebSockets/src/Extensions.cpp:23-38 | Token characters are exactly visible ASCII without the separators of RFC 2616 |
| `ExtensionSyntax.QuotableUnlessSpecial` | uWebSockets/src/Extensions.cpp:73-103 | Between quotes, all but control characters, the quote and the backslash stand for themselves, and so does a tab; all but control characters may be escaped |
| `ExtensionSyntax.HeaderIsRead` | uWebSockets/src/Extensions.cpp:58-163 | A header with spaces around everything, capitals and a quoted value with an escape, and the offers it means |
| `Extensions.ExtensionsParser.Parse` | uWebSockets/src/Extensions.cpp:126-163 | Terminates on every string, accepts exactly the grammar, and returns what the string means |
| `Extensions.ExtensionsParser.ReadQuotedString` | uWebSockets/src/Extensions.cpp:73-103 | Reads exactly one quoted string, with escapes resolved, and stops behind it |
| `Extensions.ExtensionsParser.ReadParameter` | uWebSockets/src/Extensions.cpp:105-121 | Reads exactly one parameter and stops behind it |
| `Extensions.ExtensionsParser.ReadToken` | uWebSockets/src/Extensions.cpp:58-71 | Reads the longest token and returns it in lower case |
| `Extensions.WindowBitsAreDecimal` | uWebSockets/src/Extensions.cpp:166-185 | A window value is accepted exactly as the decimal digits of a number from 8 to 15 |
| `Extensions.FourParameters` | uWebSockets/src/Extensions.cpp:187-224 | A parameter is acceptable exactly when it is one of the four of RFC 7692 with a value that fits: no value for the two takeover flags, the server's only where configured; 9 to 15 for the server's window; nothing or 8 to 15 for the client's |
| `Extensions.IsCompatibleOffer` | uWebSockets/src/Extensions.cpp:187-224 | True exactly when names are distinct and every parameter is acceptable; the window is the one asked for, or 15 |
| `Extensions.FindUsable` | uWebSockets/src/Extensions.cpp:262-278 | The offer found is usable and no earlier one is; none found means none is usable |
| `Extensions.ExtensionsNegotiator.ReadOffer` | uWebSockets/src/Extensions.cpp:251-286 | The first usable offer of a well-formed header is taken with its window; if there is none, every flag is cleared |
| `Extensions.ExtensionsNegotiator.GenerateOffer` | uWebSockets/src/Extensions.cpp:232-249 | The response string for the negotiated state |
| `Extensions.ResponseReparses` | uWebSockets/src/Extensions.cpp:232-249 | The response parses back to one offer with exactly the negotiated parameters |
| `Extensions.ResponseTells` | uWebSockets/src/Extensions.cpp:232-249 | Each flag is in the response exactly when negotiated, and the window, from 9 to 15, exactly as negotiated |
| `Extensions.RestrictionIsGranted` | uWebSockets/src/Extensions.cpp:187-286 | `server_no_context_takeover` asked for by the accepted offer is in the response, the window in the response is exactly the one that offer asks for, and `client_no_context_takeover` is there exactly as configured |
| `Extensions.FullResponse` | test/eiows.test.js:1412-1416 | The response with everything negotiated, spelled out |
| `Extensions.BrowserOfferIsTaken` | uWebSockets/src/Extensions.cpp:187-286 | The offer `permessage-deflate; client_max_window_bits` is taken, with no limit on the server's window |
| `Extensions.SecondChoiceIsTaken` | test/eiows.test.js:1418-1421 | Of `permessage-deflate; server_max_window_bits=8, permessage-deflate` the second offer is taken |

## Left out

- N-API, V8, backing stores and asynchronous resources: foreign calls; only "a callback may submit or terminate" is kept. Callbacks that throw are not modelled.
- The insides of zlib, OpenSSL, libuv, `send` and `recv`, and retries after an interrupted call: replaced by the answers described above. Poll interest (`updatePoll`) only decides when `Poll` is called.
- TLS context callback multiplexing, environment cleanup and object destruction.
- The legacy stack (WebSocket.cpp, Hub.cpp, Group.cpp and their sockets), which is not compiled into the addon.
- Downloading, verifying and building Node sources in scripts/build.js; lock timeouts and delays (an attempt may give up at any time it tries).
- Buffer capacity trimming, the request free list, SIMD intrinsics beyond the meaning of their blocked loops.
- Byte order and width of C++ fields: counters are unbounded except where the code checks them against 2^32 - 1 or the largest size_t.
- The intrusive list of requests is a sequence, and the transport queues each request as a value (its remaining octets and counters) instead of the object with parts and cursor that `QueuedRequests` proves to implement it. A request's octets are taken not to change after submission.
- The lock is a transition system rather than a retry loop, since what matters is how the loops of several processes interleave; the no-op removal of a prepared directory already published is not a step.
- Option flags of the negotiator are a record instead of bits in an integer; characters of a header are any characters, of which the code sees those below U+0100.
