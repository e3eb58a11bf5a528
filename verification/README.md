# Verified model of the spnav-onshape bridge

The bridge is a single-process daemon between a 3D mouse and a browser page. Bytes arrive over TLS, become
an HTTP request and then WebSocket frames, frames become text messages, messages drive a per-connection RPC
controller, the controller computes camera matrices, and what it sends is framed, queued and written back.
This project models that path in Dafny, piece by piece and end to end:

- `Bytes`, `WsFrame`, `WsCodec`, `WsLaws`: the frame codec. Values and verdicts in `WsFrame`, the in-place decoder
  and the encoder on arrays in `WsCodec`, the layout byte by byte in `WsLaws`.
- `Http`, `HttpText`: the lenient request parser, as a function of the received bytes and as the line loop on
  the buffer; and what it reads from well-formed requests.
- `Session`, `Assembly`: a connection as a function of the bytes received (parse loop, grammar switch, bounded
  input buffer, reassembly), and what follows about slicing, capacity and fragments.
- `Tls`, `Connection`, `EndToEnd`: one connection slot with its three buffers as a mutable object, driven by a
  TLS library that may answer anything; and what whole connections guarantee.
- `EventLoop`: the table of eight slots and the poll loop.
- `Matrix`, `GramSchmidt`, `Camera`, `CameraLaws`, `MatrixCode`: the camera arithmetic, algebra first, then what
  each device axis does to a view, then the loops over flat arrays.
- `Wamp`, `Protocol`, `ControllerCode`, `ControllerRuns`: the RPC controller as a state machine, as the object with
  fields, and whole runs of the object.
- `Runs`, `RunLaws`, `RunSafety`, `GateLaws`, `Writes`: what holds of the controller over every finite run.

Code that works on state is modelled as classes and methods on arrays, each proved to act as a function
(`Session.Process`, `Protocol.Next`, `Camera.NewAffine`, ...) whose properties are proved as lemmas. What the
outside world answers, the TLS library, poll, the clock, the device, is recorded as it is answered, in ghost fields
(`Client.calls`, `Tape`, `Server.trace`), and the contracts of the loop are stated over that record.

Assumptions, stated where they are used: real arithmetic is exact (`GramSchmidt.Exact`: the square root is the
square root, cosine and sine lie on the unit circle, and are 1 and 0 at 0); call ids are fresh
(`RunSafety.FreshIds`); the clock and everything the environment decides are arbitrary inputs.

Where the code is laxer than RFC 6455 the model follows the code: a stray continuation is dropped, a fresh data
frame in mid-message restarts assembly, lengths need not be minimal, payloads are not checked as UTF-8, and a
close frame is not answered. Where code and comments differ the code is followed: `controller.h` lists
handshake, subscription and recognition as the conditions for a device event, the code also asks for focus; the
comment on `gram_schmidt3` calls it classic Gram-Schmidt, but the third row is reduced against the second after
it was reduced against the first.

## Model

| member | source | states |
|---|---|---|
| `WsFrame.VerdictStable` | src/ws.c:89-158 | Any answer but "incomplete" on a prefix is the answer on every extension: the frame decoder can be asked again with more bytes. |
| `WsFrame.HeaderStable` | src/ws.c:99-138 | The same for the part before the masking key alone, so a size limit read off the header is final. |
| `WsFrame.ProperPrefixIncomplete` | src/ws.c:139-157 | Every proper prefix of a valid frame is answered with 0: a frame is recognised at exactly its last byte. |
| `WsFrame.CompleteBounds` | src/ws.c:132-157 | A frame handed out took at least 6 bytes, none beyond those received; control frames are final and carry at most 125 bytes. |
| `WsFrame.DecodesClientFrame` | src/ws.c:89-158 | Masked round trip (sections 5.2 and 5.3 of RFC 6455): for every FIN bit, supported opcode, key, length form (minimal or not) and payload within the limits, and any bytes behind it, decoding takes exactly that frame and gives back its payload. |
| `WsFrame.CompleteIsClientFrame` | src/ws.c:89-158 | The converse: whatever the decoder completes is the encoding of some legal masked client frame, with the form and key it returns. |
| `WsFrame.ReceivesServerFrame` | src/ws.c:48-87 | Server frames delimit themselves: a receiver written from section 5.2 of RFC 6455 gets back FIN, opcode and payload, in all three length forms, and stops at the frame's end. |
| `WsFrame.ReceivesServerStream` | src/ws.c:48-87 | That receiver recovers from any concatenation of server frames exactly the frames, in order. |
| `WsFrame.ReceivesPrefix` | src/ws.c:48-87 | From any prefix of such a stream it recovers a prefix of the frames: no bytes in flight are ever taken for another frame. |
| `Bytes.XorBitsDiffer` | src/ws.c:150-152 | The masking operation on bytes, written as arithmetic, sets a bit exactly where its operands differ. |
| `WsCodec.ReadHeader` | src/ws.c:89-138 | The header half of the decoder computes the header verdict of the bytes received, error and short cases included. |
| `WsCodec.Unmask` | src/ws.c:150-152 | The XOR loop masks exactly the given stretch of the buffer and nothing outside it. |
| `WsCodec.DecodeFrame` | src/ws.c:89-158 | In place: result code, out-parameters and buffer agree with the verdict on the bytes received; 0 and -1 leave the buffer as it was, a complete frame changes only its own payload. |
| `WsCodec.EncodeFrame` | src/ws.c:48-87 | Writes exactly the server frame to the front of the buffer, or answers -1 and writes nothing, which happens if and only if header and payload do not fit the buffer or an int. |
| `WsCodec.TwoWords` | src/ws.c:75-81 | Writing the two 32-bit halves of the length in network order writes the 64-bit length in network order. |
| `WsLaws.RefusesExactly` | src/ws.c:99-138 | The decoder refuses exactly these bytes, written out: a reserved bit or no mask bit; an opcode other than 0x0, 0x1, 0x2, 0x8, 0x9, 0xA; a control frame that is a fragment or announces more than 125 bytes; a length that with its header exceeds 2147483647. |
| `WsLaws.CompletesExactly` | src/ws.c:89-158 | And it hands out a frame exactly when the first bytes are that frame as a whole: FIN and opcode are those of the first byte, the length is the 7-bit, 16-bit or 64-bit number written out, and byte i of the payload is byte i behind the key, exclusive-or key byte i mod 4. |
| `WsLaws.WritesExactly` | src/ws.c:48-87 | Every byte of a frame the encoder writes: FIN and opcode, no mask bit, the shortest of the three forms of the length with its bytes written out, the payload. |
| `WsLaws.HelloExamples` | src/ws.c:48-158 | The unfragmented masked text message of section 5.7 of RFC 6455, the same as a ping, the unmasked text and the pong are decoded and encoded as printed there. |
| `Http.VerdictFromBlock` | src/http.c:25-34 | The parser answers 0 exactly until the first CRLFCRLF is there; from then on its answer depends only on the bytes up to it, and a parsed request consumes exactly those. |
| `Http.VerdictStable` | src/http.c:50-123 | A non-zero answer survives any further bytes. |
| `Http.UpgradeHeaders` | src/http.c:105-121 | The two upgrade flags are set exactly when some header line, wherever it stands, says `Upgrade: websocket`, respectively is a Connection line mentioning "upgrade". |
| `HttpText.ReadsRequest` | src/http.c:50-123 | Whole requests: from a request line and header lines, whatever comes behind the blank line, exactly the block is consumed; the text fields are the value of the last line `name: value` of that name in any case of letters, blanks behind the colon dropped, cut to 255 bytes; the flags say whether some Upgrade line says websocket and some Connection line mentions upgrade. |
| `HttpText.ValueIsHeader` | src/http.c:88-103 | What counts as a header line of a name: it ends at the first colon and is spelled the same up to the case of the letters A to Z; spaces and tabs behind the colon do not belong to the value. |
| `HttpText.RefusesOneWord` | src/http.c:80-86 | A first line is refused exactly when it holds nothing but white space and one word of at most 7 bytes. |
| `HttpText.CleansLine` | src/http.c:66-78 | What is kept of any line: at most 1023 bytes, up to the first zero byte, without the blanks and line ends that come last. |
| `HttpText.LengthIs` | src/http.c:114-117 | Any Content-Length value: white space, perhaps a sign, digits; negative or missing digits count as 0, and nothing exceeds 9223372036854775807. |
| `HttpText.SilentUntilBlankLine` | src/http.c:25-34 | The parser answers 0 exactly as long as the bytes 13, 10, 13, 10 have not come in a row, and a request ends behind the first of them. |
| `HttpText.ParsesBlock` | src/http.c:50-123 | Round trip for request blocks: lines that survive the line buffer, each ended by CRLF, then CRLF and anything, are parsed as exactly those lines, and exactly the block is consumed. |
| `HttpText.PlainIsClean` | src/http.c:36-42 | Cutting and stripping give back any line without terminators inside or blanks at its end, up to the full 1023 bytes. |
| `HttpText.ReadsRequestLine` | src/http.c:80-86 | A method of up to 7 and a path of up to 255 characters are read back from the request line, whatever follows. |
| `HttpText.LastHeaderWins` | src/http.c:88-119 | The last Origin, key and length lines decide those fields, cut to their size; no header line touches method or path. |
| `HttpText.ReadsLength` | src/http.c:114-117 | A length written in decimal is read back, capped at the largest long, whatever non-digit follows. |
| `Http.FindHeaderEnd` | src/http.c:25-34 | The search loop finds the first CRLFCRLF in the bytes received, or none. |
| `Http.FindLineEnd` | src/http.c:66-69 | Finds the first LF at or after the line's start. |
| `Http.ReadLine` | src/http.c:66-78 | One turn of the line loop takes exactly the next line of the block, cut and stripped. |
| `Http.ParseRequest` | src/http.c:50-123 | The line loop over the buffer computes the request, the consumed length, 0 or -1 that the verdict on the received bytes prescribes. |
| `Session.ProcessSettles` | src/main.c:597-707 | The parse loop ends with nothing complete left in the input, and never makes the input longer. |
| `Session.StepAppend` | src/main.c:597-707 | What one turn of the loop takes off the input does not depend on what has arrived behind it. |
| `Session.ProcessAppend` | src/main.c:597-707 | Bytes that arrive after some have been processed do what they would have done at once, across the switch from HTTP to WebSocket. |
| `Session.DeliverIsByteByByte` | src/main.c:965-989 | Any slicing into reads that fit the free space acts as one byte per read does, buffer-full failure included, and keeps the input settled and within the buffer. |
| `Session.ChunkingIndependence` | src/main.c:965-989 | Chunking independence: two slicings of the same bytes into reads that fit give the same phase (buffer-full failure included), the same requests, messages and pongs in the same order, the same unfinished message and, while open, the same unread bytes. |
| `Session.DeliverOrderly` | src/main.c:456-467 | Over every run of reads at most one request is performed, before everything else. The WebSocket phase is entered, and messages and pongs come, only if the origin check allowed that request's origin, both upgrade flags are set and the key has 1 to 219 bytes; behind a request that lacks any of these the connection is closing and has done nothing else. |
| `Session.DeliverIsProcess` | src/main.c:966-970 | As long as the buffer never overflows, the bounded buffer did what an unbounded one would have done. |
| `Session.DeliverOneMore` | src/main.c:985-986 | One more read that fits continues the run: the step the read loop's proof rests on. |
| `Assembly.FullMeansOversized` | src/main.c:52-56 | Capacity: in the WebSocket phase all 1048590 bytes of the buffer are taken after processing only if the first pending frame declares more than 1048576 payload bytes. |
| `Assembly.OversizedNeverCompletes` | src/main.c:966-970 | And such a frame never completes within the buffer, whatever follows. |
| `Assembly.LimitHitsContinuationsOnly` | src/main.c:647-653 | A completed frame carries at most 1048576 bytes, so the size-limit close happens exactly for a continuation (0x0) that takes a text message (0x1) over that. |
| `Assembly.PrefixLeavesRoom` | src/main.c:52-56 | Any received prefix of a stream of frames within the limit leaves room in the input buffer after processing. |
| `Assembly.FramesArriveWhole` | src/main.c:597-707 | Frames within the limit, in any encoding and any slicing, act exactly as the list of frames does: buffer sizes never reject a legal frame. |
| `Assembly.UpgradeThenFrames` | src/main.c:597-707 | From the first byte: an accepted upgrade request followed by frames within the limit, in any encoding and any slicing that may cut across the switch of grammars, is that one request and then the list of frames. |
| `Assembly.RefusedRequest` | src/main.c:456-467 | From the first byte: a complete request whose origin is not allowed, or that lacks an upgrade flag or a key of 1 to 219 bytes, ends the connection with that request performed and nothing else, whatever follows it and however it is sliced. |
| `Assembly.UnusableCloses` | src/main.c:600-612 | A header block that is no request, or announces a body of more than 8192 bytes, ends the connection with nothing performed, whatever follows it and however it is sliced. |
| `WsLaws.BadFrameCloses` | src/main.c:618-632 | Behind an upgrade and any legal frames, bytes that no frame may begin with close the connection: the frames before have acted, and whatever follows is dead, in any slicing. |
| `WsLaws.ControlFrames` | src/main.c:680-695 | One control frame: 0x8 closes, 0x9 is answered with its payload, 0xA has no effect. |
| `WsLaws.CloseEnds` | src/main.c:688-695 | In any list of frames nothing behind a close frame is looked at and nothing before it is undone. |
| `Assembly.WholeMessage` | src/main.c:637-679 | A text message of at most 1 MiB, in any fragments, is handed over whole, whatever was being assembled before. |
| `Assembly.ControlFramesInterleave` | src/main.c:636-686 | Deleting all pings and pongs from any frame list changes neither what is delivered nor where the connection ends (section 5.4 of RFC 6455). |
| `Assembly.MessageReachesController` | src/main.c:636-686 | End to end from bytes: such a message, with any fragments, length forms, keys, interleaved pings and slicing into reads, reaches the controller whole and exactly once, and its verdict decides the phase. |
| `Assembly.MessageAfterUpgrade` | src/main.c:597-707 | The same for a message behind the upgrade request on a fresh connection. |
| `Assembly.ManyMessages` | src/main.c:637-679 | A list of text messages within the limit, in any fragments, is handed over up to the first one rejected, which closes the connection. |
| `Assembly.PingsGetPongs` | src/main.c:680-686 | Every ping acted on is answered with its own payload, in order, and nothing else is; all are acted on while the connection stays open. |
| `Assembly.ConversationReachesController` | src/main.c:597-707 | End to end from the first byte: behind an accepted upgrade any list of such messages, with any fragments, encodings, interleaved pings and slicing, reaches the controller up to the first rejected, the pings taken are answered in order, and the phase says whether all were accepted. |
| `Assembly.ReassemblyIsCorrect` | src/main.c:637-679 | The one buffer, one length and one opcode refine a description over the frame list, at every frame including the one that closes the connection: a message is handed over at frame n exactly when some text frame j started it and n finishes it, and it is the data of frames j to n; over the limit nothing is handed over and the connection closes; afterwards nothing happens. Stray continuations, restarted and binary messages hand over nothing. |
| `Assembly.AssemblerStep` | src/main.c:637-679 | One frame within the limit, whatever the controller's verdict on the message it finishes, hands over what the description says and keeps the assembler invariant. |
| `Assembly.AssemblerInvariant` | src/main.c:637-679 | After any frames on a connection still open the buffer holds the data since the start of the message in progress, or nothing when none is. |
| `Assembly.OverLimitCloses` | src/main.c:647-653 | A frame over the limit closes the connection and is neither delivered nor answered. |
| `Tls.DisciplinedSnoc` | src/main.c:399-423 | A call that respects the library's retry rule extends a history that does. |
| `Tls.ReturnedSnoc` | src/main.c:973-985 | A call adds to the bytes read exactly what a successful read returned, and nothing otherwise. |
| `Connection.AcceptsOutput` | src/main.c:384-397 | Queueing keeps the books: written plus queued is what was accepted, and the prefix offered to an unfinished write is untouched. |
| `Connection.AfterWrite` | src/main.c:400-423 | Whatever a write returns, partial progress included, written plus queued stays what was accepted, the retry rule is kept, and a WANT answer obliges to offer the same bytes again. |
| `Connection.AfterRead` | src/main.c:973-984 | A read keeps the books and the retry rule; only WANT_WRITE leaves an obligation. |
| `Connection.Client.QueueOutput` | src/main.c:384-397 | All or nothing: the data is appended behind the queue, or does not fit and the connection fails; a pending write's bytes and length do not change; the write clock starts only on an empty queue. |
| `Connection.Client.Append` | src/main.c:395 | The copy puts the data behind the queued bytes and leaves those alone. |
| `Connection.Client.Consume` | src/main.c:409-410 | The memmove leaves exactly the unwritten rest at the front. |
| `Connection.Client.FlushOutput` | src/main.c:400-423 | One write of the whole queue, or the same bytes as the unfinished write, over a nondeterministic library result; FIFO and retry rule hold afterwards, WANT answers set the event to wait for, and progress restarts the write clock. |
| `Connection.Client.Offer` | src/main.c:406-407 | The library is called with the pending prefix of the queue, and the books and the obligation are those of its answer. |
| `Connection.Client.ClientSend` | src/main.c:425-435 | A controller message is queued as one text frame; the connection fails exactly when the frame is larger than 65536 bytes or than what is left of the queue's 131072, and then nothing of it is queued. |
| `Connection.Client.SendPong` | src/main.c:680-686 | A ping's payload is queued as one pong frame; the connection fails exactly when that does not fit the queue. |
| `Connection.Client.Compact` | src/main.c:700-701 | The memmove takes exactly the consumed bytes off the input. |
| `Connection.Client.CopyToMessage` | src/main.c:654-655 | The payload is appended to the message buffer, in bounds. |
| `Connection.Client.Upgrade` | src/main.c:469-490 | An accepted upgrade queues the 101 response and then the controller's greeting, and switches the grammar. |
| `Connection.Client.HandleRequest` | src/main.c:564-593 | One HTTP request: if its origin is allowed, both upgrade flags are set and the key has 1 to 219 bytes, the controller is created, the 101 response and the greeting are queued, and frames follow; otherwise there is no controller, the response is queued and the connection is closing. Phase, record and answers are those of the byte-stream machine. |
| `Connection.Client.HandMessage` | src/main.c:657-673 | The assembled bytes reach the controller as one message; its replies are queued in order and a violation closes. |
| `Connection.Client.FinishMessage` | src/main.c:657-678 | The end of a message hands it over if it is text, and resets the assembler. |
| `Connection.Client.HandleData` | src/main.c:637-679 | Text, binary and continuation frames on the real buffers act as the byte-stream machine's assembler. |
| `Connection.Client.HandleFrame` | src/main.c:636-698 | The same for every opcode. |
| `Connection.Client.ProcessRequest` | src/main.c:600-617 | The HTTP arm performs exactly the machine's step, or waits. |
| `Connection.Client.TakeRequest` | src/main.c:610-616 | The request's header block and body, and nothing else, leave the buffer. |
| `Connection.Client.ProcessFrame` | src/main.c:618-703 | The WebSocket arm performs exactly the machine's step, or waits, with unmasking and compaction in place. |
| `Connection.Client.TakeFrame` | src/main.c:636-703 | The decoded frame has its effect and leaves the buffer, unless it closes the connection. |
| `Connection.Client.ProcessClientBuffer` | src/main.c:597-707 | The loop on mutable buffers ends in exactly the state of the byte-stream machine, and unless the connection fails the queue has been given the answers to all its actions, in order. |
| `Connection.AnswersSplit` | src/main.c:597-707 | The answers to a run of actions are those to its first part followed by those to the rest. |
| `Connection.AnsweredPongs` | src/main.c:680-686 | Unless the connection fails, answering all actions in order keeps the queued pongs equal to the pings taken. |
| `Connection.TextsInBetween` | src/main.c:425-435 | Texts sent on device events in between do not disturb that. |
| `Connection.Client.TakeIn` | src/main.c:985-986 | After each successful read the connection is where the byte-stream machine is after all reads so far and exactly the bytes that this one returned. |
| `Connection.Client.Fill` | src/main.c:973-985 | The bytes read end up behind the unread ones, in bounds. |
| `Connection.Client.Read` | src/main.c:971-984 | One read, never while a write is pending; each of its outcomes sets the wait mark accordingly or fails the connection. |
| `Connection.Client.Issue` | src/main.c:971-973 | The library is asked for as many bytes as there is room, and the books and the obligation are those of its answer. |
| `Connection.Client.ReadOnce` | src/main.c:965-989 | One turn of the read loop: a full buffer fails the connection without a library call; otherwise exactly one read is made, and if it returned data and the connection goes on, the library is asked whether more is decrypted. |
| `Connection.Client.ReadSome` | src/main.c:971-989 | That read: what it returned, no other bytes, is taken in, and its failure is the only one noted. |
| `Connection.Client.ReadRound` | src/main.c:965-989 | One more round of reading carries the account of the reads and answers so far one entry further. |
| `Connection.Client.ReadLoop` | src/main.c:964-989 | All turns: reads only, at most 16, each but the first behind data and the answer that more is decrypted; none if the buffer is full and at least one if it is not. While the connection goes on they end only with a read without data, when nothing is left decrypted, or after 16; what they returned is taken in and answered in order. |
| `Connection.Client.Flush` | src/main.c:958-960 | The loop's write keeps the whole connection valid and leaves the marks of its result; it can fail only with the write still pending. |
| `Connection.Client.Exchange` | src/main.c:957-990 | The data calls of a turn: a write exactly when output is queued, no read waits to write, and the events allow it, and first; then the reads, none while a write is unfinished or when closing or full, and otherwise exactly when the events ask for them or the library has decrypted data left. |
| `Connection.Client.GiveOutput` | src/main.c:958-960 | The output part writes exactly when it is due, and leaves a write pending exactly when that one, or an earlier one, is unfinished. |
| `Connection.Client.TakeInput` | src/main.c:961-989 | The input part only reads: not at all while a write is pending; otherwise exactly when the events ask for it or, asked because they do not, the library has decrypted data left, and there is room. |
| `Connection.Client.CheckTime` | src/main.c:935-941 | A connection is given up exactly when it hung up, spent ten seconds in handshake and request, or had output queued that did not move for ten seconds. |
| `Connection.Client.Act` | src/main.c:933-990 | A whole turn but its end: nothing for a connection that hung up, failed or is overdue, a handshake step exactly when the socket is as the last one wants it, data calls only once the handshake is complete; and the connection is given up for these reasons and no others, apart from a full input buffer. |
| `Connection.Client.ContinueHandshake` | src/main.c:943-955 | A completed handshake, and nothing else, enters the HTTP phase; a WANT answer sets what is waited for, any other fails the connection. |
| `Connection.Client.Service` | src/main.c:930-994 | A connection's turn: all of that, on record with the library's answers, also when the turn ends with the slot free. The slot is freed exactly when the connection has failed, or is closing with nothing left to write; it fails only when the turn gives it up, its input buffer is full or an answer did not fit. A live connection obeys the retry rule, waits for something, and if still in handshake or HTTP was accepted less than ten seconds ago. |
| `Connection.Client.CloseClient` | src/main.c:359-375 | A closed slot has all fields and all three buffers zeroed and is ready for reuse; how the connection stood is on record. |
| `Connection.Client.Open` | src/main.c:892-910 | A new connection starts in the handshake, its clock at the time of acceptance, with nothing read, written or pending; its slot is free again exactly when the library had no TLS object for it. |
| `Connection.Client.DeviceEvent` | src/main.c:917-923 | The controller is given exactly this event, and what it sends on it is queued in order without disturbing input or a pending write. |
| `Connection.Client.WaitsForSomething` | src/main.c:864-873 | A valid, unfailed connection (with output left if closing) never has an empty interest mask. |
| `Connection.Client.AsksForUnfinished` | src/main.c:864-873 | Poll is asked for exactly the event that an unfinished write, or a read waiting to write, needs, and otherwise for input unless closing and for output if any is queued. |
| `Connection.Client.NoIdleWakeup` | src/main.c:864-990 | No busy loop: when something happens that the connection asked poll for, its turn makes a call of the library, unless its input buffer is full. |
| `Connection.Client.constructor` | src/main.c:82 | Every slot starts free and ready. |
| `EndToEnd.SlicingDoesNotMatter` | src/main.c:965-989 | Two live connection objects whose library reads have returned the same bytes, however sliced and interleaved with writes and device events, agree on phase, actions, messages heard, unfinished message and unread bytes. |
| `EndToEnd.OneRequestOnly` | src/main.c:456-467 | Of every live connection object: if it speaks WebSocket, has a controller or has heard a message, its one request came from an allowed origin, with both upgrade flags and a key of 1 to 219 bytes; behind a request that lacks any of these it is closing, without controller, having done nothing else. |
| `EndToEnd.RequestTextDecides` | src/main.c:456-617 | From the text of a request to the controller: a connection whose first bytes are a request line and header lines without a body performs the request they spell out, and has a controller exactly when the origin in its last Origin line is allowed, some Upgrade line says websocket, some Connection line mentions upgrade, and the last key has 1 to 219 bytes. |
| `EndToEnd.RefusedConnection` | src/main.c:456-467 | A live connection object whose reads begin with a complete request that may not upgrade is closing, has no controller and has performed that request only, whatever else its reads returned. |
| `EndToEnd.UpgradedConnection` | src/main.c:597-707 | One whose reads are an accepted upgrade and frames within the limit is where the list of frames leads, and has a controller. |
| `EndToEnd.FullBufferIsOversizedFrame` | src/main.c:966-970 | On the real buffer: it is full in the WebSocket phase only behind a header declaring more than 1048576 bytes. |
| `EndToEnd.FullBufferOverflows` | src/main.c:966-970 | The buffer of an open connection is full exactly when the byte-stream machine overflows on the next read, whatever it would bring. |
| `EndToEnd.OversizedFrameFillsBuffer` | src/main.c:966-970 | The converse: once the first unread frame declares that much, whatever arrives only fills the buffer, and nothing is taken off it again. |
| `EndToEnd.UpgradeBytes` | src/main.c:425-435 | After an upgrade everything accepted for output is the response followed by a stream of sendable frames. |
| `EndToEnd.PeerReadsFrames` | src/main.c:384-435 | End-to-end output: bytes written plus queue are that response and stream; what the peer has so far parses into the first of the frames queued, and into all of them once the queue is empty. |
| `EndToEnd.PeerGetsItsAnswers` | src/main.c:425-435 | Once the queue of a live upgraded connection is empty, the pongs its peer parses from the bytes written are the payloads of the pings taken from it, and the texts are those given to the controller's send callback, one each and in order. |
| `EndToEnd.ControllerGivesVerdict` | src/main.c:669-672 | The verdict the connection acts on is the controller's own on the messages heard, whatever events, replies' timing, clock and ids came in between. |
| `EventLoop.Server.PollSet` | src/main.c:848-876 | The poll arrays stay in bounds and list the listener, the device and then exactly the slots in use, in order, each with its connection's interest. |
| `EventLoop.Server.AsksForSomething` | src/main.c:864-878 | poll is never asked about a connection with an empty interest mask. |
| `EventLoop.Server.FindFreeSlot` | src/main.c:709-717 | The first free slot, or none if all are in use. |
| `EventLoop.Server.Accept` | src/main.c:886-912 | With a socket accepted, exactly the first free slot holds a new connection, at the time the clock says, or is given up because the library had no TLS object for it; without one, or with no slot free, nothing changes. |
| `EventLoop.Server.DeviceEvents` | src/main.c:914-929 | Each of the events that the device had is given, in order, to every slot with a controller, and what that sends is queued there; nothing at all changes in the other slots, every polled connection stays valid and in its slot, and no library call is made. |
| `EventLoop.GaveMore` | src/main.c:914-929 | One more event given to every controller extends the account of events given. |
| `EventLoop.Server.ServeOne` | src/main.c:930-994 | Serving one polled connection does with it what its events ask for, leaves all others as they were, and its own slot ready for the next poll. |
| `EventLoop.ServedMore` | src/main.c:930-994 | One more turn leaves the account of the earlier turns and of all other slots as it was. |
| `EventLoop.Server.ServeNext` | src/main.c:930-994 | The turn of one entry of the poll set carries that account one entry further. |
| `EventLoop.Server.ServeAll` | src/main.c:930-994 | After the loop every slot is ready again, and for each k the k-th polled connection had the turn that the k-th event record asks for, from the state it was polled in: handshake step, write, reads and hang-up alike; the other slots are as they were, and the clock was read once for each turn. |
| `EventLoop.Server.Turn` | src/main.c:886-995 | Everything behind poll: if the listener is readable and a socket came, the first free slot takes it or gives it up; if the device is readable, every slot with a controller is given each of its events; then, unless the device is lost, every polled slot has its turn on its own event record, from where those two left it, and the other slots stand. The clock, the socket and the device were asked exactly that. |
| `EventLoop.Server.Iterate` | src/main.c:838-995 | One iteration: poll is asked about listener, device and exactly the used slots with their interests; on exactly what it reported, and nothing else, arrivals and turns follow as stated for a turn; all eight slots are ready for the next poll, and a slot keeps its connection unless closed. |
| `EventLoop.Server.Run` | src/main.c:838-999 | Any number of iterations ends with every slot closed. |
| `EventLoop.Server.constructor` | src/main.c:82 | Eight distinct slots with disjoint buffers, all free. |
| `Matrix.DetMul` | src/mat4.c:51-66 | The determinant of a product is the product of the determinants. |
| `Matrix.RightInverseIsLeft` | src/mat4.c:51-79 | A right inverse is a left inverse, so orthonormal rows mean orthonormal columns. |
| `Matrix.TransposeOrthonormal` | src/mat4.c:68-79 | The transpose of an orthonormal matrix is orthonormal and its inverse. |
| `Matrix.Isometry` | src/mat4.c:51-66 | An orthonormal matrix keeps inner products. |
| `GramSchmidt.OrthonormalIffNonDegenerate` | src/mat4.c:86-117 | The result is orthonormal if and only if every row stays longer than the 1e-8 threshold on the way. |
| `GramSchmidt.Factors` | src/mat4.c:101-117 | M = L * Q with L lower triangular and positive on the diagonal. |
| `GramSchmidt.RecoversFactors` | src/mat4.c:101-117 | That factorization is unique: whatever orthonormal Q and lower-triangular L (diagonal above the threshold) one multiplies, Q and L come out. |
| `GramSchmidt.KeepsOrientation` | src/mat4.c:101-117 | The sign of the determinant survives; its size is the product of the three row lengths. |
| `GramSchmidt.FixesOrthonormal` | src/mat4.c:101-117 | An orthonormal matrix is left unchanged. |
| `GramSchmidt.Idempotent` | src/mat4.c:101-117 | Applying it twice is applying it once. |
| `MatrixCode.Mat4Mul` | src/mat4.c:34-49 | The triple loop computes the matrix product even when the output is one of the inputs. |
| `MatrixCode.Mat3Mul` | src/mat4.c:51-66 | The same for 3x3 blocks, against the row-vector product. |
| `MatrixCode.Mat3Transpose` | src/mat4.c:68-79 | The loop transposes, aliasing included. |
| `MatrixCode.VNormalize` | src/mat4.c:86-94 | In place: unit length above the threshold, unchanged below it, other rows untouched. |
| `MatrixCode.GramSchmidt3` | src/mat4.c:101-117 | The in-place row operations compute the three orthonormalised rows. |
| `MatrixCode.ExtractOrthonormalRotation` | src/mat4.c:119-130 | Transposed block, orthonormalised; the affine is not changed. |
| `MatrixCode.FromEulerXyzDeg` | src/mat4.c:132-157 | The intrinsic x-y-z rotation from degrees. |
| `MatrixCode.Mat4FromRot3` | src/mat4.c:159-169 | Embeds the block with last row and column of the identity. |
| `MatrixCode.Mat4FromTranslationRow` | src/mat4.c:171-177 | The identity with the translation in its last row. |
| `MatrixCode.ComputeNewAffine` | src/controller.c:155-184 | All array steps together compute the specified new view of the current view, extents, event and sensitivity; nothing else changes. |
| `Camera.MulAffine` | src/mat4.c:34-49 | Products of affine matrices are affine; blocks multiply and translations compose. |
| `Camera.EulerIsProper` | src/mat4.c:132-157 | Every Euler delta is a proper rotation. |
| `Camera.OrbitsModelCentre` | src/controller.c:173-183 | The new view is the current one moved along its own axes and then turned about the model-extents midpoint, point by point, for any affine view. |
| `Camera.RigidStep` | src/controller.c:155-184 | If the block A is orthonormal the new block is exactly D*A, whatever the pivot and translation, with the same determinant and last column. |
| `Camera.RunsStayRigid` | src/controller.c:155-184 | By induction every finite run of motion steps fed back into itself stays orthonormal with the same determinant and last column, its block being the product of the deltas times the first block. |
| `CameraLaws.TurnsAboutX` | src/controller.c:163-164 | For any rigid view an event with only rx keeps the first axis a0 of the view and takes the other two to c*a1 - s*a2 and s*a1 + c*a2, c and s being cosine and sine of rx * 0.02 * sensitivity * pi / 180, whatever the view's place and the model's. |
| `CameraLaws.TurnsAboutY` | src/controller.c:163-164 | The same for ry: the second axis stays, the others become c*a0 + s*a2 and c*a2 - s*a0. |
| `CameraLaws.TurnsAboutZ` | src/controller.c:163-164 | The same for rz, with the angle of -rz: the third axis stays, the others become c*a0 - s*a1 and s*a0 + c*a1. |
| `CameraLaws.SlidesAlongOwnAxes` | src/controller.c:170-171 | For any non-degenerate view an event with only x, y and z leaves the axes as they are and moves the eye by -x, -y and z times 0.0005 times the sensitivity along them. |
| `CameraLaws.SlidesFromOrigin` | src/controller.c:170-171 | From the identity view the eye goes to (-x, -y, z) * 0.0005 * sensitivity. |
| `CameraLaws.EventInSteps` | src/controller.c:155-184 | Any event on a rigid view is its single steps one after the other: the travel, then the turn about the third axis, the second and the first. |
| `CameraLaws.MiddleStays` | src/controller.c:173-183 | Whatever an event without travel finds in the middle of the model's box stays there, for any affine view. |
| `CameraLaws.SkewTurnsAlike` | src/controller.c:160-166 | Lengths and skews of a view's axes do not matter to the turn: a view that is a rigid one times a positive triangular matrix ends up with its eye where the rigid one does. |
| `CameraLaws.ShortAxes` | src/mat4.c:84-94 | An axis counts as none up to one hundred-millionth: a view with three perpendicular axes of length k is left unchanged by the all-zero event if and only if k > 0.00000001. |
| `Camera.WorldDeltaIsProper` | src/controller.c:160-166 | For any non-degenerate view the turn in world axes is a proper rotation. |
| `Camera.DistanceToCentreKept` | src/controller.c:173-183 | Every point keeps the distance to the model's centre it has after the translation, so what the translation brings to the centre stays there. |
| `Camera.EyeStaysOnSphere` | src/controller.c:173-183 | Without translation the eye stays on its sphere about the model's centre. |
| `Camera.StillEventKeepsView` | src/controller.c:173-183 | The all-zero event returns any non-degenerate view unchanged, orthonormal or not. |
| `Camera.StillEventIff` | src/controller.c:155-184 | And exactly those: an affine view is left unchanged for every model centre if and only if no row of its transposed block falls below the threshold. |
| `Camera.FlatViewJumps` | src/controller.c:155-184 | A concrete view and model that fail it: with a zero block, the origin as eye and the model centred on (1, 0, 0), the all-zero event moves the eye to (1, 0, 0). |
| `Wamp.Copied` | src/controller.c:99-111 | The copying loop takes all n numbers exactly when the reply carries them, and otherwise stops at the first item that is not a number. |
| `Wamp.OverwriteForgets` | src/controller.c:99-111 | A copy that succeeds leaves nothing of the old array. |
| `Wamp.OverwriteReads` | src/controller.c:99-111 | It leaves the reply's numbers, each in its place. |
| `ControllerCode.Controller.JsonToFloats` | src/controller.c:99-111 | Succeeds exactly when the reply carries n numbers; a failing copy leaves the part already overwritten. |
| `ControllerCode.Controller.ResolveUri` | src/controller.c:123-146 | The search loop resolves against the first entry of that prefix; an unknown prefix is dropped. |
| `ControllerCode.Controller.StartMotionChain` | src/controller.c:186-193 | New state and sends are those of the state machine: one read under a fresh id, the event recorded. |
| `ControllerCode.Controller.StartButtonChain` | src/controller.c:195-201 | The same for a view reset. |
| `ControllerCode.Controller.ChainFinished` | src/controller.c:203-214 | The same for the end of a chain and the choice of the next. |
| `ControllerCode.Controller.AdvanceMotionChain` | src/controller.c:216-287 | Every step of the motion chain on the object's own fields and arrays matches the state machine, failing reads included. |
| `ControllerCode.Controller.AdvanceButtonChain` | src/controller.c:289-324 | The same for the reset chain. |
| `ControllerCode.Controller.HandleCall` | src/controller.c:396-458 | The handshake and the calls after it match the state machine; the return code is -1 exactly for a call that is not acceptable at its stage. |
| `ControllerCode.Controller.HandlePrefix` | src/controller.c:387-397 | A PREFIX message registers at most eight prefixes, cut to their fields, as the state machine does. |
| `ControllerCode.Controller.HandleSubscribe` | src/controller.c:460-473 | A SUBSCRIBE to the controller's topic subscribes and gives focus; no other topic has an effect. |
| `ControllerCode.Controller.HandleReply` | src/controller.c:475-488 | A reply or error acts on the running chain exactly when it carries the awaited id. |
| `ControllerCode.Controller.OnMessage` | src/controller.c:371-496 | One message in: new state, sends and return code are those of the state machine. |
| `ControllerCode.Controller.OnSpnavEvent` | src/controller.c:498-529 | One device event in: new state and sends are those of the state machine, which ignores the event unless ready, recognised, subscribed and focused (RunSafety.ClosedGatesIgnore). |
| `ControllerCode.Controller.SetSensitivity` | src/controller.c:347-353 | One sensitivity in: the same, -1 and no change outside the range. |
| `ControllerCode.Controller.constructor` | src/controller.c:326-345 | A new controller is in the initial state and has sent its greeting. |
| `ControllerRuns.Feed` | src/controller.c:371-529 | One input of any kind, through the method that takes it, has the effect of the state machine's step. |
| `ControllerRuns.Drive` | src/controller.c:326-529 | A new controller object fed any inputs ends in the state of the machine's run, having sent its greeting and then exactly what the run sends. |
| `ControllerRuns.DriveByTheLaws` | src/controller.c:186-473 | So the laws are laws of the object: the RPCs it has sent are prefixes of the scripts, one per event started and for the camera its client answered with, up to its chain and step; its flags mirror the list of accepted events; its calls stay within the allowance; its gates stand as the messages say; and it has answered each acceptable call once. |
| `Runs.AdvanceShape` | src/controller.c:216-324 | Each awaited reply either ends the chain or makes the next call of its script, with a strictly smaller rank; the two catch-all arms are unreachable because chain and step always fit. |
| `Runs.FinishedShape` | src/controller.c:203-214 | An ended chain starts one chain with nothing left pending, if anything was pending, and otherwise leaves the controller idle. |
| `RunLaws.NextShape` | src/controller.c:371-529 | Whatever the input, the controller waits, ends, advances or starts a chain, and its fields stay consistent: an idle controller has nothing pending, a running chain implies ready, recognised and subscribed. |
| `RunLaws.RunConsistent` | src/controller.c:371-529 | So over every run. |
| `RunLaws.Grammar` | src/controller.c:216-324 | The RPCs of any run, with arbitrary replies, errors, timeouts and events, are nonempty prefixes of three scripts of 7, 5 and 4 calls, one for each event that started a chain, in order and of its kind; of the two motion scripts it is the short one exactly if that chain's read of view.perspective was answered with true or a number other than zero. A running chain is at its recorded position in the last. |
| `RunLaws.NextFlag` | src/controller.c:225-229 | The flag of a motion chain past that answer is true exactly if the answer was true or a nonzero number; no other input sets it. |
| `RunLaws.CoalescingRefines` | src/controller.c:203-214 | The two flags and one saved event refine an unbounded list of accepted events with the stated policy (a button first, dropping the rest; else the latest motion), and every accepted event is exactly one of started, waiting, superseded. |
| `RunLaws.StartsAreBooked` | src/controller.c:186-214 | A chain is started exactly when an event of the list is. |
| `RunLaws.AmplificationBound` | src/controller.c:186-324 | Over every run the RPCs sent, plus what the running chain may still send, are within the allowance of the events started. |
| `RunLaws.AllowanceCounts` | src/controller.c:186-324 | That allowance is 7 per motion event and 4 per button event. |
| `RunSafety.GatesOverRuns` | src/controller.c:405-473 | Over every run the handshake stage never goes back, recognition is final once ready, and a subscription is never lost. |
| `RunSafety.UnrecognisedStaysMuted` | src/controller.c:431-441 | A client not recognised when its controller is created is never sent an RPC. |
| `GateLaws.GatesFollowMessages` | src/controller.c:371-473 | Over every run, whatever device, clock and sensitivity do, the gates are a function of the messages received, with every literal of the handshake written out: ready, once a call asked for the mouse and a later one for the controller; recognised, if that one named Onshape or WebThreeJS Sample; subscribed, once a SUBSCRIBE named the controller's topic; focused, if some message gave focus, by that SUBSCRIBE or by an update call, and no later update call took it away; and the first eight prefixes announced, cut to 63 and 255 characters. |
| `GateLaws.AcceptsExactlyAdmitted` | src/controller.c:498-502 | Over every run the events taken on are exactly the device events that come while the client, by its messages, is ready, recognised, subscribed and focused. |
| `GateLaws.ResolvesAsAnnounced` | src/controller.c:123-146 | A name stands for itself without a colon, otherwise for what the first prefix of that name stands for, or nothing, followed by what is behind the first colon, cut to 319 characters; resolving gives exactly that. |
| `GateLaws.VerdictFromMessages` | src/controller.c:371-458 | Over every run the return code on the next message is decided by the messages received: it must be an array that starts with a number and, if that is 2, a call with two strings that asks for what the handshake expects next. |
| `GateLaws.EveryCallAnswered` | src/controller.c:396-458 | Over every run each acceptable call of the client is answered exactly once, under its own id and in order, with the mouse, the controller, an empty result or the not-found error, all written out; nothing else is answered. |
| `GateLaws.SensitivityOverRuns` | src/controller.c:347-353 | Over every run the sensitivity is the last one set from 0.01 to 10, or else 0.35. |
| `RunSafety.ClosedGatesIgnore` | src/controller.c:498-502 | A device event changes nothing and sends nothing unless the client is ready, recognised, subscribed and focused. |
| `RunSafety.AcceptedWereOpen` | src/controller.c:498-502 | Every event on the books of a run was one of its device events, and came while the four fields ready, recognised, subscribed and focused were set. |
| `RunSafety.UsedWereOpen` | src/controller.c:498-529 | So the event of a running motion chain, the saved event, and the button press behind a running or waiting reset were all let in through open gates, even if focus was lost before the chain started. |
| `RunSafety.VerdictIsDeterministic` | src/controller.c:371-458 | The return code on a message is a function of the messages so far alone. |
| `RunSafety.IdsOverRuns` | src/controller.c:475-488 | With fresh ids all ids sent differ, and a running chain waits for the last one. |
| `RunSafety.StaleReplyIgnored` | src/controller.c:475-488 | A reply under any other id sent, of a finished, abandoned or already advanced chain, changes nothing and sends nothing. |
| `RunSafety.TimeoutRecovers` | src/controller.c:498-529 | With all four fields set, an event that finds no chain or one at least ten seconds old starts a chain on itself with nothing pending; only a younger chain makes it wait, and then it is the saved motion or the waiting button. |
| `RunSafety.AgeNeverRefreshed` | src/controller.c:216-324 | No input refreshes a running chain's age: its start time changes only when another chain starts, and replies only lower its rank. |
| `RunSafety.AgeOverRuns` | src/controller.c:186-201 | Over every run the age of a running chain is counted from the input that started it. |
| `RunSafety.NeverWedged` | src/controller.c:504-529 | No pattern of replies wedges a connection: over every run, with the gates open, an event starts a chain on itself or the running chain was started by an input less than ten seconds earlier. |
| `RunSafety.NoStaleData` | src/controller.c:99-324 | Two idle controllers with the same control state but arbitrary leftover numbers, flags and events send the same on the same inputs for ever, although a failing read may have overwritten part of an array. |
| `Writes.WritesComeFromReplies` | src/controller.c:216-324 | Over every run each value written to the client is what the current chain's event, the replies to that chain's own reads (the notes are cleared whenever a chain starts, also one queued behind another) and the sensitivity when they were read make it: the new view; for a camera answered as orthographic the six numbers of view.extents, each times 1 + z * 0.0002 * sensitivity; in a reset the front view as given and the model's extents, each times 1.2. |
| `Writes.BranchFollowsReply` | src/controller.c:225-242 | Over every run the call after the read of view.affine is the update of motion if this chain's read of view.perspective was answered with true or a number other than zero, and the read of view.extents otherwise. |
| `Writes.ClearedAtStarts` | src/controller.c:186-201 | A chain starts on an input exactly when the model's extents are asked for, which is where the notes of replies are cleared. |

## Left out

- TLS handshake internals, certificates and their files (`src/tls.c`): the library's calls return any result.
- SHA-1, base64 and random id generation: the accept key is part of an opaque response, ids are inputs; only the
  length limit of the key buffer in `ws_compute_accept` is kept, as the 219-byte bound on an acceptable key.
- JSON text: messages are values; parsing and printing are not part of this model, and strings with embedded
  zero bytes, which the C code would cut, are not distinguished. Property names are an enumeration and the controller
  URI of a call is left implicit.
- HTTP response texts, CORS headers and paths: responses are arbitrary byte runs given by a function of the request.
- The sensitivity request's effect on other connections: a sensitivity change is an input of the controller model,
  and it sends nothing; its file is not modelled.
- `--doctor`, command line, logging, signals, peer names, socket options, and the poll timeout value.
- `src/spnav_bridge.c` and `src/origins.c`: the origin check is an arbitrary predicate, device events are inputs.
- Float rounding, overflow, NaN and infinities, the trigonometric series, the cast of an out-of-range number to int
  and the negation of the smallest int.
- Allocation failure, in the controller and in the JSON library.
- Connection.Client.HandMessage: the replies to a message are an arbitrary function of the messages so far, given anew
  for every turn of the loop, and what is sent on a device event is arbitrary; that the texts given to the send callback are what the controller model sends, in their
  JSON form, is the interface between the two and is not itself stated.
- EventLoop.Server.Poll: failure of poll and of the device connection end the loop; interrupted polls are not modelled.
- Session.ChunkingIndependence: speaks of the input side; a full output queue ends the connection and is covered by
  Connection.Client.QueueOutput.
