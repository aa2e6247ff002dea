# A verified model of the network_c_http core

This project models, in Dafny, the parts of the repository that do the work without talking to
the operating system: the URL parser, the message framing stack from `read()` to the user's
callback, the bounded blocking queue, the scheduler and its cross-thread queue, the slot
allocator, the doubly linked list and the buffer chain, and the reassembly of HTTP headers.
`dafny verify dfyconfig.toml` checks everything.

## How it is built

- A C `char` is a Dafny `char` with the same code, so every statement about bytes is stated for
  all characters.
- Code that computes by expressions is a function (`UrlParser.NextState`, `Framing.DemoByte`,
  `StreamProtocol.Step`). Code that updates fields or loops is a class or a method proved against
  such a function; what the source promises is then proved about the function.
- A failed assertion of the source is an outcome (`Aborted`, `Crashed`, `Halted`, `!ok`), so that
  "it never fires" or "it fires exactly when" can be stated.
- `read()`, `write()`, `epoll_wait()`, thread scheduling, the runloop's choice of the next event
  and the callbacks of llhttp are arbitrary inputs of the machines.
- Each machine also has a theorem that reads the callers' arguments and the results of system calls off
  the events of a run, and compares them with the outcome, independently of the machine's own records.
- The readers and the writer call back the user as their last action, so a callback that issues
  the next request is the next event of the run.

| files | subject |
|---|---|
| `UrlChars`, `UrlParser`, `UrlGrammar`, `UrlScanProofs`, `UrlHostProofs`, `UrlTiling`, `UrlTheorems`, `UrlAcceptance`, `UrlUnambiguous`, `UrlEveryBuffer`, `UrlRfc` | URL parser, strict mode; zone identifiers as in section 2 of RFC 6874 |
| `IOBuffers`, `Framing`, `DemoFraming`, `DemoStreams`, `DemoFrames`, `MsgParsers` | IOBuffer, the two message framings, parsers and serializers |
| `StreamProtocol`, `MsgStreams`, `TcpWriters` | message reader over tcp reader, tcp writer |
| `Rings`, `BlockingQueue` | circular buffers, the blocking queue and its threads |
| `FunctorLists`, `Runloops`, `Interthread`, `EventTables` | functor ring, runloop, eventfd queue, slot allocator |
| `LinkedLists`, `BufferChains`, `Headers` | list, buffer chain, HTTP headers |
| `ReadHistories`, `WriteHistories`, `QueueHistories`, `RunHistories`, `InterthreadHistories`, `Histories` | runs seen from the callers: the inputs of a run against its outcome |
| `Wrappers`, `Sequences`, `Ascii` | what several of these share |

## Where the code does not do what one would expect

Each of these is proved with the exact condition under which the expected property holds, and
with a concrete input on which it fails.

- `IOBuffer_commit` places the terminator relative to the start of the block, so a commit after a
  partial consume can overwrite data (`CommitKeepsDataExactlyWhen`). The message stream never
  commits while anything is partly consumed (`MsgStream.Valid`). `CommitLosesAByte` is the
  shortest case.
- The demo parser's error recovery looks at the end of the chunk, so the outcome can depend on how
  the stream was cut (`IndependentExactlyWhen`, `TwoReadings`), and bytes of a broken frame can reach the next
  message, or make a legal one outgrow its buffer (`PendingAfterRecovery`, `Resynchronises`,
  `LeftoverIsDelivered`).
- An end of file with errno 0, or a readiness event without a pending read, trips an assertion of
  the readers (`AbortsExactlyWhen`, `AbortingRuns`).
- A zero or failed write with errno 0 is reported as success (`FalseSuccessExactlyWhen`,
  `FalseSuccess`), and a write that met EAGAIN is never re-armed (`GoesOnExactlyWhen`,
  `StallsForever`, `Stall`).
- Reading the eventfd clears the announcements of all listed functors, and the ones left over are
  never caught up with (`StrandsExactlyWhen`, `NeverCatchesUp`, `TwoAddsStrand`).
- The cross-thread queue takes functors that the runloop then refuses (`PostCrashesExactlyWhen`,
  `NullFunctorCrashes`).
- The newline serializer cannot print the longest lines the parser accepts, because the formatting
  that expands its buffer writes to the block it has freed (`IOBuffer.Print`, `SerializeNewline`,
  `LongLineIsUndefined`).
- A header name whose header has no value callback is glued to the next name
  (`ReassemblesExactlyWhen`, `GluedNames`), and the last header callback after headers_complete, as in a
  chunked trailer, is lost (`MessageExactlyWhen`, `LostTrailer`).
- `BufferChain_add_front` overwrites the size (`BufferChain.AddFront`, `FrontOverwritesSize`), and
  compacting a chain with an empty buffer trips the commit assertion (`BufferChain.Compact`,
  `CompactAborts`).
- URL slices are 16-bit and wrap: the record points at a URL's values if and only if every offset and
  length fits (`RoundTrip`, `PathLengthWraps`). The authority is read again through such a slice, so a
  long one can be accepted that is no URL (`EveryBuffer`, `FalseAcceptance`).

The comment in the demo parser's recovery state says the read ends with an error when no STX is
found; the code reports nothing and goes on (`QuietRecovery`). The model follows the code.

## Model

| member | source | states |
|---|---|---|
| UrlChars.FoldingMacrosAreRanges | src/common/url_parser.c:229-233 | the case-folding bit tricks IS_ALPHA and IS_HEX are the plain letter ranges on every byte |
| UrlChars.UrlCharTableIsRange | src/common/url_parser.c:88-120 | the 32-byte bit table is "visible ASCII except '#' and '?'" on every byte |
| UrlRfc.ClassesAre | src/common/url_parser.c:229-245 | every character class of the parser is, for every character, a set written out from RFC 3986 and RFC 6874: letters, digits, unreserved characters, sub-delimiters |
| UrlRfc.SetsCompare | src/common/url_parser.c:229-245 | the userinfo class is exactly that of section 3.2.1 of RFC 3986 with a plain '%'; the host class is the unreserved characters without '_' and '~' |
| UrlParser.UrlRecord.ParseUrl | src/common/url_parser.c:593-714 | for every buffer and mode the return value and the whole record, on success and on failure, are those of `Parse`; both internal assertions hold |
| UrlParser.UrlRecord.ScanFields | src/common/url_parser.c:606-666 | the first loop leaves the fold of its step over the buffer; every recorded slice lies inside the buffer; "Unexpected state" is unreachable |
| UrlParser.UrlRecord.RecordChar | src/common/url_parser.c:614-665 | the field of the new state grows or starts, with 16-bit wrap-around, and nothing else changes |
| UrlParser.UrlRecord.ParseHost | src/common/url_parser.c:506-586 | the authority loop refines the host slice into userinfo, host and port as the fold of its step, and accepts in exactly the allowed end states |
| UrlParser.UrlRecord.RecordHostChar | src/common/url_parser.c:526-566 | the switch of the authority loop updates exactly the field the new state belongs to |
| UrlParser.UrlRecord.ConvertPort | src/common/url_parser.c:686-711 | the decimal loop with early exit stores the value of `PortLoop` or fails without storing anything |
| UrlParser.HostRunInside | src/common/url_parser.c:546-553 | for any authority and any buffer length the port slice ends no later than the position reached, which is what the "Port number overflow" assertion needs |
| UrlParser.NeverRestarts | src/common/url_parser.c:275-421 | no state and byte lead back to the start state, so "Unexpected state" is unreachable |
| UrlParser.UrlRecord.constructor | src/common/url_parser.c:588-591 | an all-zero record |
| UrlScanProofs.ServerFormRun | src/common/url_parser.c:610-666 | on every scheme, raw authority, path and tail of any length the first loop sets exactly those fields to exactly their places, in 16 bits |
| UrlScanProofs.PathFormRun | src/common/url_parser.c:610-666 | the same for URLs that start with '/' or '*' |
| UrlScanProofs.SchemaSound | src/common/url_parser.c:304-353 | whatever survives from a scheme on and has a host is letters, "://", a non-empty authority and a path part |
| UrlScanProofs.ServerSound | src/common/url_parser.c:329-353 | whatever survives in the authority is authority characters followed by a path, query and fragment of the grammar |
| UrlScanProofs.PathSound | src/common/url_parser.c:355-413 | whatever survives in the path is URL characters with an optional query and fragment |
| UrlHostProofs.AuthorityRun | src/common/url_parser.c:506-586 | every well-formed authority, of any length, is accepted and its userinfo, host and port are placed exactly, in 16 bits |
| UrlHostProofs.AuthoritySound | src/common/url_parser.c:424-504 | nothing but a well-formed authority is accepted |
| UrlTheorems.PortLoopIsDecimal | src/common/url_parser.c:699-710 | the early exit rejects exactly the digit strings whose positional decimal value exceeds 65535 |
| UrlAcceptance.ExactAcceptance | src/common/url_parser.c:593-714 | a buffer whose scheme and authority end within 65535 bytes is accepted if and only if it is the printed form of a well-formed tree with a port of at most 65535, in both modes and for path, query and fragment of any length |
| UrlRfc.AcceptsWellFormed | src/common/url_parser.c:593-714 | the same with well-formedness stated over the written-out sets instead of the parser's classes |
| UrlRfc.SameGrammar | src/common/url_parser.c:593-714 | a tree is well-formed over the parser's classes if and only if it is over the written-out sets |
| UrlEveryBuffer.EveryBuffer | src/common/url_parser.c:593-714 | a buffer of any length is accepted if and only if it is a path with its tail, or the bytes at the 16-bit slice of its authority are a well-formed authority whose port, read at its own 16-bit slice, converts |
| UrlEveryBuffer.SeenParse | src/common/url_parser.c:668-714 | for a head of any length whose re-read bytes are a given authority, exactly when the parse succeeds in either mode |
| UrlEveryBuffer.RawExactlyWhen | src/common/url_parser.c:329-353 | the first loop lets an authority text through exactly when no two '@' follow each other |
| UrlEveryBuffer.FalseAcceptance | src/common/url_parser.c:674-679 | "http://a" followed by 65536 colons is accepted and is the printed form of no tree |
| UrlAcceptance.ParseSound | src/common/url_parser.c:593-714 | from any such accepted buffer a well-formed tree is read back that prints to that buffer |
| UrlTheorems.RoundTrip | src/common/url_parser.c:593-714 | parsing a printed tree whose scheme and authority end within 65535 bytes succeeds exactly when its port fits, sets exactly its non-empty values and its port, leaves the slices of all other fields alone, and points at every value if and only if every offset and length fits 16 bits |
| UrlAcceptance.Tiling | src/common/url_parser.c:610-666 | after any successful parse of a tree whose scheme and authority end within 65535 bytes and whose offsets and lengths all fit, the fields are non-empty, inside the buffer, in URL order and disjoint, and every other byte is a delimiter |
| UrlAcceptance.ShortBuffersTile | src/common/url_parser.c:610-666 | the same for every accepted buffer of at most 65535 bytes |
| UrlUnambiguous.Unambiguous | src/common/url_parser.c:593-714 | two well-formed trees with the same printed form, of any length and with any port, have the same values and port number |
| UrlAcceptance.PathLengthWraps | src/common/url_parser.c:656-664 | the shortest failure of that: a bare path of any length is accepted with its length modulo 65536 |
| IOBuffers.CommitKeepsDataExactlyWhen | src/common/iobuffer.c:139-147 | a commit leaves the data intact if and only if nothing is partly consumed, or the consumed part is longer than the data, or a NUL is there already |
| IOBuffers.CommitLosesAByte | src/common/iobuffer.c:118-178 | adding "ab", consuming one byte and adding "c" leaves "b" and a NUL |
| IOBuffers.IOBuffer.constructor | src/common/iobuffer.c:30-48 | an empty buffer of the given capacity |
| IOBuffers.IOBuffer.Fill | src/common/iobuffer.c:128-133 | bytes written to the free space follow the data without becoming part of it |
| IOBuffers.CStringIsWhole | src/common/iobuffer.c:90-94 | the C string of data without NUL is the data |
| IOBuffers.CStringIs | src/common/iobuffer.c:90-94 | the C string is the longest beginning of the text without a NUL |
| IOBuffers.IOBuffer.Commit | src/common/iobuffer.c:139-147 | the exact data after a commit, including the misplaced terminator |
| IOBuffers.IOBuffer.DataAdd | src/common/iobuffer.c:118-126 | the new bytes follow the old ones, as a commit leaves them |
| IOBuffers.IOBuffer.Consume | src/common/iobuffer.c:164-178 | drops exactly the first bytes and rewinds when empty |
| IOBuffers.IOBuffer.PopFront | src/common/iobuffer.c:219-226 | takes the first byte |
| IOBuffers.IOBuffer.Dup | src/common/iobuffer.c:95-106 | an independent buffer with the same block, window and data |
| IOBuffers.IOBuffer.CStr | src/common/iobuffer.c:90-94 | the text up to the first NUL of the block from the data on, or none when it runs off the block; the text of the data when that is terminated |
| IOBuffers.IOBuffer.Print | src/common/iobuffer.c:233-251 | appends a non-empty text that fits the free space with its NUL; writes to a block it has freed exactly when the text does not fit and twice its length exceeds the capacity; trips an assertion otherwise |
| Framing.NewlineIndependence | apps/msg/newline_msg_parser.c:43-60 | for every stream, deliveries and pending line do not depend on the cuts |
| Framing.NewlineIsSplit | apps/msg/newline_msg_parser.c:50-59 | every stream delivers exactly its lines and keeps the unfinished one; it halts exactly when a line outgrows its buffer, with exactly the lines before it delivered |
| Framing.NewlineHaltsExactlyWhen | apps/msg/newline_msg_parser.c:50-59 | from every state a chunk trips the capacity assertion exactly when one of its lines, behind the unfinished one, exceeds 4096 bytes |
| Framing.NewlineSerializeThenParse | apps/msg/newline_msg.c:45-50 | any list of legal lines, serialized and read in any pieces, comes back exactly |
| Framing.LinesOnTheWire | apps/msg/newline_msg.c:45-50 | a line ends with the byte 10, and the legal ones have at most 4096 bytes, none of them 10 or 0 |
| Framing.PrintIs | apps/msg/demo_msg_parser.c:121 | the printable range is, for every character, the written-out letters, digits, punctuation and space of ISO C |
| DemoFraming.CanonicalForm | apps/msg/demo_msg_parser.c:111-163 | without a risky STX every way of reading a stream ends in one state, computed from the bytes alone |
| DemoFraming.QuietRecovery | apps/msg/demo_msg_parser.c:143-159 | in recovery a chunk without a risky STX delivers nothing and drops what was pending |
| DemoFraming.TwoReadings | apps/msg/demo_msg_parser.c:143-159 | a risky STX gives two readings of the same bytes that end differently |
| DemoFraming.IndependentExactlyWhen | apps/msg/demo_msg_parser.c:92-164 | deliveries and pending body depend on the bytes alone, at every point of the stream, if and only if no STX after the first broken frame is risky |
| DemoStreams.IntactStream | apps/msg/demo_msg_parser.c:92-164 | an intact stream, cut anyhow, delivers exactly what lies between each STX and the next ETX and keeps exactly the unfinished frame |
| DemoStreams.OverflowHalts | apps/msg/demo_msg_parser.c:120-128 | a frame of more than 1024 printable bytes before any broken one trips the capacity assertion under every cutting, with exactly the frames before it delivered; where the cuts do not matter nothing else trips it |
| DemoFrames.DemoIsFrames | apps/msg/demo_msg_parser.c:111-163 | from every state and on every chunk the byte loop does what reading frame by frame does: skip to STX, take the printable text, close or give up |
| DemoFrames.DemoHaltsExactlyWhen | apps/msg/demo_msg_parser.c:120-128 | from every state a chunk trips the capacity assertion exactly when the text of one of its frames, behind what was left in the message, exceeds 1024 bytes |
| DemoFrames.ReadingHaltsExactlyWhen | apps/msg/demo_msg_parser.c:92-164 | for every stream and every cutting, exactly the readings with such a frame halt |
| DemoStreams.SerializeThenParse | apps/msg/demo_msg.c:85-99 | any list of legal bodies, with STX-free noise between the frames and read in any pieces, comes back exactly, with nothing pending |
| DemoStreams.FramesOnTheWire | apps/msg/demo_msg.c:85-99 | a frame is the byte 2, the body and the byte 3, and the legal bodies have at most 1024 printing characters |
| DemoStreams.SafeOnEveryStream | apps/msg/demo_msg_parser.c:116-162 | on any stream and any cuts only printable bodies of at most 1024 bytes are delivered, and deliveries followed by the pending body are a subsequence of the input, also when the parser has halted |
| DemoStreams.PendingAfterRecovery | apps/msg/demo_msg_parser.c:143-159 | a chunk ending in recovery leaves nothing pending unless its last byte is the one that broke a frame |
| DemoStreams.Resynchronises | apps/msg/demo_msg_parser.c:143-159 | for every legal body and every pending body of at most 1024 bytes, the next chunk with a whole frame delivers it behind what was pending, or trips the capacity assertion when both exceed 1024 bytes; it delivers exactly the frame if and only if nothing was pending |
| DemoStreams.LeftoverIsDelivered | apps/msg/demo_msg_parser.c:138-151 | two reads that deliver bytes of a broken frame as part of the next message |
| MsgParsers.MsgParser.ConsumeDemo | apps/msg/demo_msg_parser.c:92-164 | empties the buffer and leaves mode, pending body and deliveries of `Chunk`, or stops at the capacity assertion of a full message with the deliveries made so far |
| MsgParsers.MsgParser.DemoIteration | apps/msg/demo_msg_parser.c:111-163 | one iteration turns the chunk into its rest behind the messages delivered before |
| MsgParsers.MsgParser.ReadByte | apps/msg/demo_msg_parser.c:112-115 | both ways the loop reads a byte give the same one |
| MsgParsers.MsgParser.DemoStep | apps/msg/demo_msg_parser.c:116-162 | the switch makes the step of `DemoByte` |
| MsgParsers.MsgParser.ConsumeNewline | apps/msg/newline_msg_parser.c:43-60 | empties the buffer and leaves pending line and deliveries of `Chunk` |
| MsgParsers.MsgParser.NewlineStep | apps/msg/newline_msg_parser.c:51-58 | the loop body makes the step of `NewlineByte` |
| MsgParsers.MsgParser.Deliver | apps/msg/demo_msg_parser.c:130-138 | the message handed over is the pending body, and a new empty one replaces it |
| MsgParsers.MsgParser.PushBack | src/common/iobuffer.c:227-232 | appends a byte to the message buffer, or fails its capacity assertion exactly when it is full |
| MsgParsers.MsgParser.Consume | apps/msg/msg_selection_header.h:22-40 | the selected parser's result |
| MsgParsers.SerializeDemo | apps/msg/demo_msg.c:85-99 | STX, the body's C string, ETX, for every committed body; for one never committed, exactly when its block has a NUL early enough |
| MsgParsers.SerializeNewline | apps/msg/newline_msg.c:45-50 | the body's C string and a newline exactly for texts of at most 4094 bytes; longer ones, which the parser accepts up to 4096, leave what C defines |
| MsgParsers.LongLineIsUndefined | apps/msg/newline_msg.c:45-50 | every legal line of 4095 bytes is printed to a freed block |
| StreamProtocol.StepKeeps | apps/async_msg_stream/msg_reader.c:11-76 | every allowed event keeps: requests answered once and in order, one way to go on for an outstanding request, messages those of the reads |
| StreamProtocol.AbortsExactlyWhen | apps/async_msg_stream/msg_reader.c:11-48 | in a reachable state an event trips an assertion unless it is allowed: a request with none outstanding, readiness with a read pending, a retry that was posted, no errno 0, and no line or frame in the bytes read that outgrows its buffer; a read is never started while one is pending |
| StreamProtocol.NewlineTooLong | apps/async_msg_stream/msg_reader.c:29-48 | for newline streams that last condition is one on the bytes: all bytes read so far with the new ones have a line of more than 4096 bytes |
| StreamProtocol.AbortingRuns | apps/async_msg_stream/msg_reader.c:11-48 | a first request that meets an end of file with errno 0 aborts, and so does readiness before any request |
| StreamProtocol.LongFrameAborts | apps/async_msg_stream/msg_reader.c:29-48 | a first read of any frame with more than 1024 printable bytes aborts |
| StreamProtocol.EveryRun | apps/async_msg_stream/msg_reader.c:11-76 | the invariant after every allowed run of requests, readiness events and posted retries |
| ReadHistories.ErrorsAreTold | apps/tcp/tcp_reader.c:78-121 | over every allowed run, with the results of read() taken from the events: the errors told to callbacks are, in order, exactly the errnos of the reads that met an end of file or an error, each with no message; the bytes parsed are those of the other reads; all requests made but an outstanding one are answered |
| ReadHistories.StepAccounts | apps/tcp/tcp_reader.c:44-121 | the same for one event, with the state it leaves the tcp reader in |
| StreamProtocol.NewlineEndToEnd | apps/async_msg_stream/msg_reader.c:29-57 | in every run, messages delivered and then queued are the lines of all bytes read so far |
| StreamProtocol.DemoEndToEnd | apps/async_msg_stream/msg_reader.c:29-57 | the same for demo messages while the bytes form an intact stream |
| StreamProtocol.NewlineDeliversWhatWasSent | apps/async_msg_stream/msg_reader.c:11-76 | while the bytes read begin what a sender serialized, the receiver has the first of its messages in order; all of them once all bytes are read |
| StreamProtocol.DemoDeliversWhatWasSent | apps/async_msg_stream/msg_reader.c:11-76 | the same for demo frames with noise between them |
| MsgStreams.MsgStream.Read | apps/async_msg_stream/msg_reader.c:11-28 | a request makes the protocol's step and keeps its invariant |
| MsgStreams.MsgStream.OnData | apps/async_msg_stream/msg_reader.c:29-48 | committed bytes are parsed to the last one, then the request is answered or a retry posted |
| MsgStreams.MsgStream.InvokeCallback | apps/async_msg_stream/msg_reader.c:70-76 | answers the outstanding request and clears its slot |
| MsgStreams.MsgStream.AnswerOrRetry | apps/async_msg_stream/msg_reader.c:39-44 | hands over the oldest queued message, or posts one retry |
| MsgStreams.MsgStream.TryReading | apps/tcp/tcp_reader.c:78-121 | one read into the rewound buffer, for each kind of result |
| MsgStreams.MsgStream.StartRead | apps/tcp/tcp_reader.c:18-30 | both assertions of tcp_read hold |
| MsgStreams.MsgStream.BeginRequest | apps/async_msg_stream/msg_reader.c:15-20 | the request is recorded as outstanding and nothing else changes |
| MsgStreams.MsgStream.OnReady | apps/tcp/tcp_reader.c:44-65 | a readiness event makes the protocol's step |
| MsgStreams.MsgStream.RunPosted | apps/async_msg_stream/msg_reader.c:58-69 | a posted retry makes the protocol's step |
| TcpWriters.WriteConservation | apps/tcp/tcp_writer.c:20-127 | in every run, whatever errno the writes carry, accepted bytes followed by those left are the data, each request but an outstanding one had exactly one callback, and a request whose data was all accepted was told 0 |
| WriteHistories.RequestsAreServed | apps/tcp/tcp_writer.c:20-127 | over every run, with the writes of each request taken from the events: the i-th request is answered by its own writes, with exactly the bytes they took and the errno of the last of them; the one under way has left what they did not take; the writer's state is that of its last results |
| TcpWriters.FalseSuccessExactlyWhen | apps/tcp/tcp_writer.c:106-116 | over every run, some request is told it succeeded with bytes left if and only if some zero or failed write carried errno 0 while bytes were left |
| TcpWriters.FalseSuccess | apps/tcp/tcp_writer.c:106-107 | the shortest such run: "a" is reported written, nothing was accepted |
| TcpWriters.GoesOnExactlyWhen | apps/tcp/tcp_writer.c:97-117 | a pending write can go on if and only if its last write did not return EAGAIN |
| TcpWriters.StallsForever | apps/tcp/tcp_writer.c:109-111 | after EAGAIN no run continues the request |
| TcpWriters.Stall | apps/tcp/tcp_writer.c:109-111 | the shortest run that stalls: after one EAGAIN no event is allowed |
| TcpWriters.TcpWriter.StartWrite | apps/tcp/tcp_writer.c:20-28 | a request makes the protocol's step and keeps its invariant |
| TcpWriters.TcpWriter.TryWriting | apps/tcp/tcp_writer.c:88-118 | one write for each kind of result |
| TcpWriters.TcpWriter.InvokeCallback | apps/tcp/tcp_writer.c:119-127 | finishes the outstanding request with the error and clears its slots |
| TcpWriters.TcpWriter.RunPosted | apps/tcp/tcp_writer.c:29-35 | a posted retry makes the protocol's step |
| Rings.AheadIsModulo | src/common/queue.c:51-64 | advancing around the ring is addition modulo its size |
| BlockingQueue.Queue.constructor | src/common/queue.c:72-85 | an empty queue |
| BlockingQueue.Queue.Put | src/common/queue.c:152-178 | appends to the FIFO contents; the not-full assertion holds |
| BlockingQueue.Queue.Take | src/common/queue.c:118-150 | removes the oldest value; the not-empty assertion holds |
| BlockingQueue.NeverCrashes | src/common/queue.c:51-64 | at every point of every critical section the pointer assertions hold although the size lags behind the pointer |
| BlockingQueue.InvKept | src/common/queue.c:118-178 | every step of every thread keeps mutual exclusion, FIFO contents and no lost wake-up |
| BlockingQueue.EveryInterleaving | src/common/queue.c:118-178 | the invariant in every interleaving of any number of threads with spurious wake-ups, for every positive capacity |
| QueueHistories.CallersAreServed | src/common/queue.c:118-178 | over every interleaving, with the calls of each thread taken from the actions: what entered the queue is an interleaving of what the threads passed to Queue_add, each in its own order and but for one in progress; each completed Queue_remove accounts for exactly one value that left, and returns it; what left is a beginning of what entered |
| BlockingQueue.WhenUnlocked | src/common/queue.c:118-178 | values removed and then the window are the values added; un-notified consumers wait only on an empty, un-notified producers only on a full queue, never both |
| BlockingQueue.StuckOnlyTogether | src/common/queue.c:118-178 | no deadlock: if no thread can move, the mutex is free, every thread is idle or waiting, consumers wait on an empty queue and producers on a full one |
| FunctorLists.FunctorList.Add | src/runloop/epoll_runloop/functor_list.c:42-53 | appends; its assertion fails exactly when capacity - 1 functors are held |
| FunctorLists.FunctorList.Remove | src/runloop/epoll_runloop/functor_list.c:60-72 | removes the oldest; its assertion fails exactly when empty |
| FunctorLists.FunctorList.Size | src/runloop/epoll_runloop/functor_list.c:54-59 | the modular formula is the number of functors, at most capacity - 1 |
| FunctorLists.FunctorList.constructor | src/runloop/epoll_runloop/functor_list.c:23-36 | an empty ring |
| Runloops.FifoScheduling | src/runloop/epoll_runloop/runloop.c:174-279 | over any run functors executed and then ready are the functors posted, and the clean exit leaves no functor and no descriptor |
| RunHistories.InputsTakeEffect | src/runloop/epoll_runloop/runloop.c:174-279 | over every run: some number of inputs is used, the functors posted are exactly the posts of the functors run and of every handler reported, in order, the descriptor count is the last one left, one functor ran for each, and the loop stops there for the reason its exit says; a post fails exactly on a NULL or a full ring |
| RunHistories.DispatchIs | src/runloop/epoll_runloop/runloop.c:220-239 | all reported handlers take effect in turn, exactly when all their posts are usable and fit |
| Runloops.RunsInTurn | src/runloop/epoll_runloop/runloop.c:242-261 | a ready functor runs as soon as those posted before it have run, whatever they post |
| Runloops.PostsExactlyWhen | src/runloop/epoll_runloop/runloop.c:268-279 | posting a list of functors succeeds exactly when none has a NULL and all of them fit the ring with one slot free |
| Runloops.Runloop.Run | src/runloop/epoll_runloop/runloop.c:174-266 | the nested loops compute `RunFrom`; epoll_wait is reached only with an empty ring |
| Runloops.Runloop.Drain | src/runloop/epoll_runloop/runloop.c:242-261 | the drain loop runs functors in order until the ring is empty |
| Runloops.Runloop.RunOldest | src/runloop/epoll_runloop/runloop.c:250-253 | removes the oldest functor, then its posts and descriptors take effect |
| Runloops.Runloop.DispatchAll | src/runloop/epoll_runloop/runloop.c:220-239 | the effects of the reported handlers in turn, or the failed post that stops them |
| Runloops.Runloop.Post | src/runloop/epoll_runloop/runloop.c:268-279 | appends to the ring unless the function or its argument is NULL or the ring is full |
| Interthread.InvKept | src/runloop/epoll_runloop/w_eventfd_queue.c:64-88 | every step of adders, consumer and the rest of the runloop keeps: counter at most the listed functors, mutual exclusion, order, list within capacity |
| Interthread.EveryInterleaving | src/runloop/epoll_runloop/w_eventfd_queue.c:64-88 | the invariant in every interleaving of any number of adders and the consumer |
| Interthread.NotificationIsSafe | src/runloop/epoll_runloop/w_interthread_queue.c:24-35 | in every interleaving a readable descriptor means a listed functor, and functors are posted in the order added |
| InterthreadHistories.CallersAreServed | src/runloop/epoll_runloop/w_interthread_queue.c:24-54 | over every interleaving, with the calls of each thread taken from the actions: the functors listed are an interleaving of what the threads passed to itqueue_add, each in its own order and but for one in progress; a beginning of them is posted, in order; the ring holds what was posted and not yet run |
| Interthread.PostCrashesExactlyWhen | src/runloop/epoll_runloop/w_interthread_queue.c:24-35 | in every interleaving a wake-up trips an assertion exactly when the next functor in the order of adding has a NULL in it, or the ready ring is full; the empty stand-in for an empty list is never what is posted |
| Interthread.UsableFunctorsAreSafe | src/runloop/epoll_runloop/w_interthread_queue.c:24-35 | so no wake-up does when all functors added are usable and nothing else posts |
| Interthread.NullFunctorCrashes | src/runloop/epoll_runloop/w_interthread_queue.c:24-35 | a run from the start in which an unchecked functor with a NULL brings down the runloop |
| Interthread.AddCrashesExactlyWhen | src/runloop/epoll_runloop/w_eventfd_queue.c:64-73 | in every interleaving an add trips its assertion exactly when capacity - 1 of the functors added so far have not been taken off the list, and there are never more of them |
| Interthread.StrandsExactlyWhen | src/runloop/epoll_runloop/w_eventfd_queue.c:74-88 | for every run from the start to a state with nothing announced or about to be: the functors left listed are exactly as many as announcements were wiped out unserved, so some are stranded if and only if some read of the descriptor found a counter above 1 |
| Interthread.NeverCatchesUp | src/runloop/epoll_runloop/w_eventfd_queue.c:74-88 | stranded functors are never made up for: over every later run at least as many stay listed |
| Interthread.CrowdedWakeup | src/runloop/epoll_runloop/w_eventfd_queue.c:74-88 | from a state in which a wake-up finds more than one functor, a run that strands the rest |
| Interthread.TwoAddsStrand | src/runloop/epoll_runloop/w_eventfd_queue.c:64-88 | a run from the start, with one thread adding twice, that strands the second functor |
| Interthread.StrandedUntilAdd | src/runloop/epoll_runloop/w_eventfd_queue.c:74-88 | while functors are stranded, no step but the listing of another functor changes that |
| Interthread.EventfdQueue.Add | src/runloop/epoll_runloop/w_eventfd_queue.c:64-73 | lists and announces one functor |
| Interthread.EventfdQueue.Remove | src/runloop/epoll_runloop/w_eventfd_queue.c:74-88 | takes the first functor or an empty one, and clears the counter |
| EventTables.InUse | src/runloop/kqueue_runloop/event_table.c:72-78 | slots in use are the slots not on the free list |
| EventTables.StepKeepsPartition | src/runloop/kqueue_runloop/event_table.c:59-71 | a get never returns a live slot, and get and release keep the partition into free and live |
| EventTables.EveryRun | src/runloop/kqueue_runloop/event_table.c:59-82 | over any run that releases only live slots the partition holds and the number in use is gets minus releases |
| EventTables.ReusedInOrder | src/runloop/kqueue_runloop/event_table.c:29-71 | over any run slots are reused in the order they were given back |
| EventTables.EventTable.constructor | src/runloop/kqueue_runloop/event_table.c:10-20 | all slots free, in order |
| EventTables.EventTable.FreelistAdd | src/runloop/kqueue_runloop/event_table.c:29-35 | appends to the free list, across wrap-around |
| EventTables.EventTable.FreelistGet | src/runloop/kqueue_runloop/event_table.c:36-43 | takes the oldest free index, across wrap-around |
| EventTables.EventTable.GetEntry | src/runloop/kqueue_runloop/event_table.c:59-65 | the first free slot, which was not live and knows its own index, across wrap-around |
| EventTables.EventTable.ReleaseEntry | src/runloop/kqueue_runloop/event_table.c:66-71 | the slot named by its own index goes to the end of the free list |
| EventTables.EventTable.NumberInUse | src/runloop/kqueue_runloop/event_table.c:72-78 | the number of live slots |
| EventTables.EventTable.HasOutstanding | src/runloop/kqueue_runloop/event_table.c:79-82 | true exactly when a slot is live |
| LinkedLists.List.AddFront | src/common/list.c:140-155 | prepends the item and keeps ends, mirrored links, distinct nodes and count; old nodes stay |
| LinkedLists.List.AddBack | src/common/list.c:158-173 | appends the item, with the same guarantees |
| LinkedLists.List.RemoveFirst | src/common/list.c:185-208 | removes and returns the first item, or NULL when empty |
| LinkedLists.List.RemoveLast | src/common/list.c:219-245 | removes and returns the last item, or NULL when empty |
| LinkedLists.List.constructor | src/common/list.c:60-66 | an empty list |
| LinkedLists.List.First | src/common/list.c:176-182 | the first item, or NULL when empty |
| LinkedLists.List.Last | src/common/list.c:211-216 | the last item, or NULL when empty |
| LinkedLists.List.Next | src/common/list.c:255-260 | the following node, or NULL behind the last |
| LinkedLists.List.Find | src/common/list.c:124-137 | the first node with the item, or NULL when no node has it; terminates |
| LinkedLists.List.Remove | src/common/list.c:264-293 | removes exactly the node pointed at and keeps every other node in place |
| BufferChains.BufferChain.Append | src/common/buffer_chain.c:38-54 | the contents grow by exactly the bytes and the size is their total; the last buffer is used exactly when the chain has bytes and that buffer has the space, otherwise a new one of 8192 bytes, or of 100 more than are needed |
| BufferChains.BufferChain.constructor | src/common/buffer_chain.c:14-20 | an empty chain |
| BufferChains.BufferChain.AddBack | src/common/buffer_chain.c:163-167 | appends the buffer's bytes |
| BufferChains.BufferChain.AddFront | src/common/buffer_chain.c:139-143 | puts the bytes in front, and keeps the size right if and only if the chain held no bytes |
| BufferChains.FrontOverwritesSize | src/common/buffer_chain.c:139-143 | "ab" with "c" put in front is "cab" with size 1 |
| BufferChains.BufferChain.PopFront | src/common/buffer_chain.c:169-178 | takes the first buffer and its bytes off the front |
| BufferChains.BufferChain.AppendChain | src/common/buffer_chain.c:144-153 | appends copies of the other chain's buffers, one by one, and leaves that chain unchanged |
| BufferChains.BufferChain.StealChain | src/common/buffer_chain.c:154-162 | moves all buffers over in order and empties the other chain |
| BufferChains.BufferChain.Compact | src/common/buffer_chain.c:79-98 | one buffer with exactly the contents, without tripping the space assertion; fails exactly when a buffer is empty |
| BufferChains.CompactAborts | src/common/buffer_chain.c:79-98 | a chain of one empty buffer brings the compaction down |
| Headers.CallsRun | src/http_protocol/http_message_parser.c:290-326 | how names and values are cut into callbacks does not matter, and no assertion fires |
| Headers.AbortsExactlyWhen | src/http_protocol/http_message_parser.c:289-326 | for any callbacks an assertion fires exactly when the parser has never had a name or value callback and the first one is for a value |
| Headers.UpperIsCapitals | src/http/kvpair.c:44-52 | the stored label is, letter by letter, the capital of a written-out table |
| Headers.ReassemblesExactlyWhen | src/http_protocol/http_message_parser.c:207-372 | from any state and for any cuts with at least one name callback per header, the message gets exactly the pairs of the name in written-out capitals and the whole value, in order, if and only if every name is non-empty and every header but the last has a value callback |
| Headers.GluedNames | src/http_protocol/http_message_parser.c:290-309 | the shortest header list that comes out wrong: two names become one |
| Headers.MessageExactlyWhen | src/http_protocol/http_message_parser.c:289-408 | for any headers and any header callbacks after headers_complete, the message gets all of both if and only if the headers can be told apart and there are no such trailers; trailers that can be told apart arrive except the last |
| Headers.LostTrailer | src/http_protocol/http_message_parser.c:400-409 | one header and one trailer: the message has the header only |
| Headers.EverySession | src/http_protocol/http_message_parser.c:207-408 | any number of messages on one parser whose headers and trailers can be told apart come out in order, each with its own headers and all but the last of its trailers |
| Headers.HttpMessageParser.OnHeaderField | src/http_protocol/http_message_parser.c:290-309 | the callback makes the machine's step |
| Headers.HttpMessageParser.OnHeaderValue | src/http_protocol/http_message_parser.c:311-326 | the callback makes the machine's step, or fails its assertion |
| Headers.HttpMessageParser.OnMessageBegin | src/http_protocol/http_message_parser.c:208-240 | clears headers and buffers and keeps the header state |
| Headers.HttpMessageParser.OnHeadersComplete | src/http_protocol/http_message_parser.c:364-372 | the buffered header moves to the message |
| Headers.HttpMessageParser.OnMessageComplete | src/http_protocol/http_message_parser.c:401-408 | the message is handed on and a new one started |
| Headers.UpperCopy | src/http/kvpair.c:44-55 | a copy in written-out capitals with its terminator |
| Headers.Find | src/http/header_list.c:113-129 | the first header whose label is the upper-cased key, or none when no label is |
| Headers.LookupIgnoresCase | src/http/header_list.c:113-129 | a reassembled header whose name has no NUL matches exactly the keys that are its name but for letter case (section 5.1 of RFC 9110) |

## Left out

- UrlAcceptance.ExactAcceptance: a scheme and authority that run past 65535 bytes are excluded, because there it is false (`FalseAcceptance`); `EveryBuffer` covers them.
- UrlAcceptance.ParseSound: the same bound, for the same reason.
- UrlTheorems.RoundTrip: the same bound; what becomes of longer heads is in `SeenParse`, except for the slices of their inner fields.
- UrlAcceptance.Tiling: the same bound, and all offsets and lengths fit; a record with wrapped slices need not tile.
- IOBuffers.IOBuffer.Print: what a write to a freed block leaves behind is not modelled, only when it happens.
- MsgStreams.MsgStream.Read: the input buffer and the tcp reader's slots are set up with the stream; the source allocates the buffer at the first request and leaves the slots uninitialised although its struct comment requires them to be null.
- Delivered messages are values: ownership and freeing of message objects, and memory exhaustion, are not modelled.
- BlockingQueue.EveryInterleaving: capacity 0, for which nothing can ever be added, is excluded; the `full` flag is not modelled.
- BlockingQueue.StuckOnlyTogether: deadlock only; fairness and progress of single threads are not modelled.
- Runloops.Runloop.Run: user code is given by the functors it posts and the number of descriptors it leaves registered; `epoll_wait`, the descriptor table and its lookup assertion, timers and signals are not modelled.
- The non-strict build of the URL parser, `url.c`, and the locale-dependent behaviour of `isprint` and `toupper` (the C locale is used).
- `cbuffer.c`: byte buffers of the header parser are plain sequences.
- `http_connection.c`, `http_handler.c`, `asio_stream.c`, listeners, timers and the rest of the runloops: mostly system calls.
- Reason phrases, URL, method and body callbacks of the HTTP parser, and llhttp itself.
- `BufferChain_remove_iter`, `BufferChain_eq_cstr`, `IOBuffer_expand_and_reset`, `IOBuffer_consolidate_space` and the remaining list and header helpers are not modelled.
