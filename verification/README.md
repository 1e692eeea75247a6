# The HTTP/1 data path and the connection pool of actix-web

A Dafny model of the parts of actix-web that move bytes, with proofs of what
they promise. Sockets, byte streams, clocks, handlers and schedules are an
environment that may answer anything; every result holds for all its answers.

- **Body framing** (`BodyDecoder`, `TransferEncoding`, `Framing`): the
  incremental decoder refines a byte-at-a-time automaton, so nothing depends on
  how the input is split, and it reads back what the encoder prints (sections
  3.3.3 and 4.1 of RFC 7230).
- **Receiving a body** (`BodyReader`, `Payload`): connection, decoder, payload
  channel and a receiver that does as it likes.
- **The payload rope and multipart fields** (`Payload`, `Matcher`, `Multipart`,
  `PayloadSafety`): a deque of chunks that behaves like one byte string, the
  delimiter search over it, and the field reader on top (section 5.1.1 of RFC
  2046).
- **Sending a response** (`Decimal`, `Header`, `Replies`, `Writer`, `Pipeline`,
  `Client`, `Transmission`): from the handler's body over the framing choice,
  the rendered head, the shared buffer and the socket to a client that reads
  head and body.
- **Pipelining** (`Scheduler`, `Connection`): the task queue of one connection,
  and the responses of its tasks over one writer (section 6.3.2 of RFC 7230).
- **The client's connection pool** (`Connector`): reservations as tokens, given
  back through queues and collected later.
- **WebSocket masking** (`Mask`): words against bytes (section 5.3 of RFC 6455).

The main results are `Transmission.Deliver` (end to end) and
`Connection.Serve` (pipelined responses over one writer),
`Client.BodyArrivesIff`, `Framing.ChunkedRoundTripFragmented`,
`BodyDecoder.Decoder.Decode` with `BodyDecoder.AnyFragmentation`,
`BodyReader.ReceiveBody`, `Connector.Run`, `Scheduler.Serve` with
`Scheduler.MonotoneIff`, `Multipart.ReadContent`,
`Payload.PayloadHelper.ReadUntil` with `Matcher.FindsFirstIff`, and
`Mask.ApplyMaskFast32`.

## Where the code does less than it seems to promise

Each of these comes with the exact condition, and with an input or a run that
shows it where the property fails. The one exception is marked as one-way.

- Chunk sizes are added up in 64 bits without a check. The model wraps around,
  as the arithmetic of an optimised build does; the decoder still does not
  depend on the split. A size is read as it is written if and only if it is
  below 2^64 (`Framing.SizeReadsBackIff`); 2^64 itself is read as 0
  (`Framing.HugeSizeIsZero`).
- An empty message ends a chunked body. All messages arrive if and only if no
  non-empty one follows an empty one (`Framing.ChunkedKeepsAllIff`).
- A response does not always reach the client as it was made:
  `Client.BodyArrivesIff` says exactly when it does. A body up to the end of the
  connection is not looked for, unless the header fields happen to announce its
  length. The answer to HEAD announces the length of the body it leaves out, and
  the client takes the next response for that body
  (`Client.HeadTakesNextResponse`).
- Without other errors a response fails if and only if its body is shorter than
  the declared length (`Pipeline.EndsIff`, `Transmission.Respond`); a longer one
  is cut.
- The status line has room for three digits. The digits always read back as the
  code, but a fourth one takes the place of the space in front of them: version
  and code stand apart if and only if the code is below 1000
  (`Header.StandApartIff`).
- After a mismatch `read_until` does not compare the current byte again. It
  stops at the first occurrence in every text if and only if all bytes of the
  delimiter are the same (`Matcher.FindsFirstIff`); the end of a header block
  is a delimiter that can be missed (`Matcher.HeaderEndCanBeMissed`).
- A multipart field without a declared length is read back exactly if and only
  if a scan that steps over the delimiter's length at each CR stays inside it
  (`Multipart.FieldExactIff`); a CR at its end is enough to lose it
  (`Multipart.TrailingCrIsLost`).
- `limit_per_host` is documented as a maximum, but `acquire` refuses as soon as
  a host has any reservation within the limit, so a host never gets a second
  one (`Connector.RefusesAsDocumentedIff`, and the run
  `Connector.SecondIsRefused`).
- `collect` enforces the lifetime of idle connections only up to the first
  fresh one (`Connector.LifetimeEnforcedIff`, and the run
  `Connector.OverAgeIsKept`).
- A task that reports its response done without being done itself is given the
  writer again, also after later tasks. The writer goes from task to task if and
  only if that does not happen (`Scheduler.MonotoneIff`); in the run
  `Scheduler.WriterGoesBack` it does.
- Every report resets the writer. In that same run a report comes while a later
  response is under way. What follows of that response goes out unframed, and
  the encoder does not notice. Bytes and encoder are right after the next message
  if and only if framing would have changed neither
  (`Transmission.WriteAfterReset`); the rest of the response is put out, and
  succeeds, as without the reset if and only if `Transmission.Unaffected` holds
  (`Transmission.FinishAfterReset`). One-way: a report comes while a later
  response is under way only if the writer goes back
  (`Scheduler.InterruptMeansBack`); the converse is not claimed.
- After a parse error what is still buffered is dropped, finished responses
  included: nothing is lost if and only if the buffer is empty
  (`Writer.H1Writer.Disconnected`).
- A body is read only while its receiver wants it. With a receiver that does not
  read, no number of polls completes it (`BodyReader.FullReceiverStalls`); it is
  complete once the polls that were served outnumber the blocks of the
  connection, and all are served while the receiver stays and its capacity is
  not reached (`BodyReader.ReceiveBody`).
- The 64-bit accesses of the fast mask are aligned to four bytes, and to eight
  only for some addresses (`Mask.EightAlignedIff`). Its branch for a head of
  more than four bytes cannot be taken (`Mask.HeadAligns`) and is not modelled.
- A body of length 0 is not noticed with the message head but at the next poll
  (`BodyReader.Reader.Decode`).

## Model

| member | source | states |
|---|---|---|
| `BodyDecoder.RunSplit` | src/server/h1.rs:708-757 | stopping a run anywhere and resuming with the rest of the input is the run over all of it: output, state and unread rest |
| `BodyDecoder.AnyFragmentation` | src/server/h1.rs:708-757 | any list of pieces decodes to what their concatenation decodes to, up to the end or the first refused byte |
| `BodyDecoder.PassThrough` | src/server/h1.rs:849-873 | taking up to a whole chunk (or body) at once equals taking it byte by byte |
| `BodyDecoder.Decoder.Length` | src/server/h1.rs:641-646 | a decoder that expects n bytes |
| `BodyDecoder.Decoder.Chunked` | src/server/h1.rs:647-652 | a decoder in front of a chunk size, counting from 0 |
| `BodyDecoder.Decoder.Eof` | src/server/h1.rs:653-658 | a decoder for a body up to the close |
| `BodyDecoder.Decoder.ReadFraming` | src/server/h1.rs:790-847 | each framing byte moves the state and the 64-bit size as the automaton does, and is refused exactly when the automaton refuses it |
| `BodyDecoder.Decoder.ReadBody` | src/server/h1.rs:849-873 | the bulk read of chunk data refines the automaton and keeps the size invariant |
| `BodyDecoder.Decoder.Step` | src/server/h1.rs:772-789 | one step of the chunk machine refines the automaton, uses up input, and keeps the size 0 outside size line and chunk |
| `BodyDecoder.Decoder.Decode` | src/server/h1.rs:708-757 | one call, for every decoder kind and input: data, end, wait or error are those of the automaton, with exactly the rest unread |
| `TransferEncoding.Encoder.Encode` | src/server/encoding.rs:714-756 | the new state, the appended bytes and the end flag of a message, for all three kinds |
| `TransferEncoding.Encoder.EncodeEof` | src/server/encoding.rs:760-770 | the terminator once, and only for chunked |
| `Framing.HexParsesBack` | src/server/h1.rs:790-816 | the printed chunk size is read back as the number |
| `Framing.SizeReadsBackIff` | src/server/h1.rs:790-816 | any string of hexadecimal digits leaves the size it says iff that is below 2^64 |
| `Framing.SizeWraps` | src/server/h1.rs:790-816 | whatever the digits, the size is their value modulo 2^64 |
| `Framing.HugeSizeIsZero` | src/server/h1.rs:790-816 | the size line of 2^64 is read as that of the last chunk |
| `Framing.FrameParsesBack` | src/server/encoding.rs:729-737 | a chunk frame decodes to its message and leaves the decoder fresh |
| `Framing.TerminatorParsesBack` | src/server/encoding.rs:726-728 | the terminator ends the body and leaves what follows |
| `Framing.ChunkedRoundTrip` | src/server/encoding.rs:721-739 | every encoded message list, followed by any suffix, decodes to the messages before the first empty one and leaves the suffix |
| `Framing.ChunkedRoundTripFragmented` | src/server/h1.rs:730-746 | the same for any fragmentation of the bytes |
| `Framing.ChunkedKeepsAllIff` | src/server/encoding.rs:722-728 | everything is delivered iff no non-empty message follows an empty one |
| `Framing.LengthEncodesPrefix` | src/server/encoding.rs:740-754 | the length encoder emits exactly the first n bytes offered, over any messages |
| `Framing.LengthDecodes` | src/server/h1.rs:710-729 | the length decoder takes exactly n bytes and leaves the rest, or waits for what is missing |
| `Framing.LengthRoundTripIff` | src/server/encoding.rs:740-754 | end reached, and round trip, iff at least n bytes were offered |
| `Framing.EofEncodes` | src/server/encoding.rs:716-720 | without framing the body goes out as it is |
| `Framing.EofDecodes` | src/server/h1.rs:747-755 | the decoder for a body up to the close passes everything on |
| `Framing.EndOnce` | src/server/encoding.rs:760-770 | ending the body a second time appends nothing |
| `BodyReader.Io.ReadInto` | src/server/utils.rs:10-31 | bytes read are appended to the buffer and leave the connection, whatever comes first |
| `BodyReader.PayloadInfo.DecodeOne` | src/server/h1.rs:433-456 | one decoder call: data fed to the channel, end and error announced to it |
| `BodyReader.PayloadInfo.DecodeAll` | src/server/h1.rs:431-457 | the buffer is decoded as far as the automaton goes; the channel gets exactly the output |
| `BodyReader.Reader.Decode` | src/server/h1.rs:373-397 | the bytes that came with the head, decoded and fed; end and error are announced to the receiver; an empty buffer is left alone |
| `BodyReader.Reader.Turn` | src/server/h1.rs:412-457 | one read and the decoding of what is there: the whole input so far decodes to what has been fed |
| `BodyReader.Reader.ReadPayload` | src/server/h1.rs:412-465 | one poll: everything up to the first block is read, what was read is decoded exactly; a wait is the connection's, an error the decoder's or the connection's |
| `BodyReader.Reader.PollPayload` | src/server/h1.rs:399-465 | the same behind the receiver's state: served iff the receiver is there and wants to read; otherwise nothing is touched, and an error tells that it is gone |
| `BodyReader.PollStep` | src/server/h1.rs:399-465 | one poll, taken together with everything before it |
| `BodyReader.ReceiverStep` | src/payload.rs:255-291 | whatever the receiver does, what it has taken and what lies in the channel are all that was fed; it is told the end only after everything |
| `BodyReader.ReceiveBody` | src/server/h1.rs:399-465 | over any schedule of polls, reads, put-backs and the receiver's disappearance: bytes taken and channel together are what was fed; complete, that is what the whole body decodes to and the rest is kept; an error is the decoder's, the connection's or a gone receiver's; a receiver told the end has the whole body; complete once served polls outnumber the blocks |
| `BodyReader.FullReceiverStalls` | src/server/h1.rs:406-410 | with a full receiver that does not read, any number of polls leaves a body unread that is there in full |
| `Payload.Inner.SetError` | src/payload.rs:140-145 | only a live receiver is told |
| `Payload.Inner.FeedEof` | src/payload.rs:147-152 | only a live receiver is told |
| `Payload.Inner.FeedData` | src/payload.rs:154-227 | appended for a live receiver; length kept; reading goes on iff below capacity |
| `Payload.Inner.ReadAny` | src/payload.rs:255-286 | first in first out; error and end only after the data, the error once; reading goes on iff the buffer is below capacity again |
| `Payload.Inner.UnreadData` | src/payload.rs:288-291 | puts data back in front |
| `Payload.PayloadHelper.PollStream` | src/payload.rs:317-328 | moves one chunk from the stream into the deque; the value stays |
| `Payload.PayloadHelper.ReadAny` | src/payload.rs:330-342 | the answer followed by the new value is the old value; otherwise nothing is consumed and the stream's own answer is given |
| `Payload.PayloadHelper.CanRead` | src/payload.rs:344-355 | true iff that many bytes are buffered; consumes nothing |
| `Payload.PayloadHelper.GetChunk` | src/payload.rs:357-370 | shows the first chunk; consumes nothing |
| `Payload.PayloadHelper.ReadExact` | src/payload.rs:372-404 | exactly `size` bytes off the front, across chunks, or nothing |
| `Payload.PayloadHelper.DropPayload` | src/payload.rs:406-422 | drops exactly `size` bytes if buffered, else nothing |
| `Payload.PayloadHelper.Copy` | src/payload.rs:424-443 | the first `size` bytes; the value stays |
| `Payload.PayloadHelper.Find` | src/payload.rs:446-472 | the search over chunks finds what the matcher finds in the flat bytes |
| `Payload.PayloadHelper.TakeChunks` | src/payload.rs:474-488 | whole chunks and part of one: taken bytes followed by the rest are the old bytes |
| `Payload.PayloadHelper.ReadUntil` | src/payload.rs:445-498 | for every chunking and delivery, the prefix that one matcher run over the flat value ends at; else nothing is consumed |
| `Payload.PayloadHelper.ReadLine` | src/payload.rs:500-502 | the same up to LF |
| `Payload.PayloadHelper.UnreadData` | src/payload.rs:504-507 | undoes a read |
| `Matcher.MatchSplit` | src/payload.rs:452-473 | a search can be stopped and taken up again at any byte |
| `Matcher.MatchIsOccurrence` | src/payload.rs:452-473 | what is found ends in the delimiter |
| `Matcher.FindsFirstIff` | src/payload.rs:462-468 | first occurrence in every text iff all delimiter bytes are equal |
| `Matcher.HeaderEndCanBeMissed` | src/multipart.rs:140-146 | CR before CRLFCRLF makes the search miss it |
| `Multipart.PieceThenRun` | src/multipart.rs:504-535 | reading piece by piece is reading the field as a whole |
| `Multipart.FieldExactIff` | src/multipart.rs:504-535 | content before its delimiter is read back exactly, stopping at the delimiter, iff it is clean |
| `Multipart.NoLateCrIsClean` | src/multipart.rs:504-535 | no delimiter inside and no CR within its length of the end make content clean |
| `Multipart.TrailingCrIsLost` | src/multipart.rs:504-535 | a content of one CR is not read back, for every boundary |
| `Multipart.ReadLen` | src/multipart.rs:479-500 | part of a field of known length; nothing lost, the rest of the chunk put back, end iff 0 bytes remain |
| `Multipart.ReadAtCr` | src/multipart.rs:511-527 | in front of a CR: as many bytes as the delimiter has, or the end if they are the delimiter; nothing lost |
| `Multipart.ReadStream` | src/multipart.rs:504-535 | the next piece of the flat value; end only in front of the delimiter; nothing lost or duplicated; it waits only when what has arrived is not enough |
| `Multipart.InnerField.Create` | src/multipart.rs:452-475 | the declared length is the number in the Content-Length header; refused iff that is not a number |
| `Multipart.InnerField.NextPiece` | src/multipart.rs:542-547 | the piece followed by what is still pending is what was pending |
| `Multipart.InnerField.SkipLine` | src/multipart.rs:552-563 | behind the field the rest of the line is skipped, which before a boundary is its CRLF |
| `Multipart.InnerField.Poll` | src/multipart.rs:537-574 | only a current handle reads; pieces and end as above; it waits only when what has arrived is not enough |
| `Multipart.ReadPart` | src/multipart.rs:537-574 | one poll: parts and what is pending stay the content; with everything at hand a current poll brings a byte or the end |
| `Multipart.ReadField` | src/multipart.rs:537-574 | over any schedule the parts are a prefix of the content, and all of it once the end is answered; with everything at hand the end comes after more current polls than there are bytes |
| `Multipart.ReadContent` | src/multipart.rs:537-574 | polled to its end, a field has delivered exactly its content iff that is clean; a clean one with everything at hand ends after more current polls than it has bytes |
| `PayloadSafety.Safety.Counted` | src/multipart.rs:623-631 | a new handle is on top |
| `PayloadSafety.Safety.Clone` | src/multipart.rs:638-647 | a clone of any handle takes the next level |
| `PayloadSafety.Safety.Drop` | src/multipart.rs:649-659 | only the handle on top goes without a panic; the count falls in any case |
| `PayloadSafety.Safety.GetMut` | src/multipart.rs:591-602 | the payload is handed to the last live handle and to no other |
| `PayloadSafety.OneIsCurrent` | src/multipart.rs:633-636 | exactly the last live handle is current |
| `PayloadSafety.Users` | src/multipart.rs:591-602 | of all live handles exactly the last gets the payload |
| `PayloadSafety.Run` | src/multipart.rs:617-659 | over every run of clones and drops without a panic, one live handle and no other gets the payload |
| `Decimal.DigitsReadBack` | src/server/helpers.rs:194-243 | the numeral has digits only, no leading zero, and reads back as the number |
| `Decimal.ConvertUsize` | src/server/helpers.rs:194-243 | every 64-bit number: the numeral and CRLF, within the 41 bytes |
| `Decimal.WriteContentLength` | src/server/helpers.rs:146-192 | all four branches print the same line |
| `Header.WriteStatusLine` | src/server/helpers.rs:98-144 | version, space, three digits, space; with a fourth digit in place of the first space and one space more at the end |
| `Header.CodeReadsBack` | src/server/helpers.rs:117-138 | the three or four digits are the code in decimal |
| `Header.StandApartIff` | src/server/helpers.rs:115-143 | version and code are separated iff the code is below 1000 |
| `Header.PutLine` | src/server/h1writer.rs:181-198 | one line at the counted position, in bounds, also across a new reservation |
| `Header.RenderFields` | src/server/h1writer.rs:168-200 | exactly the concatenated lines, without the first Content-Length of a binary body; tells if there was a Date |
| `Replies.ParsesBack` | src/server/encoding.rs:520-527 | a printed length is parsed back |
| `Writer.H1Writer.WriteData` | src/server/h1writer.rs:76-94 | the socket gets exactly what its answers take: all of it, or up to a block, a close or a failure |
| `Writer.H1Writer.Prepare` | src/server/h1writer.rs:103-132 | framing, flags and Connection header of the response |
| `Writer.H1Writer.RenderHead` | src/server/h1writer.rs:135-210 | the buffer gains exactly the head |
| `Writer.H1Writer.Start` | src/server/h1writer.rs:103-222 | head and, for a binary body, its framed form are appended; nothing is sent yet |
| `Writer.H1Writer.Write` | src/server/h1writer.rs:224-255 | socket bytes followed by the buffer grow by exactly the framed message, also over the direct path of an upgraded connection |
| `Writer.H1Writer.WriteEof` | src/server/h1writer.rs:257-270 | grows by the end of the body; fails iff the encoder expects more |
| `Writer.H1Writer.PollCompleted` | src/server/h1writer.rs:272-287 | moves exactly what the socket takes from buffer to socket, without loss or reordering; ready iff the buffer is within its capacity |
| `Writer.H1Writer.Disconnected` | src/server/h1writer.rs:71-73 | the buffer is dropped; nothing put out is lost iff it was empty |
| `Pipeline.UnlimitedEnds` | src/pipeline.rs:656-668 | without a declared length a body can always be ended |
| `Pipeline.EndsIff` | src/server/h1writer.rs:257-270 | a body can be ended iff it has at least its declared length, if any |
| `Pipeline.ProcessResponse.Give` | src/pipeline.rs:534-545 | one message more is on the wire in framed form |
| `Pipeline.ProcessResponse.End` | src/pipeline.rs:657-665 | the body's end is on the wire once, however often it is asked for; refused iff the body is short of its length |
| `Pipeline.ProcessResponse.GiveFrames` | src/pipeline.rs:566-598 | an actor's frames up to the end frame, in order; without an I/O error it fails only at that frame and short of the length |
| `Pipeline.ProcessResponse.StepResponse` | src/pipeline.rs:472-522 | the head, and the body that is already there |
| `Pipeline.ProcessResponse.StepPayload` | src/pipeline.rs:523-555 | one stream poll: messages sent followed by those to come stay all messages; without errors it gives up only short of the length |
| `Pipeline.ProcessResponse.StepActor` | src/pipeline.rs:556-619 | the same for one actor poll, with drains |
| `Pipeline.ProcessResponse.RunInner` | src/pipeline.rs:470-630 | the inner loop keeps the wire right and ends; a pause or drain has made progress; without errors it fails only short of the length |
| `Pipeline.ProcessResponse.Flush` | src/pipeline.rs:633-652 | after a flush work goes on |
| `Pipeline.ProcessResponse.Round` | src/pipeline.rs:470-652 | one turn of the outer loop, with its flush, keeps the wire right and makes progress if it starts over |
| `Pipeline.ProcessResponse.Conclude` | src/pipeline.rs:655-670 | completed iff the source is over and the declared length is reached; failed iff over and short of it |
| `Pipeline.ProcessResponse.Drive` | src/pipeline.rs:467-670 | completed only with all sent, the body ended and its length reached; pending only after progress, with a source that is dry or a buffer above its capacity; without errors it fails only with all sent and short of the length |
| `Pipeline.ProcessResponse.PollIo` | src/pipeline.rs:464-671 | the same for one poll, from the head on |
| `Client.HeadShowsSeen` | src/server/h1writer.rs:152-208 | the rendered head is one line for every field the client sees |
| `Client.PlanHeaders` | src/server/encoding.rs:499-560 | the headers left by the framing choice announce exactly that framing, or the reply forbids chunked coding and they stay as they were |
| `Client.StreamingChoice` | src/client/parser.rs:164-184 | the client decides by the header fields that the server's choice leaves, also for HEAD |
| `Client.KnownLengthChoice` | src/client/parser.rs:164-184 | an empty or binary body is read by its length, with status 101 to the close |
| `Client.StreamedBodyIff` | src/server/encoding.rs:714-756 | when each encoder's output is read back by its own decoder |
| `Client.ChunkedOverhead` | src/server/h1.rs:772-873 | a body that a chunked decoder ends is longer than what it carries |
| `Client.UnframedArrivesIff` | src/client/parser.rs:164-184 | bytes sent as they are arrive iff the fields announce just as many |
| `Client.HeadArrivesIff` | src/server/encoding.rs:367-560 | the answer to HEAD is read back iff it announces no body |
| `Client.StreamedArrivesIff` | src/server/encoding.rs:499-560 | a streamed body arrives iff chunked coding loses none of it, or its exact length is announced |
| `Client.BodyArrivesIff` | src/server/encoding.rs:367-560 | for every request, reply and body: the client gets exactly the body and stops at its end iff the framing carries it |
| `Client.HeadTakesNextResponse` | src/server/encoding.rs:446-452 | the answer to HEAD with a non-empty body makes the client read the next response as that body |
| `Transmission.PollOn` | src/pipeline.rs:464-671 | any number of polls and flushes keep the response right, and as many polls as the source has answers, not counting blocked ones, use it up; without errors it fails only short of the length |
| `Transmission.Respond` | src/pipeline.rs:464-671 | for every schedule a completed response has put out its head, with the Connection line that reply or request ask for, and its framed body, nothing else, and its length is reached; without errors it fails only if the whole body is shorter than declared |
| `Transmission.WriteAfterReset` | src/server/h1writer.rs:224-255 | a message after a reset in the middle of a response goes out unframed and leaves the encoder; both are as they should be iff framing would have changed neither |
| `Transmission.UnaffectedIff` | src/server/encoding.rs:714-770 | for every framing and rest of a body: unframed messages and the end give the right bytes and the right success iff the rest is unaffected |
| `Transmission.FinishAfterReset` | src/server/h1writer.rs:224-270 | the whole rest of a response after a reset: what is put out, whether the end succeeds, and exactly when both are as without the reset |
| `Transmission.Deliver` | src/pipeline.rs:464-671 | once flushed, the socket has head and body, and a client reads exactly the handler's bytes iff the framing carries them, for every request, reply and body |
| `Scheduler.Http1.Arrive` | src/server/h1.rs:145-172 | a request joins the queue at its end |
| `Scheduler.Http1.GiveWriter` | src/server/h1.rs:229-266 | the log, the flags and the order invariant after each answer of a task with the writer |
| `Scheduler.Http1.VisitTask` | src/server/h1.rs:217-278 | one turn of the loop, all three branches; while the writer is free, all earlier tasks have reported |
| `Scheduler.Http1.Turn` | src/server/h1.rs:217-278 | one turn with the answers it takes is one step of the loop's specification |
| `Scheduler.Http1.Cleanup` | src/server/h1.rs:281-292 | exactly the leading tasks that are over leave, in order |
| `Scheduler.Http1.RunTasks` | src/server/h1.rs:214-278 | the loop computes its specification and keeps the order invariant; unless it stops early every task has reported up to one that has just been given the writer |
| `Scheduler.Http1.ReadRequests` | src/server/h1.rs:136-210 | arriving requests keep the order invariant |
| `Scheduler.Http1.PollIo` | src/server/h1.rs:134-295 | one poll, with its repetition after a cleanup, computes its specification on the whole state and keeps the order invariant |
| `Scheduler.Serve` | src/server/h1.rs:134-295 | over every run: writer given only when all earlier tasks have reported, never after reporting done, and reports come only from its holder; tasks leave in arrival order after reporting done |
| `Scheduler.OrderlyAt` | src/server/h1.rs:214-292 | what the order invariant says of each happening at its time |
| `Scheduler.MonotoneIff` | src/server/h1.rs:240-245 | the writer goes from task to task iff no task takes it back after a report that left it unfinished |
| `Scheduler.InterruptMeansBack` | src/server/h1.rs:229-246 | a report, and so a reset, comes while a later response is under way only if the writer goes back (one way) |
| `Scheduler.WriterGoesBack` | src/server/h1.rs:243-245 | a run of two polls in which the writer goes back and a reset interrupts a later response |
| `Connection.PollResponse` | src/server/h1.rs:229-246 | one poll of a response: it stays right, or is complete with its full form added and the writer reset; on a healthy socket it fails only with a faulty source or a body too short |
| `Connection.Continue` | src/server/h1.rs:229-246 | the same among all responses: one more is on the wire in full, or the next is under way |
| `Connection.Channel.AskAgain` | src/pipeline.rs:174-190 | a task whose response is complete: its report leaves the wire right unless a later response is under way |
| `Connection.Channel.AskNext` | src/pipeline.rs:155-190 | the task of the next response: not yet, under way, complete, or failed |
| `Connection.Channel.GiveTo` | src/server/h1.rs:229-266 | only a task that is complete or the next one is given the writer; wire and log stay in step |
| `Connection.Channel.Turn` | src/server/h1.rs:217-278 | one turn of the task loop with real responses, all branches |
| `Connection.Channel.RunTasks` | src/server/h1.rs:214-278 | the task loop keeps wire and order; unless it stops early, all responses asked for are complete, or a task has been given the writer and keeps it |
| `Connection.Channel.Read` | src/server/h1.rs:136-210 | arrivals keep the wire; a parse error loses what is buffered iff something is |
| `Connection.Channel.PollIo` | src/server/h1.rs:134-306 | one poll: reading, task loop, cleanup and flush |
| `Connection.Serve` | src/server/h1.rs:134-306 | over every run with any handlers, peer and socket: as long as the connection is open, the wire holds the full forms of the complete responses, back to back in the order of the requests, and what the next has put out; it is interrupted only if the writer goes back, loses data only at a parse error, and fails on a healthy socket only by a faulty source or a short body |
| `Connector.ReserveBalances` | src/client/connector.rs:423-432 | a reservation keeps the counters equal to what is out |
| `Connector.ReleaseBalances` | src/client/connector.rs:434-447 | giving one back does too, never underflows and never finds its host missing |
| `Connector.SumIsTotal` | src/client/connector.rs:423-447 | the total is the sum over the hosts |
| `Connector.ReserveLimited` | src/client/connector.rs:370-392 | a reservation that is not refused stays within the limits |
| `Connector.RefusesAsDocumentedIff` | src/client/connector.rs:335-343 | the limit per host works as documented iff it is at most one or the host has no reservation |
| `Connector.SecondIsRefused` | src/client/connector.rs:370-392 | a run with a limit of two per host whose second request has to wait |
| `Connector.NothingOverdueLeft` | src/client/connector.rs:485-498 | stopping at the first fresh connection leaves none idle beyond keep-alive |
| `Connector.LifetimeEnforcedIff` | src/client/connector.rs:485-498 | none past its lifetime is left iff none stands behind a fresh one |
| `Connector.OverAgeIsKept` | src/client/connector.rs:449-498 | a run that keeps a connection past its lifetime behind a fresh one |
| `Connector.Pool.Close` | src/client/connector.rs:1126-1132 | any connection becomes a queue entry, and is announced |
| `Connector.Pool.Release` | src/client/connector.rs:1134-1140 | the same for a returned connection |
| `Connector.Pool.ReleaseKey` | src/client/connector.rs:1142-1148 | the same for a dropped reservation |
| `Connector.AcquiredConn.Take` | src/client/connector.rs:1054-1075 | the reference to the pool is there once; taking it closes this token and no other |
| `Connector.AcquiredConn.Close` | src/client/connector.rs:1057-1061 | an open token becomes a queue entry, so what is owed stays; a used one does nothing |
| `Connector.AcquiredConn.Release` | src/client/connector.rs:1062-1066 | the same, with the connection to be returned |
| `Connector.AcquiredConn.Drop` | src/client/connector.rs:1069-1075 | the same, with the bare reservation |
| `Connector.ClientConnector.Reserve` | src/client/connector.rs:423-432 | the two counters |
| `Connector.ClientConnector.ReleaseKey` | src/client/connector.rs:434-447 | the two counters, the host removed at zero |
| `Connector.ClientConnector.TakeAvailable` | src/client/connector.rs:393-420 | the newest usable idle connection of the host, or its queue is used up; other hosts untouched |
| `Connector.TakeIdle` | src/client/connector.rs:397-417 | the loop gives what a recursion from the back gives: what is left, found and set aside for closing |
| `Connector.PickedIsUsable` | src/client/connector.rs:397-417 | what is found stood right behind what is left and is neither overdue nor too old; if nothing is found nothing is left |
| `Connector.ClientConnector.Full` | src/client/connector.rs:371-389 | both branches of the limit test decide the same |
| `Connector.ClientConnector.Acquire` | src/client/connector.rs:370-421 | refused iff the limits say so; else one reservation more, with an idle connection if a usable one is left |
| `Connector.ClientConnector.Mint` | src/client/connector.rs:679-704 | a reservation becomes a token that refers to the pool; the books agree again |
| `Connector.ClientConnector.TakeBack` | src/client/connector.rs:452-483 | everything given back is subtracted and the queues are empty |
| `Connector.ClientConnector.ReturnAll` | src/client/connector.rs:469-482 | young returned connections join their queues in time order |
| `Connector.ExpireFront` | src/client/connector.rs:486-497 | pops exactly the stale front of a queue |
| `Connector.ClientConnector.ExpireAll` | src/client/connector.rs:485-498 | every queue loses its stale front and stays sorted |
| `Connector.ClientConnector.Collect` | src/client/connector.rs:449-514 | queues empty, counters right, nothing idle beyond keep-alive |
| `Connector.Obtain` | src/client/connector.rs:678-704 | a token for a reuse or a new connection, or a wait iff the limits refuse |
| `Connector.Connect` | src/client/connector.rs:620-704 | an invalid address or an unsupported secure protocol is refused, before anything else; otherwise reuse, open or wait, with a new token exactly in the first two cases of a pooled protocol |
| `Connector.ServeOne` | src/client/connector.rs:841-855 | one waiter: a token that joins those handed out, or none |
| `Connector.Serve` | src/client/connector.rs:836-852 | waiters are served in order, one new token each, until one is refused, who stays in front |
| `Connector.UseToken` | src/client/connector.rs:1054-1075 | whatever a user does with a token that was handed out, for the first time or again, what is owed stays |
| `Connector.Run` | src/client/connector.rs:370-852 | over every run, in which any token ever handed out may be used any number of times: count of each host = tokens that still refer to the pool plus queue entries, total = sum over hosts, both limits hold, and waiting entries are announced |
| `Mask.KeyXor` | src/ws/mask.rs:78-82 | combining words combines their bytes, in both byte orders |
| `Mask.RotatedAt` | src/ws/mask.rs:38-42 | the turned mask continues the mask at any offset |
| `Mask.MaskTwice` | src/ws/mask.rs:15-19 | masking twice is the identity |
| `Mask.ApplyMaskFallback` | src/ws/mask.rs:15-19 | each byte combined with the mask byte at its position modulo four |
| `Mask.XorMem` | src/ws/mask.rs:98-105 | fewer than four bytes, whatever the rest of the word holds |
| `Mask.MaskWords64` | src/ws/mask.rs:63-75 | the 8-byte blocks, in bounds and 4-byte aligned |
| `Mask.MaskWords32` | src/ws/mask.rs:78-84 | the 4-byte blocks, in bounds and aligned |
| `Mask.ApplyMaskFast32` | src/ws/mask.rs:24-92 | same bytes as the simple form, for every length, address, mask and byte order |
| `Mask.HeadAligns` | src/ws/mask.rs:29-56 | the head is shorter than four bytes and ends at an aligned address |
| `Mask.EightAlignedIff` | src/ws/mask.rs:63-75 | when the 64-bit accesses are 8-byte aligned |

## Left out

- Sockets, TLS, name resolution, timers, actors and task notification: they are answers of the environment.
- Parsing of request and response heads, and header values beyond the three that decide the framing.
- Compression: only the identity content encoding is modelled.
- HTTP/2, cookies, routing, middleware, extractors, sessions and static files.
- Header.WriteStatusLine: codes from 10000 on, where the program reads past its table of digits; the status type of the http crate is not part of this model.
- Payload.PayloadHelper.ReadExact: asking an empty buffer for 0 bytes, where the program panics.
- Payload.PayloadHelper.ReadUntil: an empty delimiter, where the program panics.
- PayloadSafety.Run: a run ends with the first panic.
- Connection.Serve: a run ends with the first interruption, loss or failure; Transmission.FinishAfterReset says what an interrupted response becomes. Tasks are not told of a disconnection.
- BodyReader.ReceiveBody: the receiver does not change its capacity on the way, and puts back only bytes that it has taken.
- Scheduler.Http1.ReadRequests: no bound on the number of queued requests, since the limit is looked at only before the parse loop.
- Scheduler.Http1.RunTasks: the keep-alive timer and the shutdown of the connection after an error are not modelled; the loop just stops.
- Connector.Run: stats, the pause timer, wait timeouts with their swap removal, and the shutdown of connections already set aside for closing are not modelled; a failed connection attempt is a token that is dropped.
- The multipart stream around the fields (boundary search, part headers, nesting).
- Finishing states of the pipeline after the response, and the actor context kept for them.
- The pools of shared buffers and messages, and the capacity that `put_slice` relies on.
