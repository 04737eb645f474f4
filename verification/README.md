# netb in Dafny

A model of the hard logic of netb, a small C++ network library, with proofs of what that
logic promises: the byte buffer, the incremental HTTP parser and printer, the DNS codec,
the socket selector, the event loop with its handlers, and the sending side of the
asynchronous sockets. `dafny verify dfyconfig.toml` checks everything.

| file | what it models |
|---|---|
| `Bytes.dfy` | octets, network-order integers, substring search |
| `StreamBuffer.dfy`, `Streams.dfy` | the growing and reclaiming buffer, its typed readers and writers |
| `StreamRuns.dfy` | runs of buffer operations against a plain byte stream |
| `HttpText.dfy`, `HttpParser.dfy`, `HttpPrinter.dfy` | text conversions, the resumable parser, the printer |
| `HttpPipeline.dfy`, `HttpBacklog.dfy`, `HttpMessage.dfy` | a connection carrying many messages, how much of it has to be held, the message object |
| `DnsName.dfy`, `DnsMessage.dfy` | names with compression, records and messages as values with their wire form |
| `DnsSpelling.dfy` | what a message looks like on the wire, and that exactly this is read |
| `DnsCodec.dfy`, `DnsObject.dfy` | the serialisation code over a buffer, the message object |
| `Selector.dfy` | heap and bit sets of `SocketSelector` |
| `EventLoopSteps.dfy` | event loop and handlers as a step relation over all their threads |
| `EventLoopSafety.dfy`, `EventLoopLife.dfy`, `EventLoopRuns.dfy` | the invariants of that relation |
| `EventLoopTraces.dfy`, `EventLoopTheorems.dfy` | the promises of the loop over every run, and the runs that need a condition |
| `EventLoopProgress.dfy` | what every turn of the loop gets done |
| `EventLoopCalls.dfy` | what each call on the loop and on a handler comes to |
| `EventLoopObject.dfy` | the loop's tables and the handlers as objects |
| `AsyncTcp.dfy`, `AsyncUdp.dfy` | outgoing byte stream and outgoing datagram queue |

Classes whose methods update fields are classes here; a `std::vector` they reassign is a
field of type `seq`. A method is tied to a function of the old state, and what the library
promises is proved of that function, over all inputs or all runs. The event loop is a
state machine: a step is one critical section, one access to a shared flag or one byte on
the wakeup pipe, and every interleaving of steps is a run. The kernel is a parameter:
`send` may return any number in its range, `select` any part of the interest, and the pipe
is a counter.

## Where the code departs from its intention

Where a line plainly differs from what its surroundings intend, the main results are about
the intended line. The line as it stands has its own function, whose name starts with
`Coded`, and a lemma with the exact condition under which the two agree.

- `Reclaim` stops the rotation at `_wpos - _opos` instead of `_wpos`
  (netb/StreamBuffer.hpp:371-372): `CodedReclaimKeepsLive`, `CodedReclaimLosesBytes`.
- `Flush(n)` can leave the read cursor behind the origin (netb/StreamBuffer.hpp:111-120); the
  model moves it along: `CodedFlushIsRight`.
- Assignment copies from the origin of the target (netb/StreamBuffer.cpp:78):
  `CodedAssignCopiesLive`.
- The delimiter search stops at any byte of the delimiter (netb/StreamBuffer.cpp:129), an
  empty line keeps its delimiter, and a delimiter still arriving loses the line
  (netb/StreamReader.cpp:185-197): `CodedReadLineIsRight`, `CodedReadLineFails`.
- The unsigned 32-bit write emits two octets (netb/StreamWriter.cpp:104-109; on a
  little-endian machine they are the upper two): `CodedPutU32IsShort`,
  `CodedARecordRefused`.
- `len & 63 << 8` is always 0 (netb/DnsRecord.cpp:183): `CodedOffsetIsRight`.
- RDLENGTH is added to its old value (netb/DnsRecord.cpp:84) and the CNAME reader counts
  from an uninitialised variable (netb/DnsRecord.cpp:296): `CodedRDLengthIsRight`,
  `CodedCnameIsRight`.
- `RemoveHandler` erases an entry and then gives the selector the key of the next one
  (netb/EventLoop.cpp:132-133): `CodedRemovedIsRight`, `CodedRemovedFails`.
- `Reset` frees the body when there is none (netb/HttpMessage.cpp:50): `CodedResetIsFresh`.
- A missing Content-Length builds a string from a null pointer (netb/HttpMessage.cpp:121); it
  counts as 0 here: `CodedContentLengthIsRight`.

Some promises of comments and of the design hold only under a condition. These are modelled
as coded, and the condition is proved:

- A functor queued on the loop thread before `Run` writes no byte: in a sleeping loop exactly
  those functors wait (`NoLostWakeup`, `QueuedBeforeRun`). A `Stop` before `Run` is overwritten
  (`StopBeforeRun`). A `Detach` before the attach ran returns at once and the handler is
  attached afterwards (`DetachIsolates`, `DetachTooEarly`).
- A callback may detach another handler of the loop thread exactly when that one is not still
  to be called back for; otherwise the loop runs into its assertion (`DetachInCallback`,
  `CallbackDetachesOther`).
- The TCP comment promises that what cannot be sent is buffered. A direct send that fails is
  not, because -1 is compared as an unsigned number (`AsyncTcp.SendGivesUp`), and because
  sent bytes are never flushed, a connection accepts no more than the limit of its buffer
  after the first buffered byte (`AsyncTcp.BufferNeverDrains`).
- An empty datagram is dropped by the loop thread when a queue waits, and sent over and over by the
  write event. A datagram the kernel splits is sent twice, in part and whole, by a direct send,
  and loses its rest in the write event (`AsyncUdp.SendConserves`, `AsyncUdp.DrainConserves`,
  `AsyncUdp.EmptyDatagramRepeats`).
- `HttpMessage.ToBuffer` ignores whether the blank line was written; its contract says
  exactly when it reports success without it.
- A request without a URL is accepted and prints as one whose URL is the version. A response
  without a phrase and with a code outside the table, and a message with an empty key, are
  accepted and cannot be printed: the source makes a string from a null pointer
  (netb/HttpMessage.cpp:453) or looks at the last character of an empty string
  (netb/StreamWriter.cpp:136). `HttpPipeline.ReparseLaw` has the exact condition,
  `HttpPipeline.UnknownCode` and `HttpPipeline.EmptyKey` the inputs, and
  `HttpMessages.HttpMessage.ToBuffer` says when the source gets as far as failing.
- The offset a write returns counts from the container, peeking and patching count from the
  origin (`StreamRuns.WriteThenPeekAnywhere`). So a record is patched in its place exactly when
  the origin is 0, or writing up to there makes the buffer move to its front; both can be told
  before the call (`DnsCodec.WriteRecord`, `DnsObject.DnsMessage.ToBuffer`).
- Labels of more than 63 octets are accepted from text and packed, and do not come back
  (`DnsNames.NameRoundTrip`, `DnsMessages.MessageRoundTrip`). Packing drops a label that is a
  single dot, and an MX name whose length wraps 16 bits is refused when read back
  (`DnsMessages.ReencodeLaw`).

Assertions are live in the build. Where one can fail on input, the failure is an outcome of
its own: the phase `ABORTED` of the HTTP parser on a header line without a colon, the phase
`Aborted` of the event loop on a socket without a handler, and `asserted` at the target of a
compression pointer that holds another pointer (`DnsCodec.FollowPointer`). The DNS reader has
no state that outlives the call, so above that method the failed assertion counts as a
refusal: no name is delivered.

## Model

| member | source | states |
|---|---|---|
| StreamBuffers.StreamBuffer.Reserve | netb/StreamBuffer.hpp:160-184 | room for n bytes is granted if and only if live bytes plus n stay within the limit; granted means n bytes of room; live bytes and read position are untouched by growth and rotation |
| StreamBuffers.StreamBuffer.Write | netb/StreamBuffer.cpp:87-92 | appends all or nothing, exactly under the same admission, and returns the index of the first byte; the container never exceeds the limit |
| StreamBuffers.StreamBuffer.Read | netb/StreamBuffer.cpp:135-140 | delivers the next n unread bytes or, when there are fewer, nothing |
| StreamBuffers.StreamBuffer.Reclaim | netb/StreamBuffer.hpp:369-376 | the rotation frees the front and loses no accessible byte |
| StreamBuffers.StreamBuffer.Flush | netb/StreamBuffer.hpp:125-133 | drops exactly the bytes already read, and resets the cursors when none is left |
| StreamBuffers.StreamBuffer.FlushN | netb/StreamBuffer.hpp:111-120 | drops the first n live bytes, read or not, or refuses and changes nothing; the read position follows |
| StreamBuffers.StreamBuffer.Peek | netb/StreamBuffer.cpp:165-172 | shows exactly the bytes at an offset from the origin, and fails exactly past the end |
| StreamBuffers.StreamBuffer.Update | netb/StreamBuffer.cpp:175-182 | replaces those bytes and no others, and fails exactly past the end |
| StreamBuffers.StreamBuffer.Copy | netb/StreamBuffer.cpp:50-58 | a copy has the accessible bytes, unread, at origin 0 |
| StreamBuffers.StreamBuffer.Filled | netb/StreamBuffer.cpp:36-47 | a buffer made from bytes has exactly those, unread |
| StreamBuffers.StreamBuffer.Assign | netb/StreamBuffer.cpp:75-84 | an assignment has the accessible bytes and the read position of the other buffer |
| StreamBuffers.CodedReclaimKeepsLive | netb/StreamBuffer.hpp:369-376 | the rotation as written keeps the live bytes exactly when the flushed bytes equal the last ones written |
| StreamBuffers.CodedReclaimLosesBytes | netb/StreamBuffer.hpp:369-376 | a three-byte buffer in which it alters them |
| StreamBuffers.CodedAssignCopiesLive | netb/StreamBuffer.cpp:75-84 | for a container of any size, the assignment as written copies the right bytes whatever the contents exactly when both origins are equal |
| StreamBuffers.CodedFlushIsRight | netb/StreamBuffer.hpp:111-120 | the flush as written keeps the cursors in order exactly when the bytes dropped were read, or all are dropped, or it refuses |
| StreamRuns.Perform | netb/StreamBuffer.hpp:97-202 | each operation on the buffer is that operation on a plain bounded byte stream |
| StreamRuns.PerformAll | netb/StreamBuffer.hpp:97-202 | any interleaving of writes, reads, flushes of any kind, growth and updates has the outputs and final state of the same run on the plain stream |
| StreamRuns.Conservation | netb/StreamBuffer.hpp:97-202 | over any run without updates, bytes at the start plus bytes accepted equal bytes flushed plus live bytes, and what was delivered or flushed unread is a stretch of them in order |
| StreamRuns.PassedIsDelivered | netb/StreamBuffer.hpp:111-133 | that stretch is exactly what reads delivered if and only if nothing was flushed unread |
| StreamRuns.AppendingKeepsPrefix | netb/StreamBuffer.hpp:160-202 | without a flush, live bytes only grow at the end over any run |
| StreamRuns.WriteThenPeek | netb/StreamBuffer.hpp:282-308 | at origin 0 the offset returned by a write still shows the written bytes after any later run of writes, growth and reads |
| StreamRuns.WriteThenPeekAnywhere | netb/StreamBuffer.hpp:196-202 | right after a write, the returned offset can be peeked exactly when the origin is 0 |
| Streams.ReadU16 | netb/StreamReader.cpp:103-110 | the next two unread octets in network order, all or nothing |
| Streams.ReadU32 | netb/StreamReader.cpp:123-130 | the next four unread octets in network order, all or nothing |
| Streams.ReadString | netb/StreamReader.cpp:157-167 | the next n unread bytes, all or nothing |
| Streams.ReadUntil | netb/StreamReader.cpp:185-197 | the bytes before the first whole delimiter, consuming it; nothing is consumed when it has not arrived |
| Streams.WriteU16 | netb/StreamWriter.cpp:90-95 | appends two octets in network order, exactly when they fit |
| Streams.WriteU32 | netb/StreamWriter.cpp:97-109 | appends four octets in network order, exactly when they fit |
| Streams.PeekString | netb/RandomReader.cpp:155-162 | n bytes at an offset from the origin without moving, refused exactly past the end |
| Streams.UpdateU16 | netb/RandomWriter.cpp:96-101 | overwrites two octets at an offset and nothing else |
| Streams.CodedReadLineIsRight | netb/StreamBuffer.cpp:125-132 | the line read as written is the line read meant exactly when fewer than two bytes are unread, or no delimiter byte has arrived, or the first one starts a whole delimiter after a non-empty line |
| Streams.CodedReadLineFails | netb/StreamReader.cpp:185-197 | a blank line is left in the buffer and a half-arrived delimiter loses the line |
| Streams.CodedPutU32IsShort | netb/StreamWriter.cpp:104-109 | the 32-bit write as written yields two octets, never the four a reader needs |
| Bytes.FindIsFirst | netb/StreamBuffer.cpp:125-132 | the search finds the first whole delimiter |
| Bytes.FindStable | netb/StreamBuffer.cpp:125-132 | bytes that arrive later do not move a delimiter already found |
| Bytes.NetworkOrder | netb/StreamWriter.cpp:83-109 | integers have their most significant octet first |
| HttpText.PrintIntRoundTrip | netb/HttpMessage.cpp:426-455 | a printed status code is read back, for every integer, and is one word |
| HttpText.ExtractWord | netb/HttpMessage.cpp:313-331 | a word before a space or the end is extracted whole |
| HttpText.ExtractBehindSpace | netb/HttpMessage.cpp:313-323 | any space in front of a word is skipped |
| HttpText.ParseIntReads | netb/HttpMessage.cpp:119-126 | a number is read behind any space, with any sign, up to what is no digit |
| HttpText.ParseIntOfNone | netb/HttpMessage.cpp:119-126 | text that starts with no number reads as 0 |
| HttpParser.StartResume | netb/HttpMessage.cpp:216-225 | the first line is parsed the same whether it arrives at once or in two parts |
| HttpParser.HeaderResume | netb/HttpMessage.cpp:229-248 | so are the header lines, cut anywhere, also inside a line break |
| HttpParser.BodyResume | netb/HttpMessage.cpp:251-260 | so is the body |
| HttpParser.ContentLengthReads | netb/HttpMessage.cpp:104-126 | the length is the number in the first header of that key, behind any space and in front of anything that is no digit, within the bounds of a `long` and converted to unsigned; without the header it is 0 |
| HttpParser.HeaderLineCut | netb/HttpMessage.cpp:241-246 | a header line is cut at its first colon, neither side is trimmed, and it replaces the first header of that key or is appended |
| HttpParser.HeaderLineAborts | netb/HttpMessage.cpp:242-243 | a header line without a colon ends the parser |
| HttpParser.RequestWords | netb/HttpMessage.cpp:313-323 | a request line sets the words it has, with any space between them, and ignores a fourth |
| HttpParser.StatusWords | netb/HttpMessage.cpp:426-445 | a status line without a space changes nothing, and one with one space sets the version |
| HttpParser.CodedContentLengthIsRight | netb/HttpMessage.cpp:104-126 | the length as written is the length meant exactly when a header has that key |
| HttpParser.FeedResume | netb/HttpMessage.cpp:199-211 | feeding a part and then the rest reaches the same message and the same leftover bytes as feeding everything |
| HttpPipeline.ChunkIndependence | netb/HttpMessage.cpp:199-260 | any chunks, with a call after each and a reset after each message, give the messages, parser state and leftover of their concatenation |
| HttpPipeline.BackToBack | netb/HttpMessage.cpp:40-59 | printed messages sent back to back to a new or reset parser are parsed into those messages in order with nothing left |
| HttpPipeline.Pipelining | netb/HttpMessage.cpp:172-260 | the same for every cut of the printed bytes into chunks |
| HttpPipeline.SetHeaderShape | netb/HttpMessage.cpp:71-85 | setting a header replaces the value of the first equal key or appends, and changes nothing else |
| HttpPipeline.FeedSound | netb/HttpMessage.cpp:229-260 | whatever bytes arrive, headers are distinct and printable and a completed body has the length Content-Length gives |
| HttpPipeline.ReparseLaw | netb/HttpMessage.cpp:172-260 | any message that completes from any bytes, on a new or reset parser, is printed and parsed into itself with the phrase printed for it, leaving exactly what follows, if and only if a request has a URL, a response has a phrase of one line of its own or in the table, and no key is empty |
| HttpPipeline.UnknownCode | netb/HttpMessage.cpp:426-455 | a status line without phrase whose code the table does not know is accepted and cannot be printed |
| HttpPipeline.EmptyKey | netb/HttpMessage.cpp:241-246 | a header line without key is accepted and cannot be printed |
| HttpPipeline.Defaults | netb/HttpMessage.cpp:264-352 | the first line a new and a reset message start from, in letters |
| HttpPipeline.EmptyFirstLine | netb/HttpMessage.cpp:216-225 | an empty first line is taken and changes nothing |
| HttpPrinter.RequestRoundTrip | netb/HttpMessage.cpp:313-331 | a request line of three words is parsed back |
| HttpPrinter.ResponseRoundTrip | netb/HttpMessage.cpp:426-455 | a status line is parsed back, with any code and any phrase |
| HttpPrinter.HeadersRoundTrip | netb/HttpMessage.cpp:229-248 | printed headers with distinct keys come back in their order |
| HttpPrinter.RoundTrip | netb/HttpMessage.cpp:172-260 | a legible request or response can be printed exactly when it has a phrase, of its own or in the table, and no empty key; then what is printed, whatever follows it, is parsed into it in one call and leaves exactly what follows |
| HttpPrinter.LengthedBody | netb/HttpMessage.cpp:229-260 | first line, headers, blank line and body, where the first Content-Length header holds the length of the body behind any space: the parser completes with exactly that body and leaves what follows |
| HttpPrinter.AbortedLine | netb/HttpMessage.cpp:229-248 | a line without a colon among the headers stops the parser for good |
| HttpPrinter.PrintedBytes | netb/HttpMessage.cpp:172-194 | a request with header and body, a response, and a response with a phrase of the table, octet by octet |
| HttpPrinter.PrintFails | netb/StreamWriter.cpp:133-139 | a message cannot be printed exactly when it is a response without a phrase and with a code outside the table, or some key is empty or ends with a colon |
| HttpMessages.HttpMessage.FromBuffer | netb/HttpMessage.cpp:199-211 | the object and buffer move as the parser function says; true exactly when a message is complete, which flushes what was read |
| HttpMessages.HttpMessage.ReadStartLine | netb/HttpMessage.cpp:216-225 | takes a whole first line or nothing |
| HttpMessages.HttpMessage.ReadHeader | netb/HttpMessage.cpp:229-248 | the loop over header lines computes the header stage |
| HttpMessages.HttpMessage.ReadBody | netb/HttpMessage.cpp:251-260 | takes the whole body or nothing |
| HttpMessages.HttpMessage.SetHeaderField | netb/HttpMessage.cpp:71-85 | the loop over headers computes the header update |
| HttpMessages.HttpMessage.Reset | netb/HttpMessage.cpp:40-59 | ready for a message, without headers and body, with the default first line: that of a new request, and of a new response but for the phrase, which is empty in a new one (netb/HttpMessage.cpp:335-352) |
| HttpMessages.HttpMessage.ToBuffer | netb/HttpMessage.cpp:172-194 | the exact condition under which the source fails at a missing phrase or at a key, the exact limit condition for success otherwise, including success without the blank line; appends the printed message, on failure a prefix of it |
| HttpMessages.ReceiveAll | netb/HttpMessage.cpp:199-260 | the objects fed chunk by chunk take all chunks exactly when each fits beside the bytes since the last completed message, and then yield what the pipeline function says |
| HttpBacklog.SmallFits | netb/HttpMessage.cpp:199-211 | every chunk of any stream of printed messages fits when the largest message and the largest chunk do |
| HttpBacklog.PrefixWaits | netb/HttpMessage.cpp:199-211 | no message completes before its last byte |
| HttpMessages.Exchange | netb/HttpMessage.cpp:172-260 | a new object and an empty buffer turn any chunking of any number of printed messages into those messages in order, when the largest message and the largest chunk fit the limit together |
| HttpMessages.Relay | netb/HttpMessage.cpp:172-260 | from buffer to object to buffer to a new object: where the printed message fits, the second object ends with the message of the first and nothing is left exactly when a request has a URL, a response has a phrase of one line, and no key is empty |
| HttpMessages.CodedResetIsFresh | netb/HttpMessage.cpp:40-59 | the reset as written starts over exactly when the message had no body |
| DnsNames.DecodeIffSpelled | netb/DnsRecord.cpp:163-198 | a name is read as some labels up to some end if and only if the wire spells them so: labels in place and the zero octet, or a pointer to labels ended by the zero octet |
| DnsNames.DecodeComplete | netb/DnsRecord.cpp:163-198 | labels followed by a pointer give the labels plus those stored at the 14-bit offset, and the end is right after the pointer |
| DnsNames.DecodeSound | netb/DnsRecord.cpp:163-198 | nothing else is ever read as a name |
| DnsNames.ChainedPointerRefused | netb/DnsRecord.cpp:186-196 | a pointer whose target runs into another pointer stops at the assertion, one whose target runs out of bytes is refused, and neither gives a name |
| DnsNames.NameRoundTrip | netb/DnsRecord.cpp:142-198 | packing then unpacking returns the labels that packing keeps, in order, if and only if each has at most 63 octets |
| DnsNames.KeptIs | netb/DnsRecord.cpp:142-160 | packing keeps exactly the labels that are neither empty nor a single dot |
| DnsNames.FromString | netb/DnsRecord.cpp:104-128 | accepts exactly valid text of at most 256 characters, and yields dot-free parts that spell the lower-cased text with a dot at its end |
| DnsNames.TextDetermines | netb/DnsRecord.cpp:104-139 | dot-free parts are determined by their text, so splitting and joining are inverse |
| DnsNames.ValidCharIs | netb/DnsRecord.cpp:91-91 | the valid characters are digits, small letters and `-_/.` |
| DnsNames.LowerIs | netb/DnsRecord.cpp:110-110 | each capital letter becomes its small one and nothing else changes |
| DnsNames.DottedIs | netb/DnsRecord.cpp:113-117 | a dot is added exactly when there is none at the end |
| DnsNames.CodedOffsetIsRight | netb/DnsRecord.cpp:183-183 | the offset as written is the pointer's offset exactly when that is below 256 |
| DnsNames.CodedOffsetFails | netb/DnsRecord.cpp:183-183 | a pointer whose offset it gets wrong |
| DnsMessages.FlagsRoundTrip | netb/DnsMessage.hpp:213-236 | encoding then decoding the flag fields gives them back |
| DnsMessages.FlagsOctets | netb/DnsMessage.hpp:213-236 | decoding then encoding any two octets gives them back |
| DnsMessages.HeaderRoundTrip | netb/DnsMessage.hpp:177-255 | a written header is read back |
| DnsMessages.QuestionRoundTrip | netb/DnsMessage.hpp:354-359 | a written question is read back with the labels packing keeps, if and only if each has at most 63 octets |
| DnsMessages.RDataRoundTrip | netb/DnsRecord.cpp:265-399 | written A, CNAME, MX and TXT data is accepted with the length written for it; an MX name is refused exactly when its length wraps |
| DnsMessages.RecordRoundTrip | netb/DnsRecord.cpp:59-87 | a written record is read back with RDLENGTH equal to the octets of its data modulo 16 bits, refused exactly when an MX name wraps |
| DnsMessages.MessageRoundTrip | netb/DnsMessage.cpp:87-147 | any message, with anything before and after it, is read back with the labels packing keeps up to where writing ended, if and only if its labels, texts, types and counts are within what the format holds and no MX name wraps |
| DnsMessages.DecodedIsGood | netb/DnsMessage.cpp:117-147 | every message accepted from the wire is well formed |
| DnsSpelling.MessageIffSpelled | netb/DnsMessage.cpp:117-147 | a message is read, up to an end, if and only if the wire spells it so: header, then as many questions, answers, authorities and additional records as it counts |
| DnsSpelling.HeaderIffSpelled | netb/DnsMessage.hpp:177-255 | identifier, flag bits in their places, and the four counts in their order |
| DnsSpelling.QuestionIffSpelled | netb/DnsMessage.hpp:354-359 | a question is read exactly as a spelled name, type and class |
| DnsSpelling.RecordIffSpelled | netb/DnsRecord.cpp:59-70 | a record is read exactly as a spelled name, type, class, time to live, length and data |
| DnsSpelling.DataIffSpelled | netb/DnsRecord.cpp:231-399 | data of each type is accepted exactly under its number and with the length of the octets it takes on the wire, so compressed names count as they stand there |
| DnsSpelling.CompressedCname | netb/DnsRecord.cpp:294-299 | CNAME data that is a pointer alone is accepted with length 2 and with no other |
| DnsSpelling.PointerOffsetIs | netb/DnsRecord.cpp:183-183 | a pointer stands for the 14 low bits of its two octets, and an octet is a label length exactly when its two high bits are clear |
| DnsSpelling.NameBytes | netb/DnsRecord.cpp:142-160 | a name of two labels and a question for it, octet by octet |
| DnsMessages.ReencodeLaw | netb/DnsMessage.cpp:87-147 | any accepted message, written and read again before any following bytes: accepted exactly when no MX length wraps, all that was written is consumed and nothing more, same meaning up to RDLENGTH exactly when no label is a single dot |
| DnsMessages.CodedRDLengthIsRight | netb/DnsRecord.cpp:84-85 | the RDLENGTH as written is right exactly when the field was 0 before, or for A |
| DnsMessages.CodedCnameIsRight | netb/DnsRecord.cpp:294-299 | the CNAME length test as written is right exactly when the uninitialised counter is 0 |
| DnsMessages.CodedARecordRefused | netb/DnsRecord.cpp:73-87 | with the 32-bit write as written, no A record at the end of a message can be read back |
| DnsCodec.UnpackName | netb/DnsRecord.cpp:163-198 | the reading loop succeeds exactly when the name decodes, returns it, and counts the octets consumed from the stream modulo 16 bits |
| DnsCodec.FollowPointer | netb/DnsRecord.cpp:184-196 | the loop at a pointer's target returns exactly the labels stored there, fails the assertion exactly at another pointer, and terminates |
| DnsCodec.PackName | netb/DnsRecord.cpp:142-160 | appends the wire form exactly when it fits, and counts its octets modulo 16 bits |
| DnsCodec.WriteRData | netb/DnsRecord.cpp:265-399 | appends the data's wire form and reports its length |
| DnsCodec.ReadRData | netb/DnsRecord.cpp:265-399 | reads exactly the data that decodes under the given type and length |
| DnsCodec.PatchU16 | netb/DnsRecord.cpp:85-85 | the patch changes two octets and leaves every other one |
| DnsCodec.WriteRecord | netb/DnsRecord.cpp:73-87 | from the state before the call: the exact condition for success, and that the buffer then holds the record with RDLENGTH equal to the data octets that follow modulo 16 bits when the origin is 0 or moves there before the data; for a new record with data only then |
| DnsCodec.ReadRecord | netb/DnsRecord.cpp:59-70 | reads exactly what decodes at the read position |
| DnsObject.DnsMessage.Query | netb/DnsMessage.cpp:156-163 | one question of class IN whose dot-free parts spell the text, or nothing when the text is refused, and a matching count |
| DnsObject.DnsMessage.FromBuffer | netb/DnsMessage.cpp:117-147 | succeeds exactly when the bytes decode as a message, takes its header, appends its sections, and leaves any following bytes unread |
| DnsObject.DnsMessage.ToBuffer | netb/DnsMessage.cpp:87-112 | when the first record is patched in its place, or there is none, appends the wire form exactly when it fits; when that record is new and has data, what was written is the wire form only then; every RDLENGTH is brought up to date |
| DnsObject.Relay | netb/DnsMessage.cpp:87-147 | from any position of a buffer to an object to a buffer to a fresh object: success exactly when no MX length wraps and the message fits, the first object means what was read, and the second the same exactly when no label is a single dot |
| Selector.FrontIsMax | netb/SocketSelector.cpp:150-150 | the front of a heap is at least every element |
| Selector.MakeHeap | netb/SocketSelector.cpp:78-78 | rebuilding gives a heap with the same elements |
| Selector.SocketSelector.Set | netb/SocketSelector.cpp:62-106 | the sets given to `select` hold the socket for exactly the bits asked for and are unchanged elsewhere, and so the map of interest; no duplicates, heap and bit sets agree afterwards |
| Selector.SocketSelector.Remove | netb/SocketSelector.cpp:109-124 | the socket leaves the map and nothing else changes |
| Selector.SocketSelector.Nfds | netb/SocketSelector.cpp:150-150 | exceeds every socket of interest by at least one, and is exact |
| Selector.SocketSelector.InterestIs | netb/SocketSelector.cpp:80-103 | the map of interest says of a socket exactly what the three sets say of it |
| Selector.BitsApart | netb/SocketSelector.cpp:80-103 | each event constant is its own bit and no other |
| Selector.SocketSelector.Collect | netb/SocketSelector.cpp:183-205 | every active socket is reported once with exactly its active events, each of them an event asked for; when all are active the report is the map of interest |
| EventLoopTheorems.ExactlyOnceInOrder | netb/EventLoop.cpp:67-78 | in every state of every run the functors ever queued are those finished, the running one, the rest of the batch and the queue, in order |
| EventLoopTheorems.NoLostWakeup | netb/EventLoop.cpp:42-91 | before and in `select` the queue is no longer than unread bytes plus threads about to write one plus functors queued on the loop thread outside `Run`; in a loop asleep without byte and without such a thread a functor waits if and only if one was queued that way |
| EventLoopTheorems.QueuedBeforeRun | netb/EventLoop.cpp:160-170 | a run in which a functor queued before `Run` waits with no byte to wake the loop |
| EventLoopProgress.EveryTurnRunsAll | netb/EventLoop.cpp:48-79 | from any reachable state, in every interleaving in which the loop then swaps its queue and goes through that batch, everything queued in that state has run, in order |
| EventLoopProgress.EveryTurnReleases | netb/EventHandler.cpp:54-82 | in every such interleaving an owner found waiting in `Detach` may then return, unless it has returned already |
| EventLoopProgress.OneTurnRunsAll | netb/EventLoop.cpp:48-79 | such a turn can always be taken: from any reachable blocked state with a byte the loop thread alone runs everything queued |
| EventLoopProgress.OneTurnReleases | netb/EventHandler.cpp:54-82 | after the turn the loop thread takes alone, an owner waiting in `Detach` can return, and the selector watches exactly the current events of every registered handler whose owner is not in the middle of a change |
| EventLoopProgress.DetachIsNotStuck | netb/EventHandler.cpp:58-66 | when the loop is blocked and no thread is about to write a byte, an owner blocked in `Detach` can return or the loop has a byte to wake for |
| EventLoopTheorems.StopIsObeyed | netb/EventLoop.cpp:84-91 | after `_stop` is set in a running loop, every continuation enters `select` at most once, only if already past the test, and with a byte there or about to be; and `Run` has returned in every continuation that tests `_stop` |
| EventLoopProgress.StopReturns | netb/EventLoop.cpp:48-91 | from every state reached with `_stop` set, the loop can still return from `Run` or end at the assertion; it returns if no callback detached a handler still to be called back for |
| EventLoopTheorems.StopBeforeRun | netb/EventLoop.cpp:42-46 | a stop made before `Run` has no effect |
| EventLoopSafety.StopEntersOnce | netb/EventLoop.cpp:48-52 | the bound on entries, by induction over any continuation |
| EventLoopTheorems.UpdateRunsAttached | netb/EventHandler.cpp:146-152 | in every run `UpdateInLoop` starts with the handler attached and registered |
| EventLoopTheorems.DetachIsolates | netb/EventHandler.cpp:54-82 | when `Detach` has returned, a table entry, a running or a waiting functor refers to the handler if and only if `Detach` returned without waiting |
| EventLoopCalls.DetachDetaches | netb/EventHandler.cpp:54-82 | over every run: a `Detach` called on an attached handler does not return at once, and once it has returned, `DetachInLoop` was queued and has run and nothing refers to the handler; on one not attached it returns at once |
| EventLoopCalls.ConstructAttaches | netb/EventHandler.cpp:33-41 | over every run: a handler constructed on another thread is attached after the loop has next gone through its queue, unless its owner has called `Detach` |
| EventLoopCalls.QueuedRuns | netb/EventLoop.cpp:146-170 | over every run: a functor queued by any thread or by a callback has run after the loop has next gone through its queue |
| EventLoopCalls.ChangeIsWatched | netb/EventHandler.cpp:93-152 | over every run: the events last given to a handler are those the selector watches once it is registered and no update is on its way |
| EventLoopCalls.StopStops | netb/EventLoop.cpp:84-91 | over every run: after `Stop` the flag stays set until `Run` is called again, `select` is entered at most once more, and `Run` has returned once the flag is tested |
| EventLoopCalls.AllCalledBack | netb/EventLoop.cpp:52-66 | over every continuation: exactly the sockets that `select` reported are called back for, in order and once each, before the queue is swapped, unless the assertion failed |
| EventLoopCalls.OwnerGoesOn | netb/EventHandler.cpp:33-152 | an owner between two steps of its program can take the next |
| EventLoopTheorems.DetachTooEarly | netb/EventHandler.cpp:54-70 | a run in which such a handler is attached after its `Detach` returned |
| EventLoopLife.LifeStep | netb/EventHandler.cpp:33-152 | every step of every thread keeps what may be pending for a handler given where its owner is: an attach then updates, updates, updates then a detach, or nothing |
| EventLoopTheorems.DispatchFindsHandlers | netb/EventLoop.cpp:52-66 | each socket still to be called back for is met once and the wakeup callback finds its byte, with any external detaches under way; if no callback detached a handler still to be called back for, each has a handler and the assertion never failed |
| EventLoopTheorems.DetachInCallback | netb/EventLoop.cpp:52-66 | when a callback detaches a handler of the loop thread, going on calling back runs into the assertion if and only if that handler is still to be called back for |
| EventLoopTheorems.CallbackDetachesOther | netb/EventLoop.cpp:52-66 | a run that ends at the assertion, from two active handlers of the loop thread |
| EventLoopTheorems.TwoAttached | netb/EventLoop.cpp:95-106 | the state that run starts from is reached |
| EventLoopTheorems.SelectorAgrees | netb/EventLoop.cpp:95-141 | a socket of interest has a handler, and its events are the handler's current ones unless an update is queued or about to be |
| EventLoopRuns.AlwaysSound | netb/EventLoop.cpp:42-192 | the conjunction of all these invariants holds after every run |
| EventLoopObject.EventLoop.RegisterHandler | netb/EventLoop.cpp:95-106 | the tables become those of the registering step; a handler already there for the socket stays |
| EventLoopObject.EventLoop.UpdateHandler | netb/EventLoop.cpp:110-121 | publishes the events exactly when the socket is registered |
| EventLoopObject.EventLoop.RemoveHandler | netb/EventLoop.cpp:124-141 | the loop over the table removes this handler and its interest and no other |
| EventLoopObject.EventLoop.InvokeLater | netb/EventLoop.cpp:160-170 | appends, and writes a byte except on the loop thread outside a batch |
| EventLoopObject.EventHandler.constructor | netb/EventHandler.cpp:33-41 | attached at once on the loop thread, otherwise queued with a wakeup byte and not attached |
| EventLoopObject.EventHandler.DetachInLoop | netb/EventHandler.cpp:74-82 | detached, and the loop no longer holds this handler |
| EventLoopObject.EventHandler.SetWriting | netb/EventHandler.cpp:112-143 | changes the write bit alone, and publishes at once or by a queued update with its wakeup byte |
| EventLoopObject.EventHandler.SetReading | netb/EventHandler.cpp:93-109 | changes the read bit alone, and publishes at once or by a queued update with its wakeup byte |
| EventLoopObject.CodedRemovedIsRight | netb/EventLoop.cpp:124-141 | the removal as written is right exactly when another entry follows and neither has any interest |
| EventLoopObject.CodedRemovedFails | netb/EventLoop.cpp:124-141 | otherwise the selector watches a socket without handler, or no longer watches one that has a handler |
| AsyncTcp.SendConserves | netb/AsyncTcpSocket.cpp:185-216 | a send accepts exactly the prefix whose length it returns, and bytes handed over followed by bytes buffered stay equal to bytes accepted |
| AsyncTcp.WriteConserves | netb/AsyncTcpSocket.cpp:254-267 | so does a write event, and unread bytes keep the write interest |
| AsyncTcp.Conservation | netb/AsyncTcpSocket.cpp:185-267 | both hold over any run of sends from any thread and write events, whatever the kernel returns |
| AsyncTcp.BufferNeverDrains | netb/AsyncTcpSocket.cpp:254-267 | from the first buffered byte on, a limited connection accepts at most the rest of its limit, for ever |
| AsyncTcp.SendGivesUp | netb/AsyncTcpSocket.cpp:188-207 | a send fails exactly when it goes to the kernel directly and the kernel refuses, even with an empty buffer; nothing changes then |
| AsyncTcp.SendAccepts | netb/AsyncTcpSocket.cpp:185-216 | a send accepts everything exactly when the kernel takes it, or the buffer has room for the rest, or for all of it where the kernel is not asked; the kernel gets exactly what it took, the buffer the rest of what was accepted, and the handler the write interest |
| AsyncTcp.WriteHandsOver | netb/AsyncTcpSocket.cpp:254-267 | a write event hands over exactly the unread bytes the kernel takes, and drops the write interest exactly when none is left |
| AsyncTcp.AsyncTcpSocket.Send | netb/AsyncTcpSocket.cpp:185-216 | the code over the stream buffer and the handler computes that send |
| AsyncTcp.AsyncTcpSocket.OnWrite | netb/AsyncTcpSocket.cpp:254-267 | the code computes that write event, dropping the write interest exactly when nothing is unread |
| AsyncUdp.SendConserves | netb/AsyncUdpSocket.cpp:146-171 | datagrams handed over followed by those queued stay equal to those accepted if and only if the kernel does not split the datagram and an empty one does not meet a waiting queue |
| AsyncUdp.SendOutcome | netb/AsyncUdpSocket.cpp:146-171 | what is returned and where the datagram goes, on another thread, behind a queue, and by each answer of the kernel |
| AsyncUdp.DrainTakes | netb/AsyncUdpSocket.cpp:243-267 | a write event hands over the datagrams the kernel takes, up to the first it refuses, and leaves the others |
| AsyncUdp.DrainConserves | netb/AsyncUdpSocket.cpp:243-267 | draining keeps content, address and order if and only if every datagram popped was taken whole and it does not end at an empty one that was taken; the write interest stays exactly while datagrams wait |
| AsyncUdp.EmptyDatagramRepeats | netb/AsyncUdpSocket.cpp:247-261 | an empty datagram at the front is handed over and stays queued |
| AsyncUdp.DatagramOrder | netb/AsyncUdpSocket.cpp:146-267 | over any run with non-empty datagrams and a kernel that takes all or nothing, none is lost, repeated or reordered |
| AsyncUdp.AsyncUdpSocket.SendTo | netb/AsyncUdpSocket.cpp:146-207 | the code of both sends computes that send |
| AsyncUdp.AsyncUdpSocket.OnWrite | netb/AsyncUdpSocket.cpp:243-267 | the drain loop computes that draining |

## Left out

- StreamRuns.Conservation: runs with updates are excluded, because an update rewrites bytes already accepted; `PerformAll` covers them.
- Streams.ReadUntil: only the overload with a delimiter string; the one with a single character and the overloads of `RandomReader` are not modelled.
- DnsCodec.WriteRecord: where the patch misses its place, what the buffer holds is only said to keep the earlier bytes and its length, and to be wrong for a new record with data.
- DnsCodec.WriteRData: texts have at most 256 octets, because the source asserts it; SOA data is a stub in the source and writes nothing.
- DnsObject.DnsMessage.FromBuffer: after a failure, entries of a section that was not read to its end are not kept, because nothing is promised of them.
- DnsObject.DnsMessage.Query: the identifier is a parameter; the source draws it at random.
- DnsObject.DnsMessage.ToBuffer: where the patch of the first record misses its place, success is not characterised, and the bytes are only said to be wrong when that record is new and has data.
- HttpBacklog.SmallFits: the bound is enough and not needed for every cut; `ReceiveAll` has the exact condition.
- HttpMessages.Relay: nothing is said of a printed message larger than the default limit of a buffer; `ToBuffer` has the exact conditions.
- EventLoopTheorems.DetachIsolates: handlers are named by their socket, so two live handlers on one socket do not occur; the design excludes them. A handler that its owner calls from one thread only; destruction of the object is not modelled.
- EventLoopProgress.OneTurnRunsAll: functors of users do no more than finish in that one turn, and no other thread takes a step; `EveryTurnRunsAll` covers what they do otherwise.
- EventLoopProgress.StopReturns: that the threads do take these steps is left to their scheduler, and that callbacks return to their code.
- EventLoopObject.EventLoop: `Run` itself is not a method here, because other threads act between any two of its statements; it is the step relation of `EventLoopSteps`.
- AsyncTcp.AsyncTcpSocket.Send: `Send` and `OnWrite` are atomic; the source takes the buffer's mutex only for sends from other threads.
- AsyncUdp.AsyncUdpSocket.SendTo: a queued datagram has at most 4096 octets, because the source asserts it; addresses are opaque.
- `size_t` wrap-around in buffer arithmetic, allocation failure, self-assignment of a buffer and the raw-pointer forms of `Read`, `Write` and `Peek`.
- The flush option of `StreamReader` and the clear option of `StreamWriter`, signed and 64-bit integers.
- What a failed read leaves behind in an object and in the read position when DNS decoding stops half-way.
- `RemoveHeader`, `SetBody`, the numeric header overloads and the getters of `HttpMessage`; the table of default phrases is a parameter.
- Integer overflow in `atoi` on a status code, which C++ leaves undefined.
- Kernel calls, `Socket`, `TcpSocket`, `UdpSocket`, `TcpAcceptor`, `SocketPipe`, `SocketAddress`, errors and exceptions, `EventLoopThread`, logging, opening and closing of sockets, the receiving side of the asynchronous sockets.
- `HandleEvents`, which calls the read callback before the write callback: callbacks are any steps of the loop thread here, and exceptional events have none in the source.
- Weak memory effects on `_stop` and `_detached`: accesses are sequentially consistent.
