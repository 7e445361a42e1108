# TCP transaction client and server, and the file-transfer service: a Dafny model

This project models the wire protocols and the message handling of a small Java/Netty system.

**TCP transaction protocol.** A client sends requests to a server. A request carries a 42-octet header:
- sender node ID (6 octets);
- receiver node ID (6 octets);
- transaction type (1 octet: signin or business);
- transaction code (7 octets);
- transaction serial (20 octets);
- 2 reserved octets.

The header is followed by a 4-octet big-endian total length and the payload. The server answers each request with one response. A response carries a 2-octet header `[status, 0]`, the same length field and a text payload. The payload comes from a configurable set of response templates, with `{timestamp}` filled in.

The model covers:
- the Java encoding and decoding of both message kinds (`TcpProtocol.toBytes`/`fromBytes` over a `java.nio.ByteBuffer`);
- the client and server Netty frame decoders;
- the server handler, which counts connections and messages and dispatches on type and code;
- the client handler, which allows one request in flight at a time;
- the server's response template service;
- the client's configuration service.

**File-transfer protocol.** Messages are a type octet, a 4-octet big-endian length and a payload. The model covers:
- the encoder and decoder;
- the server handler, which answers `LIST_FILES` with a newline-separated listing of `name,size,lastModified` lines and `DOWNLOAD_FILE` with the file's octets or an error;
- the client's parser of that listing.

Java integer widths appear as the subset types `Int32` and `Int64`. Octets are `Byte` values. Strings are ASCII text converted by `getBytes`/`new String`. Mutable Java objects become Dafny classes: the buffers, the Netty channel, the futures, the handlers and the config services. Their methods are proved against specification functions. Lemmas then prove what the protocol promises about those functions:
- round trips;
- partial delivery;
- error cases;
- default answers.

The client decoder's own comment on its request branch (tcp-client/src/main/java/com/example/tcpclient/codec/TcpProtocolDecoder.java:46) says a request needs its full 42-octet header read. The server decoder does read all 42 octets before taking the length from octets 42..45. The client code, however, reads the length right after the first two octets. The model follows the code as written; see "## Findings".

## Model

| member | source | states |
|---|---|---|
| Bytes.ToInt32 | tcp-client/src/main/java/com/example/tcpclient/protocol/TcpProtocol.java:192 | Java int arithmetic: the result is congruent to the exact value modulo 2^32, and equal to it when it fits an int |
| Bytes.SignedByte | tcp-server/src/main/java/com/example/tcpserver/service/ResponseConfigService.java:222 | a byte concatenated into a string shows its signed value, in -128..127 and congruent to the octet modulo 256 |
| Bytes.Int32RoundTrip | tcp-client/src/main/java/com/example/tcpclient/protocol/TcpProtocol.java:213 | reading back the four octets putInt writes gives the int back |
| Bytes.Int32BytesRoundTrip | tcp-client/src/main/java/com/example/tcpclient/protocol/TcpProtocol.java:250 | writing back the int getInt reads gives the four octets back |
| Bytes.Int32FromBytesLeading | tcp-client/src/main/java/com/example/tcpclient/codec/TcpProtocolDecoder.java:61 | four octets whose first is between 1 and 127 read as an int of at least 2^24 |
| Bytes.AsciiRoundTrip | tcp-client/src/main/java/com/example/tcpclient/protocol/TcpProtocol.java:107 | ASCII text survives getBytes followed by new String |
| JavaText.TrimShape | tcp-client/src/main/java/com/example/tcpclient/protocol/TcpProtocol.java:107 | the result of trim has no char at or below U+0020 at either edge, and is empty exactly when the input is all such chars |
| JavaText.TrimOfPadded | tcp-client/src/main/java/com/example/tcpclient/protocol/TcpProtocol.java:107 | trim removes exactly the white around a text without white at its edges |
| JavaText.SplitJoin | tcp-server/src/main/java/com/example/tcpserver/protocol/FileTransferProtocol.java:57 | split on a separator undoes join when no piece holds the separator and the last piece is not empty (Java drops trailing empty pieces) |
| JavaText.ParseLongToString | tcp-server/src/main/java/com/example/tcpserver/protocol/FileTransferProtocol.java:59 | Long.parseLong reads the decimal text of any long back to that long |
| JavaText.LongToStringChars | tcp-server/src/main/java/com/example/tcpserver/protocol/FileTransferProtocol.java:53 | the decimal text of a number holds no char other than digits and '-' |
| JavaText.ReplaceAbsent | tcp-server/src/main/java/com/example/tcpserver/service/ResponseConfigService.java:315 | String.replace returns a text without the target unchanged |
| JavaText.ReplaceFirst | tcp-server/src/main/java/com/example/tcpserver/service/ResponseConfigService.java:315 | String.replace replaces the first occurrence and resumes scanning right after it |
| NioBuffer.ByteBuffer.Allocate | tcp-client/src/main/java/com/example/tcpclient/protocol/TcpProtocol.java:207 | ByteBuffer.allocate gives a zero-filled buffer at position 0 |
| NioBuffer.ByteBuffer.Wrap | tcp-client/src/main/java/com/example/tcpclient/protocol/TcpProtocol.java:233 | ByteBuffer.wrap gives a buffer over the given octets at position 0 |
| NioBuffer.ByteBuffer.Put | tcp-client/src/main/java/com/example/tcpclient/protocol/TcpProtocol.java:212-214 | a bulk put that fits writes the octets at the position, advances past them and leaves the rest; one that does not fit fails and changes nothing |
| NioBuffer.ByteBuffer.PutByte | tcp-client/src/main/java/com/example/tcpclient/protocol/TcpProtocol.java:75 | a one-octet put, with the same success and failure behaviour |
| NioBuffer.ByteBuffer.PutInt | tcp-client/src/main/java/com/example/tcpclient/protocol/TcpProtocol.java:213 | putInt writes the int's four big-endian octets, with the same success and failure behaviour |
| NioBuffer.ByteBuffer.Get | tcp-client/src/main/java/com/example/tcpclient/protocol/TcpProtocol.java:246 | a bulk get returns the next n octets and advances, or underflows without moving |
| NioBuffer.ByteBuffer.GetByte | tcp-client/src/main/java/com/example/tcpclient/protocol/TcpProtocol.java:115 | a one-octet get, with the same underflow behaviour |
| NioBuffer.ByteBuffer.GetInt | tcp-client/src/main/java/com/example/tcpclient/protocol/TcpProtocol.java:250 | getInt reads the next four octets as a signed big-endian int, or underflows |
| Netty.ByteBuf.MarkReaderIndex | tcp-client/src/main/java/com/example/tcpclient/codec/TcpProtocolDecoder.java:32 | the mark is set to the reader index |
| Netty.ByteBuf.ResetReaderIndex | tcp-client/src/main/java/com/example/tcpclient/codec/TcpProtocolDecoder.java:48 | the reader index returns to the mark |
| Netty.ByteBuf.ReadBytes | tcp-client/src/main/java/com/example/tcpclient/codec/TcpProtocolDecoder.java:36 | readBytes returns the next n readable octets and advances by n |
| Netty.ByteBuf.ReadByte | tcp-server/src/main/java/com/example/tcpserver/codec/MessageDecoder.java:31 | readByte returns the next octet and advances by one |
| Netty.ByteBuf.ReadInt | tcp-client/src/main/java/com/example/tcpclient/codec/TcpProtocolDecoder.java:61 | readInt returns the next four octets as a signed big-endian int and advances by four |
| Netty.ByteBuf.WriteByte | tcp-server/src/main/java/com/example/tcpserver/codec/MessageEncoder.java:19 | writeByte appends one octet |
| Netty.ByteBuf.WriteInt | tcp-server/src/main/java/com/example/tcpserver/codec/MessageEncoder.java:22 | writeInt appends the four big-endian octets of the int |
| Netty.ByteBuf.WriteBytes | tcp-server/src/main/java/com/example/tcpserver/codec/MessageEncoder.java:26 | writeBytes appends the octets |
| Netty.Channel.WriteAndFlush | tcp-server/src/main/java/com/example/tcpserver/handler/TcpProtocolHandler.java:110 | the message is appended to the channel's write log |
| Netty.Channel.Close | tcp-server/src/main/java/com/example/tcpserver/handler/TcpProtocolHandler.java:173 | the channel is closed |
| TcpProtocol.NewRequest | tcp-client/src/main/java/com/example/tcpclient/protocol/TcpProtocol.java:189-194 | a request message carrying the header; null data becomes the empty payload |
| TcpProtocol.NewResponse | tcp-client/src/main/java/com/example/tcpclient/protocol/TcpProtocol.java:196-201 | a response message carrying the header; null data becomes the empty payload |
| TcpProtocol.ConstructorLength | tcp-client/src/main/java/com/example/tcpclient/protocol/TcpProtocol.java:189-201 | both constructors record the frame size, header + 4 + payload, whenever it fits an int |
| TcpProtocol.PaddedLayout | tcp-client/src/main/java/com/example/tcpclient/protocol/TcpProtocol.java:137-142 | padToLength has exactly n octets: b's octets below min(n, len b), zeros after, so an over-long field is cut off |
| TcpProtocol.PadToLength | tcp-client/src/main/java/com/example/tcpclient/protocol/TcpProtocol.java:137-142 | the array copy yields the padded field |
| TcpProtocol.RequestHeaderLayout | tcp-client/src/main/java/com/example/tcpclient/protocol/TcpProtocol.java:62-89 | the request header is 42 octets: sender [0,6), receiver [6,12), type at 12, code [13,20), serial [20,40), reserved [40,42) |
| TcpProtocol.RequestHeaderToBytes | tcp-client/src/main/java/com/example/tcpclient/protocol/TcpProtocol.java:62-89 | the buffer writes produce that 42-octet layout |
| TcpProtocol.RequestHeaderFromBytes | tcp-client/src/main/java/com/example/tcpclient/protocol/TcpProtocol.java:94-132 | the buffer reads give the header fromBytes returns, and an input not of 42 octets throws |
| TcpProtocol.ParsedRequestHeaderShape | tcp-client/src/main/java/com/example/tcpclient/protocol/TcpProtocol.java:94-132 | fromBytes succeeds exactly on 42-octet input; text fields come back trimmed, type and reserved octets verbatim |
| TcpProtocol.FieldRoundTrip | tcp-client/src/main/java/com/example/tcpclient/protocol/TcpProtocol.java:67-107 | an ASCII field that fits its width and has no edge white survives padding then trimming |
| TcpProtocol.RequestHeaderRoundTrip | tcp-client/src/main/java/com/example/tcpclient/protocol/TcpProtocol.java:62-132 | fromBytes(toBytes(h)) == h when every text field fits |
| TcpProtocol.ResponseHeaderRoundTrip | tcp-client/src/main/java/com/example/tcpclient/protocol/TcpProtocol.java:161-173 | toBytes is [status, 0] and decodes back; fromBytes succeeds exactly on two octets and takes the status from the first |
| TcpProtocol.HeaderBytesLength | tcp-client/src/main/java/com/example/tcpclient/protocol/TcpProtocol.java:62-163 | a header encodes to 42 octets for a request and 2 for a response |
| TcpProtocol.MessageToBytes | tcp-client/src/main/java/com/example/tcpclient/protocol/TcpProtocol.java:206-223 | toBytes: a negative length cannot be allocated, a frame longer than length overflows, otherwise the frame followed by zeros up to length |
| TcpProtocol.WriteFrame | tcp-client/src/main/java/com/example/tcpclient/protocol/TcpProtocol.java:207-222 | putting header, length and payload into a buffer of length octets overflows exactly when they do not fit, and otherwise leaves the unused tail zero |
| TcpProtocol.EncodedMessageLayout | tcp-client/src/main/java/com/example/tcpclient/protocol/TcpProtocol.java:206-223 | a message whose length is its frame size encodes to exactly length octets: header, big-endian length, payload |
| TcpProtocol.MessageFromBytes | tcp-client/src/main/java/com/example/tcpclient/protocol/TcpProtocol.java:228-284 | the buffer reads give the message fromBytes returns, or the exception it throws |
| TcpProtocol.ParsedMessageShape | tcp-client/src/main/java/com/example/tcpclient/protocol/TcpProtocol.java:228-284 | a decoded message is a response iff the first two octets match the pattern; its length equals both the input size and the length field; its payload is the rest |
| TcpProtocol.ParsedMessageRejects | tcp-client/src/main/java/com/example/tcpclient/protocol/TcpProtocol.java:229-274 | fewer than 4 octets, too few for the header and length field, or a length field other than the input size is rejected |
| TcpProtocol.ResponseRoundTrip | tcp-client/src/main/java/com/example/tcpclient/protocol/TcpProtocol.java:161-262 | a response with status 0 or 1 decodes back to the same message |
| TcpProtocol.EncodedRequestFrame | tcp-client/src/main/java/com/example/tcpclient/protocol/TcpProtocol.java:206-223 | an encoded request with a non-empty sender opens with a sender char (never the response pattern), carries the length at 42..45 and the payload after |
| TcpProtocol.RequestRoundTrip | tcp-client/src/main/java/com/example/tcpclient/protocol/TcpProtocol.java:62-284 | a request decodes back to itself when every field fits its width without edge white, the sender is not empty and the frame fits an int |
| TcpProtocol.MisclassifiedFrames | tcp-client/src/main/java/com/example/tcpclient/protocol/TcpProtocol.java:238-243 | a response with status other than 0 or 1 never decodes as a response, and a request with an empty sender (00 00) never decodes as a request |
| ClientTcpDecoder.Decode | tcp-client/src/main/java/com/example/tcpclient/codec/TcpProtocolDecoder.java:25-93 | the reader index moves by what the step consumes, the output is the message it emits, and the channel closes exactly when it says so |
| ClientTcpDecoder.FrameStepShape | tcp-client/src/main/java/com/example/tcpclient/codec/TcpProtocolDecoder.java:61-92 | after the length field: an out-of-bounds length closes; waiting consumes nothing; an emitted message is the parse of exactly the length octets consumed |
| ClientTcpDecoder.DecodeStepShape | tcp-client/src/main/java/com/example/tcpclient/codec/TcpProtocolDecoder.java:27-92 | below 2 octets, or a request-like frame below 42 octets, waits; a length outside 4..1 MiB closes after 6 octets; an emitted message is the parse of the octets consumed |
| ClientTcpDecoder.ResponseDelivery | tcp-client/src/main/java/com/example/tcpclient/codec/TcpProtocolDecoder.java:27-87 | any strict prefix of a response frame waits; the whole frame, whatever follows, emits the response and consumes exactly the frame |
| ClientTcpDecoder.RequestFramesClose | tcp-client/src/main/java/com/example/tcpclient/codec/TcpProtocolDecoder.java:43-68 | as written, a request frame whose sender has a third char other than NUL closes the connection after 6 octets |
| ClientTcpDecoder.FixedAgreesOnResponses | tcp-client/src/main/java/com/example/tcpclient/codec/TcpProtocolDecoder.java:40-61 | the corrected decoder agrees with the written one on every frame classified as a response |
| ClientTcpDecoder.FixedRequestDelivery | tcp-client/src/main/java/com/example/tcpclient/codec/TcpProtocolDecoder.java:43-87 | with the request header skipped, any strict prefix of a request frame waits and the whole frame emits the request |
| ServerTcpDecoder.Decode | tcp-server/src/main/java/com/example/tcpserver/codec/TcpProtocolDecoder.java:25-81 | the reader index moves by what the step consumes, the output is the message it emits, and the channel closes exactly when it says so |
| ServerTcpDecoder.DecodeStepShape | tcp-server/src/main/java/com/example/tcpserver/codec/TcpProtocolDecoder.java:27-80 | below 46 octets nothing happens (a short response frame is never decoded); a length outside 4..1 MiB closes after 46 octets; an emitted message is the parse of the octets consumed |
| ServerTcpDecoder.RequestDelivery | tcp-server/src/main/java/com/example/tcpserver/codec/TcpProtocolDecoder.java:27-80 | any strict prefix of a request frame waits; the whole frame, whatever follows, emits the request and consumes exactly the frame |
| ServerTcpDecoder.ResponseFramesMisread | tcp-server/src/main/java/com/example/tcpserver/codec/TcpProtocolDecoder.java:27-80 | a response frame of any status is read as if it had a request header: below 46 octets (so a response with under 40 payload octets and nothing after it) it waits; otherwise the length comes from payload octets 36..39, an out-of-bounds value closes after 46 octets and an emission consumes exactly that length; a status other than 0 or 1 never comes out as a response |
| ServerTcpDecoder.ResponseEmittedWhole | tcp-server/src/main/java/com/example/tcpserver/codec/TcpProtocolDecoder.java:39-75 | a status-0 response whose payload octets 36..39 encode its own size 46 is emitted as that response, so the server decoder does pass real responses through |
| TcpProtocolHandler.Handler.constructor | tcp-server/src/main/java/com/example/tcpserver/handler/TcpProtocolHandler.java:27-30 | all counters start at 0 and the serial counter at 1 |
| TcpProtocolHandler.Handler.ChannelActive | tcp-server/src/main/java/com/example/tcpserver/handler/TcpProtocolHandler.java:35 | connectedClients grows by one |
| TcpProtocolHandler.Handler.ChannelInactive | tcp-server/src/main/java/com/example/tcpserver/handler/TcpProtocolHandler.java:43 | connectedClients shrinks by one |
| TcpProtocolHandler.Handler.ChannelRead0 | tcp-server/src/main/java/com/example/tcpserver/handler/TcpProtocolHandler.java:49-55 | a request is counted and answered with exactly one response; a response is counted and nothing is written |
| TcpProtocolHandler.Handler.HandleRequest | tcp-server/src/main/java/com/example/tcpserver/handler/TcpProtocolHandler.java:60-78 | totalRequests grows by one and the one response for the header's type and code is written |
| TcpProtocolHandler.Handler.HandleResponse | tcp-server/src/main/java/com/example/tcpserver/handler/TcpProtocolHandler.java:83-91 | totalResponses grows by one; nothing is written |
| TcpProtocolHandler.Handler.HandleSignInRequest | tcp-server/src/main/java/com/example/tcpserver/handler/TcpProtocolHandler.java:96-114 | a signin request gets the signin text with status 0 |
| TcpProtocolHandler.Handler.HandleBusinessRequest | tcp-server/src/main/java/com/example/tcpserver/handler/TcpProtocolHandler.java:119-156 | a business request gets the text of its trimmed code with status 0, or the unknown-code text with status 1 |
| TcpProtocolHandler.Handler.SendErrorResponse | tcp-server/src/main/java/com/example/tcpserver/handler/TcpProtocolHandler.java:162-168 | one response with status 1 carrying the error text is written |
| TcpProtocolHandler.Handler.ExceptionCaught | tcp-server/src/main/java/com/example/tcpserver/handler/TcpProtocolHandler.java:171-174 | the channel is closed |
| TcpProtocolHandler.Handler.GetNextTransactionSerial | tcp-server/src/main/java/com/example/tcpserver/handler/TcpProtocolHandler.java:189-191 | returns the counter and increments it |
| TcpProtocolHandler.SerialsCountUp | tcp-server/src/main/java/com/example/tcpserver/handler/TcpProtocolHandler.java:30 | from a fresh counter, successive serials are 1, 2, 3, ... |
| TcpProtocolHandler.ResponseStatusCases | tcp-server/src/main/java/com/example/tcpserver/handler/TcpProtocolHandler.java:70-143 | signin succeeds; business succeeds exactly for trimmed codes QUERY, UPDATE and DELETE; any other type fails; the status is always 0 or 1 |
| TcpProtocolHandler.DefaultResponseBodies | tcp-server/src/main/java/com/example/tcpserver/handler/TcpProtocolHandler.java:70-143 | with no configuration the texts are the built-in defaults for signin, each business code, unknown code and unknown type |
| TcpProtocolHandler.ResponsesReachClient | tcp-server/src/main/java/com/example/tcpserver/handler/TcpProtocolHandler.java:147-153 | every response written encodes, is decoded by the client decoder from the frame and parses back to itself |
| ClientHandler.FailedIfPending | tcp-client/src/main/java/com/example/tcpclient/handler/ClientHandler.java:38-39 | completeExceptionally changes only a pending future |
| ClientHandler.CompletableFuture.constructor | tcp-client/src/main/java/com/example/tcpclient/handler/ClientHandler.java:65 | a new future is pending |
| ClientHandler.CompletableFuture.FailedFuture | tcp-client/src/main/java/com/example/tcpclient/handler/ClientHandler.java:62 | failedFuture is failed with the reason |
| ClientHandler.CompletableFuture.Complete | tcp-client/src/main/java/com/example/tcpclient/handler/ClientHandler.java:50 | completes a pending future with the message and reports it; a done future is left as it is |
| ClientHandler.CompletableFuture.CompleteExceptionally | tcp-client/src/main/java/com/example/tcpclient/handler/ClientHandler.java:39 | fails a pending future and reports it; a done future is left as it is |
| ClientHandler.Handler.constructor | tcp-client/src/main/java/com/example/tcpclient/handler/ClientHandler.java:18-20 | no pending requests and an empty slot |
| ClientHandler.Handler.ChannelInactive | tcp-client/src/main/java/com/example/tcpclient/handler/ClientHandler.java:29-43 | every pending future and a pending current one fail with "Connection closed"; the map is emptied; nothing is left in flight |
| ClientHandler.Handler.ChannelRead0 | tcp-client/src/main/java/com/example/tcpclient/handler/ClientHandler.java:46-55 | a pending request is completed with the message and the slot cleared; with none pending nothing changes |
| ClientHandler.Handler.SendRequest | tcp-client/src/main/java/com/example/tcpclient/handler/ClientHandler.java:60-69 | while busy: a failed future, slot and channel untouched; otherwise a fresh pending future fills the slot and the request is written once |
| ClientHandler.Handler.ExceptionCaught | tcp-client/src/main/java/com/example/tcpclient/handler/ClientHandler.java:72-80 | a pending request fails with the cause and the channel closes |
| ClientHandler.ReconnectAccepts | tcp-client/src/main/java/com/example/tcpclient/handler/ClientHandler.java:38-68 | after a disconnect the in-flight request has failed and the next request is accepted and written |
| ClientHandler.SettledOnce | tcp-client/src/main/java/com/example/tcpclient/handler/ClientHandler.java:38-75 | a future settles at most once: failing again changes nothing and a settled future is not pending |
| FileTransferProtocol.NewMessage | tcp-server/src/main/java/com/example/tcpserver/protocol/FileTransferProtocol.java:26-30 | the length is the payload size; null data becomes empty |
| FileTransferProtocol.TextMessage | tcp-server/src/main/java/com/example/tcpserver/protocol/FileTransferProtocol.java:32-34 | the text's octets as payload; a null text gives an empty payload of length 0 |
| FileTransferProtocol.TextMessageText | tcp-server/src/main/java/com/example/tcpserver/protocol/FileTransferProtocol.java:32-34 | the payload of an ASCII text message reads back as the text and its length is the text's |
| FileTransferProtocol.ListingLines | tcp-server/src/main/java/com/example/tcpserver/handler/FileTransferHandler.java:77-78 | one toString line per file, in order |
| FileTransferProtocol.FileInfoToStringIsJoin | tcp-server/src/main/java/com/example/tcpserver/protocol/FileTransferProtocol.java:52-54 | toString is name, size and time joined by ',' |
| FileTransferProtocol.FileInfoRoundTrip | tcp-server/src/main/java/com/example/tcpserver/protocol/FileTransferProtocol.java:52-62 | fromString(toString(f)) == f when the name has no ',' |
| FileTransferProtocol.FileInfoFromStringCases | tcp-server/src/main/java/com/example/tcpserver/protocol/FileTransferProtocol.java:56-62 | null exactly when split does not give 3 pieces; NumberFormatException exactly when a number does not parse; otherwise the pieces' values |
| FileTransferProtocol.TrailingSeparatorAccepted | tcp-server/src/main/java/com/example/tcpserver/protocol/FileTransferProtocol.java:57 | since split drops trailing empty pieces, one trailing ',' still parses |
| MessageEncoder.Encode | tcp-server/src/main/java/com/example/tcpserver/codec/MessageEncoder.java:17-30 | appends the encoding to the buffer and changes nothing before it |
| MessageEncoder.EncodedLayout | tcp-server/src/main/java/com/example/tcpserver/codec/MessageEncoder.java:17-27 | the encoding is 5 + payload octets: type, big-endian length, payload; an empty payload gives exactly 5 |
| MessageDecoder.Decode | tcp-server/src/main/java/com/example/tcpserver/codec/MessageDecoder.java:21-62 | the reader index moves by what the step consumes, the output is the message it emits, and the channel closes exactly when it says so |
| MessageDecoder.DecodeStepShape | tcp-server/src/main/java/com/example/tcpserver/codec/MessageDecoder.java:23-61 | below 5 octets waits; a length below 0 or above 10 MiB closes after 5 octets; an emitted message has type s[0], the declared length and exactly that many payload octets |
| MessageDecoder.EncodeDecodeRoundTrip | tcp-server/src/main/java/com/example/tcpserver/codec/MessageDecoder.java:23-61 | any strict prefix of an encoded message waits; the whole encoding emits the same message and leaves what follows unread |
| FileTransferHandler.Handler.constructor | tcp-server/src/main/java/com/example/tcpserver/handler/FileTransferHandler.java:27-29 | counters at 0 and no addresses |
| FileTransferHandler.Handler.ChannelActive | tcp-server/src/main/java/com/example/tcpserver/handler/FileTransferHandler.java:32-38 | the count grows by one and the address is added |
| FileTransferHandler.Handler.ChannelInactive | tcp-server/src/main/java/com/example/tcpserver/handler/FileTransferHandler.java:41-47 | the count shrinks by one and the address is removed |
| FileTransferHandler.Handler.ChannelRead0 | tcp-server/src/main/java/com/example/tcpserver/handler/FileTransferHandler.java:50-67 | exactly one reply is written; the served count grows by one exactly on a successful download |
| FileTransferHandler.Handler.HandleListFiles | tcp-server/src/main/java/com/example/tcpserver/handler/FileTransferHandler.java:72-93 | a FILE_LIST of the listing lines joined by newlines, or an ERROR with the exception's message |
| FileTransferHandler.Handler.HandleDownloadFile | tcp-server/src/main/java/com/example/tcpserver/handler/FileTransferHandler.java:98-127 | an ERROR for an exception, a missing file or a null read; otherwise FILE_DATA and one more file served |
| FileTransferHandler.Handler.SendError | tcp-server/src/main/java/com/example/tcpserver/handler/FileTransferHandler.java:132-139 | one ERROR message carrying the text is written |
| FileTransferHandler.Handler.ExceptionCaught | tcp-server/src/main/java/com/example/tcpserver/handler/FileTransferHandler.java:142-145 | the channel is closed |
| FileTransferHandler.ServedIffFileData | tcp-server/src/main/java/com/example/tcpserver/handler/FileTransferHandler.java:53-120 | the served count grows exactly when the reply is FILE_DATA |
| FileTransferHandler.DownloadReplyCases | tcp-server/src/main/java/com/example/tcpserver/handler/FileTransferHandler.java:100-119 | an unknown name is reported not found, a null read as a read error, and a download carries exactly the file's octets |
| FileListExchange.ListReplyRoundTrip | tcp-client/src/main/java/com/example/tcpclient/service/FileDownloadService.java:77-94 | the client parses the server's FILE_LIST payload back to the server's list, in order, when every name is listable and the text is ASCII |
| FileDownloadService.ParseFileList | tcp-client/src/main/java/com/example/tcpclient/service/FileDownloadService.java:77-94 | the loop yields the entries of the lines, or the NumberFormatException that aborts it |
| FileDownloadService.NoneAbsorbs | tcp-client/src/main/java/com/example/tcpclient/service/FileDownloadService.java:82-90 | once a line has thrown, later lines do not matter |
| FileDownloadService.ParseLinesAppend | tcp-client/src/main/java/com/example/tcpclient/service/FileDownloadService.java:82-90 | parsing keeps line order: the entries of a + b are those of a then those of b |
| FileDownloadService.ParseOneLine | tcp-client/src/main/java/com/example/tcpclient/service/FileDownloadService.java:83-88 | a blank line or one fromString maps to null is dropped, a good line gives its entry, a bad number throws |
| FileDownloadService.ListingRoundTrip | tcp-client/src/main/java/com/example/tcpclient/service/FileDownloadService.java:77-94 | parseFileList inverts the server listing when names hold no ',' or newline and no leading white |
| FileDownloadService.LineRoundTrip | tcp-client/src/main/java/com/example/tcpclient/service/FileDownloadService.java:83-85 | a listing line is unchanged by trim and fromString reads it back |
| FileDownloadService.ParseEntryLines | tcp-client/src/main/java/com/example/tcpclient/service/FileDownloadService.java:82-90 | lines that each give one entry parse to those entries, in order |
| ResponseConfigService.ResponseConfigService.constructor | tcp-server/src/main/java/com/example/tcpserver/service/ResponseConfigService.java:33-47 | with no configuration file the cache is empty |
| ResponseConfigService.ResponseConfigService.LoadConfig | tcp-server/src/main/java/com/example/tcpserver/service/ResponseConfigService.java:84-101 | the cache becomes the parsed file; a missing or unparsable file, a `null` document or a top-level null value (putAll throws) empties it |
| ResponseConfigService.ResponseConfigService.LoadDefaultConfig | tcp-server/src/main/java/com/example/tcpserver/service/ResponseConfigService.java:106-110 | the cache is emptied |
| ResponseConfigService.ResponseConfigService.GetNestedValue | tcp-server/src/main/java/com/example/tcpserver/service/ResponseConfigService.java:245-261 | the loop gives the lookup result: the template of a map reached, the text of a leaf, null or a cast failure |
| ResponseConfigService.ResponseConfigService.FormatTemplate | tcp-server/src/main/java/com/example/tcpserver/service/ResponseConfigService.java:308-318 | the loop applies each variable's replacement in turn; null gives empty |
| ResponseConfigService.ResponseConfigService.GetResponseTemplate | tcp-server/src/main/java/com/example/tcpserver/service/ResponseConfigService.java:228-240 | the formatted template when the lookup finds text, otherwise the default |
| ResponseConfigService.ResponseConfigService.GenerateSigninSuccessResponse | tcp-server/src/main/java/com/example/tcpserver/service/ResponseConfigService.java:165-169 | the signin-success template or "Sign in successful at " + time |
| ResponseConfigService.ResponseConfigService.GenerateSigninFailedResponse | tcp-server/src/main/java/com/example/tcpserver/service/ResponseConfigService.java:174-178 | the signin-failed template or "Sign in failed: " + reason (or "Unknown error") |
| ResponseConfigService.ResponseConfigService.GenerateQuerySuccessResponse | tcp-server/src/main/java/com/example/tcpserver/service/ResponseConfigService.java:183-187 | the query template or the query default |
| ResponseConfigService.ResponseConfigService.GenerateUpdateSuccessResponse | tcp-server/src/main/java/com/example/tcpserver/service/ResponseConfigService.java:192-196 | the update template or the update default |
| ResponseConfigService.ResponseConfigService.GenerateDeleteSuccessResponse | tcp-server/src/main/java/com/example/tcpserver/service/ResponseConfigService.java:201-205 | the delete template or the delete default |
| ResponseConfigService.ResponseConfigService.GenerateUnknownTransactionCodeResponse | tcp-server/src/main/java/com/example/tcpserver/service/ResponseConfigService.java:210-214 | the unknown-code template or "Unknown transaction code: " + code (or "UNKNOWN") |
| ResponseConfigService.ResponseConfigService.GenerateUnknownTransactionTypeResponse | tcp-server/src/main/java/com/example/tcpserver/service/ResponseConfigService.java:219-223 | the unknown-type template or "Unknown transaction type: " + the signed type |
| ResponseConfigService.EmptyConfigUsesDefault | tcp-server/src/main/java/com/example/tcpserver/service/ResponseConfigService.java:228-239 | with an empty configuration every generator answers its default |
| ResponseConfigService.ShortPathUsesDefault | tcp-server/src/main/java/com/example/tcpserver/service/ResponseConfigService.java:249-254 | meeting a leaf or a missing key before the path ends gives null, hence the default |
| ResponseConfigService.ConfiguredTemplateUsed | tcp-server/src/main/java/com/example/tcpserver/service/ResponseConfigService.java:228-260 | a string template at the key's path is used with the time filled in; a non-string one fails the cast and the default is used |
| ResponseConfigService.SigninKeyPath | tcp-server/src/main/java/com/example/tcpserver/service/ResponseConfigService.java:246 | the signin key splits into its three levels |
| ResponseConfigService.FormatTemplateCases | tcp-server/src/main/java/com/example/tcpserver/service/ResponseConfigService.java:308-318 | null gives "", a template without {timestamp} comes back unchanged, and a single occurrence with no '{' before it is replaced by the time |
| ResponseConfigService.FormatTimestamp | tcp-server/src/main/java/com/example/tcpserver/service/ResponseConfigService.java:232-234 | with the single timestamp variable, formatting is one replacement |
| ConfigJson.WalkCompose | tcp-server/src/main/java/com/example/tcpserver/service/ResponseConfigService.java:249-255 | walking a path in two parts is walking the second from where the first ends |
| ConfigJson.WalkStopsAtLeaf | tcp-server/src/main/java/com/example/tcpserver/service/ResponseConfigService.java:252-253 | a leaf or null met with keys left yields null |
| ConfigJson.WalkNest | tcp-server/src/main/java/com/example/tcpserver/service/ResponseConfigService.java:249-255 | walking a nested chain along its keys reaches its leaf |
| ConfigJson.WalkEmpty | tcp-server/src/main/java/com/example/tcpserver/service/ResponseConfigService.java:249-255 | an empty configuration has nothing under any non-empty path |
| ClientConfigService.ClientConfigService.constructor | tcp-client/src/main/java/com/example/tcpclient/service/ClientConfigService.java:25 | the cache starts empty |
| ClientConfigService.ClientConfigService.LoadConfig | tcp-client/src/main/java/com/example/tcpclient/service/ClientConfigService.java:81-98 | the cache becomes the parsed file; a missing or unparsable file, a `null` document or a top-level null value (putAll throws) installs the default configuration |
| ClientConfigService.ClientConfigService.LoadDefaultConfig | tcp-client/src/main/java/com/example/tcpclient/service/ClientConfigService.java:103-131 | the cache becomes the default configuration |
| ClientConfigService.ClientConfigService.GetNestedValue | tcp-client/src/main/java/com/example/tcpclient/service/ClientConfigService.java:218-231 | the loop gives the value reached, or the default |
| ClientConfigService.ClientConfigService.GetTcpServerHost | tcp-client/src/main/java/com/example/tcpclient/service/ClientConfigService.java:153-157 | the host setting of the current cache |
| ClientConfigService.ClientConfigService.GetTcpServerPort | tcp-client/src/main/java/com/example/tcpclient/service/ClientConfigService.java:162-169 | the port setting of the current cache |
| ClientConfigService.ClientConfigService.GetConnectTimeout | tcp-client/src/main/java/com/example/tcpclient/service/ClientConfigService.java:174-181 | the timeout setting of the current cache |
| ClientConfigService.ClientConfigService.GetDownloadDirectory | tcp-client/src/main/java/com/example/tcpclient/service/ClientConfigService.java:186-190 | the directory setting of the current cache |
| ClientConfigService.ClientConfigService.GetSenderNodeId | tcp-client/src/main/java/com/example/tcpclient/service/ClientConfigService.java:195-199 | the node ID setting of the current cache |
| ClientConfigService.KeyPath | tcp-client/src/main/java/com/example/tcpclient/service/ClientConfigService.java:219 | a dotted four-level key splits back into its levels |
| ClientConfigService.SettingKeys | tcp-client/src/main/java/com/example/tcpclient/service/ClientConfigService.java:153-199 | each getter's dotted key (tcp.client.server.host, .port, tcp.client.connect.timeout, tcp.client.download.directory, tcp.client.sender.nodeId) splits back into its four levels, so every getter walks that path |
| ClientConfigService.NestedValueCases | tcp-client/src/main/java/com/example/tcpclient/service/ClientConfigService.java:222-230 | the value reached is returned unchanged; null at the end, or a non-map before it, gives the default |
| ClientConfigService.DefaultConfigWalks | tcp-client/src/main/java/com/example/tcpclient/service/ClientConfigService.java:103-128 | every setting path leads to its leaf in the default configuration |
| ClientConfigService.DefaultConfigSettings | tcp-client/src/main/java/com/example/tcpclient/service/ClientConfigService.java:103-128 | after loadDefaultConfig the getters give "localhost", 8888, 5000, "downloads" and "CLIENT" |
| ClientConfigService.NumberSettingCases | tcp-client/src/main/java/com/example/tcpclient/service/ClientConfigService.java:165-168 | a number that fits an int is returned as it is, any number keeps its low 32 bits, anything else falls back |
| ClientConfigService.EmptyConfigSettings | tcp-client/src/main/java/com/example/tcpclient/service/ClientConfigService.java:153-199 | with nothing under "tcp" every getter gives its fallback |
| Bytes.Int32ToBytes | tcp-client/src/main/java/com/example/tcpclient/protocol/TcpProtocol.java:213 | putInt's four big-endian octets of an int; partner Int32RoundTrip |
| Bytes.Int32FromBytes | tcp-client/src/main/java/com/example/tcpclient/protocol/TcpProtocol.java:250 | getInt's signed big-endian reading of four octets; partner Int32BytesRoundTrip |
| Bytes.StringToBytes | tcp-client/src/main/java/com/example/tcpclient/protocol/TcpProtocol.java:67 | getBytes, one octet per char; partner AsciiRoundTrip |
| Bytes.BytesToString | tcp-client/src/main/java/com/example/tcpclient/protocol/TcpProtocol.java:107 | new String(bytes), one char per octet; partner AsciiRoundTrip |
| JavaText.Trim | tcp-client/src/main/java/com/example/tcpclient/protocol/TcpProtocol.java:107 | String.trim: drops chars at or below U+0020 from both ends; partners TrimShape, TrimOfPadded |
| JavaText.Split | tcp-server/src/main/java/com/example/tcpserver/protocol/FileTransferProtocol.java:57 | String.split on a one-char separator, trailing empty pieces removed; partner SplitJoin |
| JavaText.Join | tcp-server/src/main/java/com/example/tcpserver/protocol/FileTransferProtocol.java:53 | pieces joined by a separator, as toString's concatenation and Collectors.joining build them; partner SplitJoin |
| JavaText.ParseLong | tcp-server/src/main/java/com/example/tcpserver/protocol/FileTransferProtocol.java:59 | Long.parseLong: an optional '+' or '-' and decimal digits, None for a NumberFormatException; partner ParseLongToString |
| JavaText.LongToString | tcp-server/src/main/java/com/example/tcpserver/protocol/FileTransferProtocol.java:53 | the decimal text of a long; partners ParseLongToString, LongToStringChars |
| JavaText.Replace | tcp-server/src/main/java/com/example/tcpserver/service/ResponseConfigService.java:315 | String.replace, left to right without overlaps; partners ReplaceAbsent, ReplaceFirst |
| ConfigJson.NonNull | tcp-server/src/main/java/com/example/tcpserver/service/ResponseConfigService.java:88-90 | the entries putAll copies into the ConcurrentHashMap cache when no top-level value is a JSON null: the same keys, each with its value |
| ConfigJson.Walk | tcp-server/src/main/java/com/example/tcpserver/service/ResponseConfigService.java:249-255 | the lookup loop: descend one key per level, null once a non-map or a missing key is met; partners WalkCompose, WalkStopsAtLeaf, WalkNest |
| TcpProtocol.NewRequestHeader | tcp-client/src/main/java/com/example/tcpclient/protocol/TcpProtocol.java:48-57 | the five-argument RequestHeader constructor, reserved octets zero |
| TcpProtocol.Padded | tcp-client/src/main/java/com/example/tcpclient/protocol/TcpProtocol.java:137-142 | padToLength's result; partner PaddedLayout |
| TcpProtocol.EncodedRequestHeader | tcp-client/src/main/java/com/example/tcpclient/protocol/TcpProtocol.java:62-89 | RequestHeader.toBytes; partners RequestHeaderLayout, RequestHeaderRoundTrip |
| TcpProtocol.ParsedRequestHeader | tcp-client/src/main/java/com/example/tcpclient/protocol/TcpProtocol.java:94-132 | RequestHeader.fromBytes, or its exception; partners ParsedRequestHeaderShape, RequestHeaderRoundTrip |
| TcpProtocol.EncodedResponseHeader | tcp-client/src/main/java/com/example/tcpclient/protocol/TcpProtocol.java:161-163 | ResponseHeader.toBytes; partner ResponseHeaderRoundTrip |
| TcpProtocol.ParsedResponseHeader | tcp-client/src/main/java/com/example/tcpclient/protocol/TcpProtocol.java:168-173 | ResponseHeader.fromBytes, or its exception; partner ResponseHeaderRoundTrip |
| TcpProtocol.EncodedMessage | tcp-client/src/main/java/com/example/tcpclient/protocol/TcpProtocol.java:206-223 | Message.toBytes, or its exception; partners EncodedMessageLayout, MessageToBytes |
| TcpProtocol.ParsedMessage | tcp-client/src/main/java/com/example/tcpclient/protocol/TcpProtocol.java:228-284 | Message.fromBytes with its response heuristic, or its exception; partners ParsedMessageShape, ParsedMessageRejects, the round trips |
| ClientTcpDecoder.DecodeStep | tcp-client/src/main/java/com/example/tcpclient/codec/TcpProtocolDecoder.java:25-93 | one client decode call, as written (length read at octets 2..5); partners DecodeStepShape, ResponseDelivery, RequestFramesClose |
| ClientTcpDecoder.FrameStep | tcp-client/src/main/java/com/example/tcpclient/codec/TcpProtocolDecoder.java:61-92 | the client decoder after the length field; partner FrameStepShape |
| ClientTcpDecoder.FixedDecodeStep | tcp-client/src/main/java/com/example/tcpclient/codec/TcpProtocolDecoder.java:25-93 | the client decode call with the request header skipped before the length; partners FixedAgreesOnResponses, FixedRequestDelivery |
| ServerTcpDecoder.DecodeStep | tcp-server/src/main/java/com/example/tcpserver/codec/TcpProtocolDecoder.java:25-81 | one server decode call; partners DecodeStepShape, RequestDelivery, ResponseFramesMisread |
| MessageDecoder.DecodeStep | tcp-server/src/main/java/com/example/tcpserver/codec/MessageDecoder.java:21-62 | one file-transfer decode call; partners DecodeStepShape, EncodeDecodeRoundTrip |
| MessageEncoder.Encoded | tcp-server/src/main/java/com/example/tcpserver/codec/MessageEncoder.java:17-30 | the octets encode writes; partners EncodedLayout, EncodeDecodeRoundTrip |
| FileTransferProtocol.FileInfoToString | tcp-server/src/main/java/com/example/tcpserver/protocol/FileTransferProtocol.java:52-54 | FileInfo.toString; partners FileInfoToStringIsJoin, FileInfoRoundTrip |
| FileTransferProtocol.FileInfoFromString | tcp-server/src/main/java/com/example/tcpserver/protocol/FileTransferProtocol.java:56-62 | FileInfo.fromString: an entry, null, or a NumberFormatException; partners FileInfoFromStringCases, FileInfoRoundTrip |
| FileTransferProtocol.ListingText | tcp-server/src/main/java/com/example/tcpserver/handler/FileTransferHandler.java:77-79 | the listing lines joined by newlines; partner ListingRoundTrip |
| FileTransferHandler.ErrorReply | tcp-server/src/main/java/com/example/tcpserver/handler/FileTransferHandler.java:132-139 | the ERROR message sendError writes; partner SendError |
| FileTransferHandler.ListReply | tcp-server/src/main/java/com/example/tcpserver/handler/FileTransferHandler.java:72-93 | the reply to LIST_FILES; partner ListReplyRoundTrip |
| FileTransferHandler.DownloadReply | tcp-server/src/main/java/com/example/tcpserver/handler/FileTransferHandler.java:98-127 | the reply to DOWNLOAD_FILE; partner DownloadReplyCases |
| FileTransferHandler.Reply | tcp-server/src/main/java/com/example/tcpserver/handler/FileTransferHandler.java:50-67 | the reply channelRead0 writes for any message type; partner ServedIffFileData |
| FileDownloadService.LineEntries | tcp-client/src/main/java/com/example/tcpclient/service/FileDownloadService.java:83-88 | what one line adds: nothing for a blank or null line, the entry, or the exception; partner ParseOneLine |
| FileDownloadService.ParseLines | tcp-client/src/main/java/com/example/tcpclient/service/FileDownloadService.java:82-90 | the loop's result over a sequence of lines; partners ParseLinesAppend, NoneAbsorbs, ParseEntryLines |
| FileDownloadService.ParsedFileList | tcp-client/src/main/java/com/example/tcpclient/service/FileDownloadService.java:77-94 | parseFileList: empty for a null or blank text, otherwise the lines' entries; partner ListingRoundTrip |
| ResponseConfigService.NestedValue | tcp-server/src/main/java/com/example/tcpserver/service/ResponseConfigService.java:245-261 | getNestedValue: a map's template, a leaf's text, null, or a cast failure; partners ShortPathUsesDefault, ConfiguredTemplateUsed |
| ResponseConfigService.Formatted | tcp-server/src/main/java/com/example/tcpserver/service/ResponseConfigService.java:308-318 | formatTemplate; partners FormatTemplateCases, FormatTimestamp |
| ResponseConfigService.ResponseText | tcp-server/src/main/java/com/example/tcpserver/service/ResponseConfigService.java:228-240 | getResponseTemplate; partners EmptyConfigUsesDefault, ShortPathUsesDefault, ConfiguredTemplateUsed |
| ResponseConfigService.SigninSuccessDefault | tcp-server/src/main/java/com/example/tcpserver/service/ResponseConfigService.java:167-168 | the built-in signin-success text; partner DefaultResponseBodies |
| ResponseConfigService.SigninFailedDefault | tcp-server/src/main/java/com/example/tcpserver/service/ResponseConfigService.java:176-177 | the built-in signin-failed text |
| ResponseConfigService.QueryDefault | tcp-server/src/main/java/com/example/tcpserver/service/ResponseConfigService.java:185-186 | the built-in query text; partner DefaultResponseBodies |
| ResponseConfigService.UpdateDefault | tcp-server/src/main/java/com/example/tcpserver/service/ResponseConfigService.java:194-195 | the built-in update text; partner DefaultResponseBodies |
| ResponseConfigService.DeleteDefault | tcp-server/src/main/java/com/example/tcpserver/service/ResponseConfigService.java:203-204 | the built-in delete text; partner DefaultResponseBodies |
| ResponseConfigService.UnknownCodeDefault | tcp-server/src/main/java/com/example/tcpserver/service/ResponseConfigService.java:212-213 | the built-in unknown-code text; partner DefaultResponseBodies |
| ResponseConfigService.UnknownTypeDefault | tcp-server/src/main/java/com/example/tcpserver/service/ResponseConfigService.java:221-222 | the built-in unknown-type text with the signed type; partner DefaultResponseBodies |
| ResponseConfigService.SigninSuccessStatus | tcp-server/src/main/java/com/example/tcpserver/service/ResponseConfigService.java:266-268 | getSigninSuccessStatus; partner StatusGettersOnTheWire |
| ResponseConfigService.SigninFailedStatus | tcp-server/src/main/java/com/example/tcpserver/service/ResponseConfigService.java:273-275 | getSigninFailedStatus; partner StatusGettersOnTheWire |
| ResponseConfigService.BusinessSuccessStatus | tcp-server/src/main/java/com/example/tcpserver/service/ResponseConfigService.java:280-282 | getBusinessSuccessStatus; partner StatusGettersOnTheWire |
| ResponseConfigService.BusinessFailedStatus | tcp-server/src/main/java/com/example/tcpserver/service/ResponseConfigService.java:287-289 | getBusinessFailedStatus; partner StatusGettersOnTheWire |
| TcpProtocolHandler.ResponseStatus | tcp-server/src/main/java/com/example/tcpserver/handler/TcpProtocolHandler.java:60-156 | the status the handler answers with; partner ResponseStatusCases |
| TcpProtocolHandler.ResponseBody | tcp-server/src/main/java/com/example/tcpserver/handler/TcpProtocolHandler.java:60-156 | the text the handler answers with; partner DefaultResponseBodies |
| TcpProtocolHandler.ResponseFor | tcp-server/src/main/java/com/example/tcpserver/handler/TcpProtocolHandler.java:96-156 | the response message the handler writes; partner ResponsesReachClient |
| TcpProtocolHandler.StatusGettersOnTheWire | tcp-server/src/main/java/com/example/tcpserver/service/ResponseConfigService.java:266-289 | the success getters give 0 and the failure getters 1: two distinct codes, each matching the response pattern the client decoder relies on |
| ClientConfigService.DefaultConfig | tcp-client/src/main/java/com/example/tcpclient/service/ClientConfigService.java:103-131 | the configuration loadDefaultConfig builds; partners DefaultConfigWalks, DefaultConfigSettings |
| ClientConfigService.NestedValue | tcp-client/src/main/java/com/example/tcpclient/service/ClientConfigService.java:218-231 | getNestedValue: the value reached, or the default; partner NestedValueCases |
| ClientConfigService.StringSetting | tcp-client/src/main/java/com/example/tcpclient/service/ClientConfigService.java:156 | value.toString of a string getter; partners DefaultConfigSettings, EmptyConfigSettings |
| ClientConfigService.NumberSetting | tcp-client/src/main/java/com/example/tcpclient/service/ClientConfigService.java:165-168 | Number.intValue or the fallback; partner NumberSettingCases |
| ClientConfigService.TcpServerHost | tcp-client/src/main/java/com/example/tcpclient/service/ClientConfigService.java:153-157 | getTcpServerHost; partners SettingKeys, DefaultConfigSettings, EmptyConfigSettings |
| ClientConfigService.TcpServerPort | tcp-client/src/main/java/com/example/tcpclient/service/ClientConfigService.java:162-169 | getTcpServerPort; partners SettingKeys, DefaultConfigSettings, EmptyConfigSettings |
| ClientConfigService.ConnectTimeout | tcp-client/src/main/java/com/example/tcpclient/service/ClientConfigService.java:174-181 | getConnectTimeout; partners SettingKeys, DefaultConfigSettings, EmptyConfigSettings |
| ClientConfigService.DownloadDirectory | tcp-client/src/main/java/com/example/tcpclient/service/ClientConfigService.java:186-190 | getDownloadDirectory; partners SettingKeys, DefaultConfigSettings, EmptyConfigSettings |
| ClientConfigService.SenderNodeId | tcp-client/src/main/java/com/example/tcpclient/service/ClientConfigService.java:195-199 | getSenderNodeId; partners SettingKeys, DefaultConfigSettings, EmptyConfigSettings |

## Left out

- Character sets: `getBytes()` and `new String(bytes)` are modelled as one char per octet. The round-trip lemmas require ASCII text. Other platform charsets are not modelled.
- Netty's cumulation loop, which calls `decode` again while input remains, is not modelled. Each decoder model describes one `decode` call on the readable octets. Partial delivery is stated as "every strict prefix waits".
- Logging (`log.info`, `log.error`, `printStackTrace`) is left out throughout, because it has no effect on state or replies.
- Concurrency is not modelled: `volatile` fields, the non-atomic `++`/`--` on the handler counters, the `AtomicLong` serial counter, `ConcurrentHashMap`, and the futures' thread hand-off. Each method runs as one atomic step, and the counters are unbounded integers.
- `ClientHandler.requestIdGenerator` is never read by the client, so it is left out. `pendingRequests` is modelled but nothing ever adds to it, as in the source.
- The config services' file I/O is not modelled: `findConfigFile`, the `File` reads and the Jackson parse in `loadConfig`, `checkAndReloadConfig`, `lastModified`, and the `try`/`catch` in `init`. `LoadConfig` takes the parsed content, or its absence, as a parameter.
- `reloadConfig` and `getCurrentConfig` are left out as separate members, because each is a one-line call to, or read of, what is modelled.
- JSON values are maps, strings, integral numbers and other leaves: floats, booleans and arrays are kept only as their text. Below the top level, a JSON `null` is treated as an absent key, as `Map.get` returns null for both. At the top level, `LoadConfig` takes it as a `None` value in the file's `TopLevel` map. Because the cache is a `ConcurrentHashMap`, `putAll` then throws, and the caught exception installs the default config. A document that is just `null` makes `putAll(null)` throw, so it is passed as `None`, like a parse failure.
- ClientConfigService.NumberSetting: `Number.intValue()` is modelled for integral numbers only, as truncation to the low 32 bits. A floating-point value is not modelled.
- ClientConfigService.StringSetting: the text of a map value (Java's `AbstractMap.toString`) is not modelled, so a map value gives `None`.
- Dotted configuration keys are written as the join of their levels, which is the same string as the source's literal keys.
- The clock: `LocalDateTime.now()` and its formatting appear as a `now` text parameter.
- The remote address in the connection callbacks is a parameter.
- The file system behind `FileService` (`listFiles`, `fileExists`, `readFile`) is a `FileStore` value. `FileService` catches its own `IOException`s and answers an empty list or a null read. The store's listed failures stand for the runtime exceptions that still reach the handler's `catch (Exception e)`, such as an `InvalidPathException` from `Paths.get`.
- `FileDownloadService` networking and `saveFile` are not part of this model. `parseFileList` is modelled, and a `NumberFormatException` that escapes it is the result `None`.
- FileTransferHandler.ListReply: `FileService.getFileList` declares a result of `List<service.FileInfo>`, whose Lombok-generated `toString` is not part of this model. The handler holds that list as `List<FileTransferProtocol.FileInfo>` and maps it through that class's `toString`. The model takes the handler's type, so `ListingText` and `FileListExchange.ListReplyRoundTrip` rest on `FileTransferProtocol.FileInfo.toString`.
- The client's `FileInfo` class is taken to have the same fields, `toString` and `fromString` as the server's `FileTransferProtocol.FileInfo`.
- The server's own `TcpProtocol` class is not part of this model. The server decoder and handler use the client's `TcpProtocol` model, whose format is the one both sides share.
- `TcpProtocolEncoder` is not part of this model.
- `RequestHeader` is a value with non-null text fields and exactly two reserved octets. The Lombok setters also allow a null string, which makes `toBytes` throw a `NullPointerException`, and a `reserved` array of another length, which overflows the 42-octet buffer. No code path of the system builds either, so neither state is modelled.
- `TcpClient`, the controllers, `TcpServer`, `ExternalConfigManager` and the application entry points are outside the modelled core.

## Findings

The client decoder checks for a whole 42-octet request header (lines 46-50, whose comment says the full header must be read) but reads the length field after only two octets (line 61). The server decoder reads the same field at octets 42..45.

| source | as written | input that shows it | evidently intended | confidence | as-written member | corrected member |
|---|---|---|---|---|---|---|
| tcp-client/src/main/java/com/example/tcpclient/codec/TcpProtocolDecoder.java:43-61 | For a frame classified as a request, the decoder checks that 42 header octets are readable, but only 2 octets have been consumed when `readInt` runs. The length is therefore taken from octets 2..5, which are the third to sixth sender chars. | A request from sender "CLIENT": octets 2..5 are "IENT" = 0x49454E54, above the 1 MiB bound, so the connection is closed after 6 octets instead of the request being delivered. | Skip the remaining 40 header octets before reading the length field at octets 42..45, as the server decoder does. | not executed | ClientTcpDecoder.RequestFramesClose | ClientTcpDecoder.FixedRequestDelivery |
