/** The request/response wire format of the TCP trading protocol
    (tcp-client TcpProtocol): a 42-octet request header or a 2-octet response
    header, then the total frame length as a 4-octet big-endian int, then the
    payload. No octet says which kind a frame is: a frame whose first octet is
    0x00 or 0x01 and whose second octet is 0x00 is taken for a response. */
module TcpProtocol {
  import opened Wrappers
  import opened Bytes
  import opened JavaText
  import opened NioBuffer

  const REQUEST_HEADER_LENGTH: nat := 42
  const RESPONSE_HEADER_LENGTH: nat := 2
  const LENGTH_FIELD_LENGTH: nat := 4

  const TRANSACTION_TYPE_BUSINESS: Byte := 0
  const TRANSACTION_TYPE_SIGNIN: Byte := 1

  const RESPONSE_SUCCESS: Byte := 0
  const RESPONSE_FAILED: Byte := 1

  /** Widths of the padded text fields of a request header. */
  const SENDER_WIDTH: nat := 6
  const RECEIVER_WIDTH: nat := 6
  const CODE_WIDTH: nat := 7
  const SERIAL_WIDTH: nat := 20

  /** The two reserved octets of a request header. */
  type Reserved = b: Bytes | |b| == 2 witness [0, 0]

  datatype RequestHeader = RequestHeader(
    senderNodeId: string,
    receiverNodeId: string,
    transactionType: Byte,
    transactionCode: string,
    transactionSerial: string,
    reserved: Reserved)

  datatype ResponseHeader = ResponseHeader(status: Byte)

  /** A message carries exactly one of the two headers; `IsRequest` tells which. */
  datatype Header = Request(request: RequestHeader) | Response(response: ResponseHeader)

  datatype Message = Message(header: Header, length: Int32, data: Bytes) {
    predicate IsRequest() {
      header.Request?
    }
  }

  /** The exceptions the encoders and decoders can throw. */
  datatype ProtocolError =
    | InvalidHeaderLength(n: nat)
    | InvalidResponseHeaderLength(n: nat)
    | MessageTooShort
    | IncompleteMessage
    | BufferUnderflow
    | BufferOverflow
    | IllegalCapacity

  /** The five-argument RequestHeader constructor: the reserved octets start at zero. */
  function NewRequestHeader(sender: string, receiver: string, transactionType: Byte,
                            code: string, serial: string): RequestHeader
  {
    RequestHeader(sender, receiver, transactionType, code, serial, [0, 0])
  }

  function HeaderLength(h: Header): nat {
    if h.Request? then REQUEST_HEADER_LENGTH else RESPONSE_HEADER_LENGTH
  }

  /** The octet count of the frame a message stands for: header, length field, payload. */
  function FrameSize(m: Message): nat {
    HeaderLength(m.header) + LENGTH_FIELD_LENGTH + |m.data|
  }

  /** Message(RequestHeader, byte[]): null data becomes empty; the length is computed in Java int arithmetic. */
  function NewRequest(h: RequestHeader, data: Option<Bytes>): (m: Message)
    ensures m.IsRequest() && m.header.request == h
    ensures m.data == if data.Some? then data.value else []
  {
    var d := if data.Some? then data.value else [];
    Message(Request(h), ToInt32(REQUEST_HEADER_LENGTH + LENGTH_FIELD_LENGTH + |d|), d)
  }

  /** Message(ResponseHeader, byte[]). */
  function NewResponse(h: ResponseHeader, data: Option<Bytes>): (m: Message)
    ensures !m.IsRequest() && m.header.response == h
    ensures m.data == if data.Some? then data.value else []
  {
    var d := if data.Some? then data.value else [];
    Message(Response(h), ToInt32(RESPONSE_HEADER_LENGTH + LENGTH_FIELD_LENGTH + |d|), d)
  }

  /** Both constructors record the frame's true size whenever that size fits an int. */
  lemma ConstructorLength(m: Message, h: Header, data: Option<Bytes>)
    requires m == (match h case Request(r) => NewRequest(r, data) case Response(r) => NewResponse(r, data))
    requires FrameSize(m) <= INT32_MAX
    ensures m.length == FrameSize(m)
    ensures m.header == h
  {
  }

  // ------------------------------------------------------------------
  // Request header

  /** padToLength: the first min(|b|, n) octets of b, then zeros up to n. */
  function Padded(b: Bytes, n: nat): Bytes {
    if |b| >= n then b[..n] else b + Zeros(n - |b|)
  }

  /** Padding has exactly the requested width, keeps b's octets in front and fills with zeros;
      an over-long field is cut off. */
  lemma PaddedLayout(b: Bytes, n: nat)
    ensures |Padded(b, n)| == n
    ensures forall i :: 0 <= i < n ==> Padded(b, n)[i] == if i < |b| then b[i] else 0
  {
  }

  method PadToLength(bytes: Bytes, length: nat) returns (r: Bytes)
    ensures r == Padded(bytes, length)
  {
    var result := new Byte[length](_ => 0);
    var copyLength := if |bytes| < length then |bytes| else length;
    var i := 0;
    while i < copyLength
      invariant 0 <= i <= copyLength
      invariant result[..] == bytes[..i] + Zeros(length - i)
    {
      result[i] := bytes[i];
      i := i + 1;
      assert result[..] == bytes[..i] + Zeros(length - i);
    }
    r := result[..];
    assert bytes[..copyLength] == if |bytes| >= length then bytes[..length] else bytes;
  }

  /** The 42 octets RequestHeader.toBytes produces. */
  function EncodedRequestHeader(h: RequestHeader): Bytes {
    Padded(StringToBytes(h.senderNodeId), SENDER_WIDTH)
    + Padded(StringToBytes(h.receiverNodeId), RECEIVER_WIDTH)
    + [h.transactionType]
    + Padded(StringToBytes(h.transactionCode), CODE_WIDTH)
    + Padded(StringToBytes(h.transactionSerial), SERIAL_WIDTH)
    + h.reserved
  }

  /** The header is always 42 octets: sender [0,6), receiver [6,12), type at 12,
      code [13,20), serial [20,40), reserved [40,42). */
  lemma RequestHeaderLayout(h: RequestHeader)
    ensures var b := EncodedRequestHeader(h);
      && |b| == REQUEST_HEADER_LENGTH
      && b[0..6] == Padded(StringToBytes(h.senderNodeId), SENDER_WIDTH)
      && b[6..12] == Padded(StringToBytes(h.receiverNodeId), RECEIVER_WIDTH)
      && b[12] == h.transactionType
      && b[13..20] == Padded(StringToBytes(h.transactionCode), CODE_WIDTH)
      && b[20..40] == Padded(StringToBytes(h.transactionSerial), SERIAL_WIDTH)
      && b[40..42] == h.reserved
  {
    PaddedLayout(StringToBytes(h.senderNodeId), SENDER_WIDTH);
    PaddedLayout(StringToBytes(h.receiverNodeId), RECEIVER_WIDTH);
    PaddedLayout(StringToBytes(h.transactionCode), CODE_WIDTH);
    PaddedLayout(StringToBytes(h.transactionSerial), SERIAL_WIDTH);
  }

  method RequestHeaderToBytes(h: RequestHeader) returns (r: Bytes)
    ensures r == EncodedRequestHeader(h)
  {
    RequestHeaderLayout(h);
    var buffer := new ByteBuffer.Allocate(REQUEST_HEADER_LENGTH);
    var senderBytes := PadToLength(StringToBytes(h.senderNodeId), SENDER_WIDTH);
    var ok := buffer.Put(senderBytes);
    ghost var written := senderBytes;
    assert buffer.data[..buffer.position] == written && buffer.position == 6;
    var receiverBytes := PadToLength(StringToBytes(h.receiverNodeId), RECEIVER_WIDTH);
    ok := buffer.Put(receiverBytes);
    written := written + receiverBytes;
    assert buffer.data[..buffer.position] == written && buffer.position == 12;
    ok := buffer.PutByte(h.transactionType);
    written := written + [h.transactionType];
    assert buffer.data[..buffer.position] == written && buffer.position == 13;
    var codeBytes := PadToLength(StringToBytes(h.transactionCode), CODE_WIDTH);
    ok := buffer.Put(codeBytes);
    written := written + codeBytes;
    assert buffer.data[..buffer.position] == written && buffer.position == 20;
    var serialBytes := PadToLength(StringToBytes(h.transactionSerial), SERIAL_WIDTH);
    ok := buffer.Put(serialBytes);
    written := written + serialBytes;
    assert buffer.data[..buffer.position] == written && buffer.position == 40;
    ok := buffer.Put(h.reserved);
    written := written + h.reserved;
    assert buffer.data[..buffer.position] == written && buffer.position == 42;
    r := buffer.data[..];
    assert r == buffer.data[..buffer.position];
  }

  /** A text field as fromBytes reads it: the octets as chars, trimmed. */
  function FieldText(b: Bytes): string {
    Trim(BytesToString(b))
  }

  /** The value RequestHeader.fromBytes returns or the exception it throws. */
  function ParsedRequestHeader(b: Bytes): Result<RequestHeader, ProtocolError> {
    if |b| != REQUEST_HEADER_LENGTH then Failure(InvalidHeaderLength(|b|))
    else Success(RequestHeader(FieldText(b[0..6]), FieldText(b[6..12]), b[12],
                               FieldText(b[13..20]), FieldText(b[20..40]), b[40..42]))
  }

  method RequestHeaderFromBytes(bytes: Bytes) returns (r: Result<RequestHeader, ProtocolError>)
    ensures r == ParsedRequestHeader(bytes)
  {
    if |bytes| != REQUEST_HEADER_LENGTH {
      return Failure(InvalidHeaderLength(|bytes|));
    }
    var buffer := new ByteBuffer.Wrap(bytes);
    var senderBytes := buffer.Get(SENDER_WIDTH);
    var sender := Trim(BytesToString(senderBytes.value));
    var receiverBytes := buffer.Get(RECEIVER_WIDTH);
    var receiver := Trim(BytesToString(receiverBytes.value));
    var transactionType := buffer.GetByte();
    var codeBytes := buffer.Get(CODE_WIDTH);
    var code := Trim(BytesToString(codeBytes.value));
    var serialBytes := buffer.Get(SERIAL_WIDTH);
    var serial := Trim(BytesToString(serialBytes.value));
    var reserved := buffer.Get(2);
    r := Success(RequestHeader(sender, receiver, transactionType.value, code, serial, reserved.value));
  }

  /** fromBytes accepts exactly the 42-octet inputs; its text fields come back with no
      surrounding white, the type octet and the reserved octets come back verbatim. */
  lemma ParsedRequestHeaderShape(b: Bytes)
    ensures ParsedRequestHeader(b).Success? <==> |b| == REQUEST_HEADER_LENGTH
    ensures ParsedRequestHeader(b).Success? ==>
      var h := ParsedRequestHeader(b).value;
      && NoEdgeWhite(h.senderNodeId) && NoEdgeWhite(h.receiverNodeId)
      && NoEdgeWhite(h.transactionCode) && NoEdgeWhite(h.transactionSerial)
      && h.transactionType == b[12] && h.reserved == b[40..42]
  {
    if |b| == REQUEST_HEADER_LENGTH {
      TrimShape(BytesToString(b[0..6]));
      TrimShape(BytesToString(b[6..12]));
      TrimShape(BytesToString(b[13..20]));
      TrimShape(BytesToString(b[20..40]));
    }
  }

  /** A text field that encode then decode gives back unchanged. */
  predicate FieldFits(s: string, width: nat) {
    IsAscii(s) && |s| <= width && NoEdgeWhite(s)
  }

  lemma FieldRoundTrip(s: string, width: nat)
    requires FieldFits(s, width)
    ensures FieldText(Padded(StringToBytes(s), width)) == s
  {
    var z := Zeros(width - |s|);
    assert Padded(StringToBytes(s), width) == StringToBytes(s) + z;
    BytesToStringAppend(StringToBytes(s), z);
    AsciiRoundTrip(s);
    var nuls := BytesToString(z);
    assert AllWhite(nuls);
    assert s + nuls == "" + s + nuls;
    TrimOfPadded("", s, nuls);
  }

  predicate HeaderFieldsFit(h: RequestHeader) {
    && FieldFits(h.senderNodeId, SENDER_WIDTH)
    && FieldFits(h.receiverNodeId, RECEIVER_WIDTH)
    && FieldFits(h.transactionCode, CODE_WIDTH)
    && FieldFits(h.transactionSerial, SERIAL_WIDTH)
  }

  /** Decoding an encoded header gives it back when every text field is ASCII,
      fits its width and has no white at its edges. */
  lemma RequestHeaderRoundTrip(h: RequestHeader)
    requires HeaderFieldsFit(h)
    ensures ParsedRequestHeader(EncodedRequestHeader(h)) == Success(h)
  {
    RequestHeaderLayout(h);
    FieldRoundTrip(h.senderNodeId, SENDER_WIDTH);
    FieldRoundTrip(h.receiverNodeId, RECEIVER_WIDTH);
    FieldRoundTrip(h.transactionCode, CODE_WIDTH);
    FieldRoundTrip(h.transactionSerial, SERIAL_WIDTH);
  }

  // ------------------------------------------------------------------
  // Response header

  /** ResponseHeader.toBytes: the status, then a zero octet. */
  function EncodedResponseHeader(h: ResponseHeader): Bytes {
    [h.status, 0]
  }

  /** ResponseHeader.fromBytes. */
  function ParsedResponseHeader(b: Bytes): Result<ResponseHeader, ProtocolError> {
    if |b| != RESPONSE_HEADER_LENGTH then Failure(InvalidResponseHeaderLength(|b|))
    else Success(ResponseHeader(b[0]))
  }

  /** The response header decodes back to itself; fromBytes accepts exactly two octets
      and ignores the second. */
  lemma ResponseHeaderRoundTrip(h: ResponseHeader, b: Bytes)
    ensures ParsedResponseHeader(EncodedResponseHeader(h)) == Success(h)
    ensures ParsedResponseHeader(b).Success? <==> |b| == RESPONSE_HEADER_LENGTH
    ensures |b| == RESPONSE_HEADER_LENGTH ==> ParsedResponseHeader(b).value.status == b[0]
  {
  }

  // ------------------------------------------------------------------
  // Whole messages

  function HeaderBytes(h: Header): Bytes {
    match h
    case Request(r) => EncodedRequestHeader(r)
    case Response(r) => EncodedResponseHeader(r)
  }

  lemma HeaderBytesLength(h: Header)
    ensures |HeaderBytes(h)| == HeaderLength(h)
  {
    if h.Request? {
      RequestHeaderLayout(h.request);
    }
  }

  /** Message.toBytes: header, length, payload written into a buffer of `length` octets.
      A negative length cannot be allocated; a buffer too small overflows; a buffer
      larger than the frame keeps its zero tail. */
  function EncodedMessage(m: Message): Result<Bytes, ProtocolError> {
    if m.length < 0 then Failure(IllegalCapacity)
    else
      var frame := HeaderBytes(m.header) + Int32ToBytes(m.length) + m.data;
      if |frame| > m.length then Failure(BufferOverflow)
      else Success(frame + Zeros(m.length - |frame|))
  }

  method MessageToBytes(m: Message) returns (r: Result<Bytes, ProtocolError>)
    ensures r == EncodedMessage(m)
  {
    if m.length < 0 {
      return Failure(IllegalCapacity);
    }
    var headerBytes;
    if m.IsRequest() {
      headerBytes := RequestHeaderToBytes(m.header.request);
    } else {
      headerBytes := EncodedResponseHeader(m.header.response);
    }
    r := WriteFrame(headerBytes, m.length, m.data);
  }

  /** The buffer part of toBytes: allocate `length` octets and put the header, the length
      and the payload in turn; any put that does not fit overflows. */
  method WriteFrame(headerBytes: Bytes, length: Int32, data: Bytes) returns (r: Result<Bytes, ProtocolError>)
    requires length >= 0
    ensures var frame := headerBytes + Int32ToBytes(length) + data;
      r == if |frame| > length then Failure(BufferOverflow) else Success(frame + Zeros(length - |frame|))
  {
    var buffer := new ByteBuffer.Allocate(length);
    ghost var before := buffer.data[..];
    assert ZeroTail(before, 0);
    var ok := buffer.Put(headerBytes);
    if !ok {
      return Failure(BufferOverflow);
    }
    assert buffer.data[..buffer.position] == headerBytes;
    TailStaysZero(before, buffer.data[..], 0, buffer.position);
    before := buffer.data[..];
    ok := buffer.PutInt(length);
    if !ok {
      return Failure(BufferOverflow);
    }
    TailStaysZero(before, buffer.data[..], buffer.position - 4, buffer.position);
    before := buffer.data[..];
    ok := buffer.Put(data);
    if !ok {
      return Failure(BufferOverflow);
    }
    TailStaysZero(before, buffer.data[..], buffer.position - |data|, buffer.position);
    ZeroTailIsZeros(buffer.data[..], buffer.position);
    assert buffer.data[..] == buffer.data[..buffer.position] + buffer.data[buffer.position..];
    r := Success(buffer.data[..]);
  }

  /** Every octet from `p` on is still zero. */
  ghost predicate ZeroTail(b: Bytes, p: nat) {
    forall i :: p <= i < |b| ==> b[i] == 0
  }

  /** A put that leaves everything from `q` on untouched keeps a zero tail from `q`. */
  lemma TailStaysZero(before: Bytes, after: Bytes, p: nat, q: nat)
    requires ZeroTail(before, p) && p <= q <= |before| == |after|
    requires after[q..] == before[q..]
    ensures ZeroTail(after, q)
  {
    forall i | q <= i < |after| ensures after[i] == 0 {
      assert after[i] == after[q..][i - q] == before[q..][i - q] == before[i];
    }
  }

  lemma ZeroTailIsZeros(b: Bytes, p: nat)
    requires ZeroTail(b, p) && p <= |b|
    ensures b[p..] == Zeros(|b| - p)
  {
  }

  /** A message whose recorded length is its frame size encodes to exactly `length`
      octets: the header, the length big-endian, then the payload. */
  lemma EncodedMessageLayout(m: Message)
    requires m.length == FrameSize(m)
    ensures EncodedMessage(m).Success?
    ensures var b := EncodedMessage(m).value;
      && |b| == m.length
      && b[..HeaderLength(m.header)] == HeaderBytes(m.header)
      && b[HeaderLength(m.header)..HeaderLength(m.header) + 4] == Int32ToBytes(m.length)
      && b[HeaderLength(m.header) + 4..] == m.data
  {
    HeaderBytesLength(m.header);
    var frame := HeaderBytes(m.header) + Int32ToBytes(m.length) + m.data;
    assert frame + Zeros(0) == frame;
  }

  /** The classification rule: status 0 or 1 followed by a zero octet means "response". */
  predicate IsResponsePattern(first: Byte, second: Byte) {
    (first == 0x00 || first == 0x01) && second == 0x00
  }

  /** The value Message.fromBytes returns or the exception it throws. */
  function ParsedMessage(b: Bytes): Result<Message, ProtocolError> {
    if |b| < LENGTH_FIELD_LENGTH then Failure(MessageTooShort)
    else if IsResponsePattern(b[0], b[1]) then
      if |b| < RESPONSE_HEADER_LENGTH + LENGTH_FIELD_LENGTH then Failure(BufferUnderflow)
      else
        var length := Int32FromBytes(b[2..6]);
        if |b| != length then Failure(IncompleteMessage)
        else Success(Message(Response(ResponseHeader(b[0])), length, b[6..]))
    else
      if |b| < REQUEST_HEADER_LENGTH + LENGTH_FIELD_LENGTH then Failure(BufferUnderflow)
      else
        var length := Int32FromBytes(b[42..46]);
        if |b| != length then Failure(IncompleteMessage)
        else Success(Message(Request(ParsedRequestHeader(b[..42]).value), length, b[46..]))
  }

  method MessageFromBytes(bytes: Bytes) returns (r: Result<Message, ProtocolError>)
    ensures r == ParsedMessage(bytes)
  {
    if |bytes| < LENGTH_FIELD_LENGTH {
      return Failure(MessageTooShort);
    }
    var buffer := new ByteBuffer.Wrap(bytes);
    var firstByte := bytes[0];
    var secondByte := bytes[1];
    var isResponse := IsResponsePattern(firstByte, secondByte);
    if isResponse {
      var headerBytes := buffer.Get(RESPONSE_HEADER_LENGTH);
      var responseHeader := ParsedResponseHeader(headerBytes.value);
      var length := buffer.GetInt();
      if length.None? {
        return Failure(BufferUnderflow);
      }
      if |bytes| != length.value {
        return Failure(IncompleteMessage);
      }
      var dataLength := length.value - RESPONSE_HEADER_LENGTH - LENGTH_FIELD_LENGTH;
      var data := buffer.Get(dataLength);
      var message := NewResponse(responseHeader.value, Some(data.value));
      message := message.(length := length.value);
      assert data.value == bytes[6..];
      r := Success(message);
    } else {
      var headerBytes := buffer.Get(REQUEST_HEADER_LENGTH);
      if headerBytes.None? {
        return Failure(BufferUnderflow);
      }
      var requestHeader := RequestHeaderFromBytes(headerBytes.value);
      var length := buffer.GetInt();
      if length.None? {
        return Failure(BufferUnderflow);
      }
      if |bytes| != length.value {
        return Failure(IncompleteMessage);
      }
      var dataLength := length.value - REQUEST_HEADER_LENGTH - LENGTH_FIELD_LENGTH;
      var data := buffer.Get(dataLength);
      var message := NewRequest(requestHeader.value, Some(data.value));
      message := message.(length := length.value);
      assert headerBytes.value == bytes[..42];
      assert data.value == bytes[46..];
      r := Success(message);
    }
  }

  /** What fromBytes accepts: a decoded message is a response exactly when the first two
      octets match the pattern, its length is the input's octet count and equals the
      length field, and its payload is everything after the header and the length. */
  lemma ParsedMessageShape(b: Bytes)
    requires ParsedMessage(b).Success?
    ensures var m := ParsedMessage(b).value;
      && |b| >= HeaderLength(m.header) + LENGTH_FIELD_LENGTH
      && (m.IsRequest() <==> !IsResponsePattern(b[0], b[1]))
      && m.length == |b| == FrameSize(m)
      && Int32FromBytes(b[HeaderLength(m.header)..HeaderLength(m.header) + 4]) == |b|
      && m.data == b[HeaderLength(m.header) + 4..]
      && (m.IsRequest() ==> Success(m.header.request) == ParsedRequestHeader(b[..42]))
      && (!m.IsRequest() ==> m.header.response.status == b[0])
  {
  }

  /** What fromBytes rejects: fewer than four octets, too few octets to hold the header the
      first two octets call for and its length field, or a length field that is not the
      input's octet count. */
  lemma ParsedMessageRejects(b: Bytes)
    ensures |b| < LENGTH_FIELD_LENGTH ==> ParsedMessage(b) == Failure(MessageTooShort)
    ensures |b| >= LENGTH_FIELD_LENGTH ==>
      var hl := if IsResponsePattern(b[0], b[1]) then RESPONSE_HEADER_LENGTH else REQUEST_HEADER_LENGTH;
      && (|b| < hl + 4 ==> ParsedMessage(b) == Failure(BufferUnderflow))
      && (|b| >= hl + 4 && Int32FromBytes(b[hl..hl + 4]) != |b| ==> ParsedMessage(b) == Failure(IncompleteMessage))
  {
  }

  /** Response round trip: a response with status 0 or 1 decodes back to the same status,
      payload and length. */
  lemma ResponseRoundTrip(status: Byte, data: Bytes)
    requires status == RESPONSE_SUCCESS || status == RESPONSE_FAILED
    requires RESPONSE_HEADER_LENGTH + LENGTH_FIELD_LENGTH + |data| <= INT32_MAX
    ensures var m := NewResponse(ResponseHeader(status), Some(data));
      && EncodedMessage(m).Success?
      && ParsedMessage(EncodedMessage(m).value) == Success(m)
  {
    var m := NewResponse(ResponseHeader(status), Some(data));
    EncodedMessageLayout(m);
    var b := EncodedMessage(m).value;
    Int32RoundTrip(m.length);
    assert b[2..6] == Int32ToBytes(m.length);
  }

  /** The octets of an encoded request: the header, whose first octet is the sender's
      first character (so never the response pattern), the length after it, then the
      payload. */
  lemma EncodedRequestFrame(h: RequestHeader, data: Bytes)
    requires HeaderFieldsFit(h) && h.senderNodeId != ""
    requires REQUEST_HEADER_LENGTH + LENGTH_FIELD_LENGTH + |data| <= INT32_MAX
    ensures var m := NewRequest(h, Some(data));
      && EncodedMessage(m).Success?
      && var f := EncodedMessage(m).value;
      && |f| == m.length == REQUEST_HEADER_LENGTH + LENGTH_FIELD_LENGTH + |data|
      && f[..42] == EncodedRequestHeader(h)
      && !IsResponsePattern(f[0], f[1])
      && Int32FromBytes(f[42..46]) == m.length
      && f[46..] == data
  {
    var m := NewRequest(h, Some(data));
    EncodedMessageLayout(m);
    var f := EncodedMessage(m).value;
    RequestHeaderLayout(h);
    PaddedLayout(StringToBytes(h.senderNodeId), SENDER_WIDTH);
    assert f[0] == StringToBytes(h.senderNodeId)[0] == h.senderNodeId[0] as int;
    Int32RoundTrip(m.length);
  }

  /** Request round trip: decoding the encoding gives the same header and payload back when
      every text field fits (ASCII, within its width, no white at its edges), the sender is
      not empty (so the frame cannot start with the response pattern) and the frame size
      fits an int. */
  lemma RequestRoundTrip(h: RequestHeader, data: Bytes)
    requires HeaderFieldsFit(h) && h.senderNodeId != ""
    requires REQUEST_HEADER_LENGTH + LENGTH_FIELD_LENGTH + |data| <= INT32_MAX
    ensures var m := NewRequest(h, Some(data));
      && EncodedMessage(m).Success?
      && ParsedMessage(EncodedMessage(m).value) == Success(m)
  {
    EncodedRequestFrame(h, data);
    RequestHeaderRoundTrip(h);
  }


  /** The heuristic's blind spots. A response whose status is neither 0 nor 1 never decodes
      as a response, and a request with an empty sender (its frame opens with 00 00) never
      decodes as a request. */
  lemma MisclassifiedFrames(status: Byte, h: RequestHeader, data: Bytes)
    requires status != RESPONSE_SUCCESS && status != RESPONSE_FAILED
    requires h.senderNodeId == ""
    requires REQUEST_HEADER_LENGTH + LENGTH_FIELD_LENGTH + |data| <= INT32_MAX
    ensures var resp := EncodedMessage(NewResponse(ResponseHeader(status), Some(data)));
      resp.Success? && (ParsedMessage(resp.value).Failure? || ParsedMessage(resp.value).value.IsRequest())
    ensures var req := EncodedMessage(NewRequest(h, Some(data)));
      req.Success? && (ParsedMessage(req.value).Failure? || !ParsedMessage(req.value).value.IsRequest())
  {
    var resp := NewResponse(ResponseHeader(status), Some(data));
    EncodedMessageLayout(resp);
    var b := EncodedMessage(resp).value;
    assert b[0] == status;
    if ParsedMessage(b).Success? {
      ParsedMessageShape(b);
    }
    var req := NewRequest(h, Some(data));
    EncodedMessageLayout(req);
    var c := EncodedMessage(req).value;
    RequestHeaderLayout(h);
    PaddedLayout(StringToBytes(h.senderNodeId), SENDER_WIDTH);
    assert c[0] == 0 && c[1] == 0;
    if ParsedMessage(c).Success? {
      ParsedMessageShape(c);
    }
  }
}
