/** tcp-client TcpProtocolDecoder: cuts protocol messages out of the inbound octet
    stream. Each call looks at the readable octets, classifies the frame by its first two
    octets, reads the length field, and either waits (rewinding to the mark), emits one
    parsed message, or closes the connection. */
module ClientTcpDecoder {
  import opened Wrappers
  import opened Bytes
  import opened TcpProtocol
  import opened Netty

  const MIN_MESSAGE_LENGTH: int := 4
  const MAX_MESSAGE_LENGTH: int := 1024 * 1024

  /** One decode call on the readable octets `s`, as the code is written. For a frame
      classified as a request it checks that 42 header octets are present but does not
      skip them, so the length is read from offsets 2 to 5. */
  function DecodeStep(s: Bytes): Step<Message> {
    if |s| < RESPONSE_HEADER_LENGTH then Step(Wait, 0)
    else
      var isResponse := IsResponsePattern(s[0], s[1]);
      var headerLength := if isResponse then RESPONSE_HEADER_LENGTH else REQUEST_HEADER_LENGTH;
      if !isResponse && |s| - 2 < REQUEST_HEADER_LENGTH - 2 then Step(Wait, 0)
      else if |s| - 2 < LENGTH_FIELD_LENGTH then Step(Wait, 0)
      else FrameStep(s, headerLength, 6, Int32FromBytes(s[2..6]))
  }

  /** The same call with the request header skipped before the length is read, so the
      length comes from the octets right after whichever header the frame has. */
  function FixedDecodeStep(s: Bytes): Step<Message> {
    if |s| < RESPONSE_HEADER_LENGTH then Step(Wait, 0)
    else
      var isResponse := IsResponsePattern(s[0], s[1]);
      var headerLength := if isResponse then RESPONSE_HEADER_LENGTH else REQUEST_HEADER_LENGTH;
      if |s| < headerLength + LENGTH_FIELD_LENGTH then Step(Wait, 0)
      else FrameStep(s, headerLength, headerLength + 4, Int32FromBytes(s[headerLength..headerLength + 4]))
  }

  /** What follows once the length field has been read and the cursor stands at `cursor`:
      a length out of bounds closes with the cursor left there; too few octets for the rest
      of the frame rewinds; otherwise the cursor goes back to the frame start and `length`
      octets are read and parsed. Reading more octets than there are throws, and the
      exception, like a parse failure, closes the connection. */
  function FrameStep(s: Bytes, headerLength: nat, cursor: nat, length: Int32): Step<Message>
    requires cursor <= |s|
  {
    if length < MIN_MESSAGE_LENGTH || length > MAX_MESSAGE_LENGTH then Step(CloseConnection, cursor)
    else if |s| - cursor < length - headerLength - LENGTH_FIELD_LENGTH then Step(Wait, 0)
    else if length > |s| then Step(CloseConnection, 0)
    else match ParsedMessage(s[..length])
      case Success(m) => Step(Emit(m), length)
      case Failure(_) => Step(CloseConnection, length)
  }

  method Decode(ctx: Channel<Message>, input: ByteBuf) returns (out: seq<Message>)
    requires input.Valid()
    modifies input`readerIndex, input`markedReaderIndex, ctx`open
    ensures input.Valid()
    ensures var st := DecodeStep(old(input.Readable()));
      && input.readerIndex == old(input.readerIndex) + st.consumed
      && out == Emitted(st)
      && ctx.open == (old(ctx.open) && !st.outcome.CloseConnection?)
  {
    ghost var s := input.Readable();
    ghost var start := input.readerIndex;
    if input.ReadableBytes() < RESPONSE_HEADER_LENGTH {
      return [];
    }
    input.MarkReaderIndex();
    var firstTwoBytes := input.ReadBytes(2);
    var isResponse := IsResponsePattern(firstTwoBytes[0], firstTwoBytes[1]);
    var headerLength: nat;
    if isResponse {
      headerLength := RESPONSE_HEADER_LENGTH;
    } else {
      if input.ReadableBytes() < REQUEST_HEADER_LENGTH - 2 {
        input.ResetReaderIndex();
        return [];
      }
      headerLength := REQUEST_HEADER_LENGTH;
    }
    if input.ReadableBytes() < LENGTH_FIELD_LENGTH {
      input.ResetReaderIndex();
      return [];
    }
    assert input.Readable()[..4] == s[2..6];
    var messageLength := input.ReadInt();
    if messageLength < MIN_MESSAGE_LENGTH || messageLength > MAX_MESSAGE_LENGTH {
      ctx.Close();
      return [];
    }
    var remainingBytes := messageLength - headerLength - LENGTH_FIELD_LENGTH;
    if input.ReadableBytes() < remainingBytes {
      input.ResetReaderIndex();
      return [];
    }
    input.ResetReaderIndex();
    if messageLength > input.ReadableBytes() {
      // readBytes into a longer array throws IndexOutOfBoundsException before moving
      ctx.Close();
      return [];
    }
    var messageBytes := input.ReadBytes(messageLength);
    assert messageBytes == s[..messageLength];
    var message := MessageFromBytes(messageBytes);
    if message.Failure? {
      ctx.Close();
      return [];
    }
    out := [message.value];
  }

  /** What a length-field step can do: it never consumes more than is readable, waiting
      consumes nothing, and an emitted message is the parse of exactly the octets consumed,
      whose count is the message's length and within the bounds. */
  lemma FrameStepShape(s: Bytes, headerLength: nat, cursor: nat, length: Int32)
    requires cursor <= |s|
    ensures var st := FrameStep(s, headerLength, cursor, length);
      && st.consumed <= |s|
      && (st.outcome.Wait? ==> st.consumed == 0)
      && (st.outcome.Emit? ==>
            && MIN_MESSAGE_LENGTH <= st.consumed <= MAX_MESSAGE_LENGTH
            && st.outcome.message.length == st.consumed == length
            && ParsedMessage(s[..st.consumed]) == Success(st.outcome.message))
      && (length < MIN_MESSAGE_LENGTH || length > MAX_MESSAGE_LENGTH ==> st == Step(CloseConnection, cursor))
  {
    var st := FrameStep(s, headerLength, cursor, length);
    if st.outcome.Emit? {
      ParsedMessageShape(s[..length]);
    }
  }

  /** The guards in front of the length field: fewer than two octets, or a frame that looks
      like a request with fewer than 42 octets, waits and consumes nothing. Whatever the
      outcome, an emitted message is the parse of the octets consumed. */
  lemma DecodeStepShape(s: Bytes)
    ensures var st := DecodeStep(s);
      && st.consumed <= |s|
      && (st.outcome.Wait? ==> st.consumed == 0)
      && (st.outcome.Emit? ==>
            && MIN_MESSAGE_LENGTH <= st.consumed <= MAX_MESSAGE_LENGTH
            && st.outcome.message.length == st.consumed
            && ParsedMessage(s[..st.consumed]) == Success(st.outcome.message))
      && (|s| < RESPONSE_HEADER_LENGTH ==> st == Step(Wait, 0))
      && (|s| >= RESPONSE_HEADER_LENGTH && !IsResponsePattern(s[0], s[1]) && |s| < REQUEST_HEADER_LENGTH ==>
            st == Step(Wait, 0))
      && (|s| >= 6 && (IsResponsePattern(s[0], s[1]) || |s| >= REQUEST_HEADER_LENGTH) ==>
            var length := Int32FromBytes(s[2..6]);
            length < MIN_MESSAGE_LENGTH || length > MAX_MESSAGE_LENGTH ==> st == Step(CloseConnection, 6))
  {
    if |s| >= 6 && (IsResponsePattern(s[0], s[1]) || |s| >= REQUEST_HEADER_LENGTH) {
      var headerLength := if IsResponsePattern(s[0], s[1]) then RESPONSE_HEADER_LENGTH else REQUEST_HEADER_LENGTH;
      FrameStepShape(s, headerLength, 6, Int32FromBytes(s[2..6]));
    }
  }

  /** The corrected decoder differs from the one as written only on frames classified as
      requests: on response frames the two agree. */
  lemma FixedAgreesOnResponses(s: Bytes)
    requires |s| >= RESPONSE_HEADER_LENGTH && IsResponsePattern(s[0], s[1])
    ensures FixedDecodeStep(s) == DecodeStep(s)
  {
  }

  /** Partial delivery of a response frame: any strict prefix waits and consumes nothing,
      and the whole frame, whatever follows it, emits the response and consumes exactly
      the frame. */
  lemma ResponseDelivery(status: Byte, data: Bytes, k: nat, rest: Bytes)
    requires status == RESPONSE_SUCCESS || status == RESPONSE_FAILED
    requires RESPONSE_HEADER_LENGTH + LENGTH_FIELD_LENGTH + |data| <= MAX_MESSAGE_LENGTH
    ensures var m := NewResponse(ResponseHeader(status), Some(data));
      && EncodedMessage(m).Success?
      && var f := EncodedMessage(m).value;
      && (k < |f| ==> DecodeStep(f[..k]) == Step(Wait, 0))
      && DecodeStep(f + rest) == Step(Emit(m), |f|)
  {
    var m := NewResponse(ResponseHeader(status), Some(data));
    EncodedMessageLayout(m);
    ResponseRoundTrip(status, data);
    var f := EncodedMessage(m).value;
    Int32RoundTrip(m.length);
    assert f[2..6] == Int32ToBytes(m.length);
    if k < |f| && k >= 6 {
      var p := f[..k];
      assert p[0] == f[0] && p[1] == f[1] && p[2..6] == f[2..6];
    }
    var s := f + rest;
    assert s[0] == f[0] && s[1] == f[1] && s[2..6] == f[2..6];
    assert s[..|f|] == f;
  }

  /** As written, a request frame whose sender ID has a third character other than NUL is
      never decoded: octets 2 to 5 hold sender characters, read as a length above 1 MiB, so
      the connection is closed after six octets. */
  lemma RequestFramesClose(h: RequestHeader, data: Bytes, rest: Bytes)
    requires HeaderFieldsFit(h) && |h.senderNodeId| >= 3 && h.senderNodeId[2] != 0 as char
    requires REQUEST_HEADER_LENGTH + LENGTH_FIELD_LENGTH + |data| <= MAX_MESSAGE_LENGTH
    ensures var m := NewRequest(h, Some(data));
      && EncodedMessage(m).Success?
      && DecodeStep(EncodedMessage(m).value + rest) == Step(CloseConnection, 6)
  {
    var m := NewRequest(h, Some(data));
    EncodedMessageLayout(m);
    var f := EncodedMessage(m).value;
    RequestHeaderLayout(h);
    PaddedLayout(StringToBytes(h.senderNodeId), SENDER_WIDTH);
    var s := f + rest;
    assert s[0] == h.senderNodeId[0] as int;
    assert s[2] == h.senderNodeId[2] as int;
    Int32FromBytesLeading(s[2..6]);
  }

  /** With the header skipped, request frames are delivered like responses: a strict
      prefix waits, and the whole frame emits the request and consumes exactly the frame. */
  lemma FixedRequestDelivery(h: RequestHeader, data: Bytes, k: nat, rest: Bytes)
    requires HeaderFieldsFit(h) && h.senderNodeId != ""
    requires REQUEST_HEADER_LENGTH + LENGTH_FIELD_LENGTH + |data| <= MAX_MESSAGE_LENGTH
    ensures var m := NewRequest(h, Some(data));
      && EncodedMessage(m).Success?
      && var f := EncodedMessage(m).value;
      && (k < |f| ==> FixedDecodeStep(f[..k]) == Step(Wait, 0))
      && FixedDecodeStep(f + rest) == Step(Emit(m), |f|)
  {
    EncodedRequestFrame(h, data);
    RequestRoundTrip(h, data);
    var m := NewRequest(h, Some(data));
    var f := EncodedMessage(m).value;
    if k < |f| && k >= 2 {
      var p := f[..k];
      assert p[0] == f[0] && p[1] == f[1];
      if k >= 46 {
        assert p[42..46] == f[42..46];
      }
    }
    var s := f + rest;
    assert s[0] == f[0] && s[1] == f[1] && s[42..46] == f[42..46];
    assert s[..|f|] == f;
  }
}
