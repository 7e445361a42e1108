/** tcp-server TcpProtocolDecoder: the server's frame splitter. It assumes every inbound
    frame carries the 42-octet request header: it waits for 42 octets, reads the length
    from offsets 42 to 45, and parses with Message.fromBytes. The server's own TcpProtocol
    class is not part of this model; the client's message format stands in for it. */
module ServerTcpDecoder {
  import opened Wrappers
  import opened Bytes
  import opened TcpProtocol
  import opened Netty

  const MIN_MESSAGE_LENGTH: int := 4
  const MAX_MESSAGE_LENGTH: int := 1024 * 1024

  predicate OutOfBounds(length: Int32) {
    length < MIN_MESSAGE_LENGTH || length > MAX_MESSAGE_LENGTH
  }

  /** One decode call on the readable octets `s`. */
  function DecodeStep(s: Bytes): Step<Message> {
    if |s| < REQUEST_HEADER_LENGTH then Step(Wait, 0)
    else if |s| - REQUEST_HEADER_LENGTH < LENGTH_FIELD_LENGTH then Step(Wait, 0)
    else
      var messageLength := Int32FromBytes(s[42..46]);
      if messageLength < MIN_MESSAGE_LENGTH || messageLength > MAX_MESSAGE_LENGTH then Step(CloseConnection, 46)
      else if |s| - 46 < messageLength - REQUEST_HEADER_LENGTH - LENGTH_FIELD_LENGTH then Step(Wait, 0)
      else match ParsedMessage(s[..messageLength])
        case Success(m) => Step(Emit(m), messageLength)
        case Failure(_) => Step(CloseConnection, messageLength)
  }

  method Decode(ctx: Channel<Message>, input: ByteBuf) returns (out: seq<Message>)
    requires input.Valid()
    modifies input`readerIndex, input`markedReaderIndex, ctx`open
    ensures input.Valid()
    ensures var st := DecodeStep(old(input.Readable()));
      && input.readerIndex == old(input.readerIndex) + st.consumed
      && out == Emitted(st)
      && ctx.open == (old(ctx.open) && !st.outcome.CloseConnection?)
  {
    ghost var s := input.Readable();
    if input.ReadableBytes() < REQUEST_HEADER_LENGTH {
      return [];
    }
    input.MarkReaderIndex();
    var headerBytes := input.ReadBytes(REQUEST_HEADER_LENGTH);
    var headerLength := REQUEST_HEADER_LENGTH;
    if input.ReadableBytes() < LENGTH_FIELD_LENGTH {
      input.ResetReaderIndex();
      return [];
    }
    assert input.Readable()[..4] == s[42..46];
    var messageLength := input.ReadInt();
    if messageLength < MIN_MESSAGE_LENGTH || messageLength > MAX_MESSAGE_LENGTH {
      ctx.Close();
      return [];
    }
    var remainingBytes := messageLength - headerLength - LENGTH_FIELD_LENGTH;
    if input.ReadableBytes() < remainingBytes {
      input.ResetReaderIndex();
      return [];
    }
    input.ResetReaderIndex();
    var messageBytes := input.ReadBytes(messageLength);
    assert messageBytes == s[..messageLength];
    var message := MessageFromBytes(messageBytes);
    if message.Failure? {
      ctx.Close();
      return [];
    }
    out := [message.value];
  }

  /** Nothing happens below 42 readable octets, so a short response frame on its own is
      never decoded. A length out of bounds closes after 46 octets. Waiting consumes
      nothing, nothing beyond the readable octets is consumed, and an emitted message is
      the parse of exactly the octets consumed. */
  lemma DecodeStepShape(s: Bytes)
    ensures var st := DecodeStep(s);
      && st.consumed <= |s|
      && (st.outcome.Wait? ==> st.consumed == 0)
      && (|s| < REQUEST_HEADER_LENGTH + LENGTH_FIELD_LENGTH ==> st == Step(Wait, 0))
      && (|s| >= 46 ==> OutOfBounds(Int32FromBytes(s[42..46])) ==> st == Step(CloseConnection, 46))
      && (st.outcome.Emit? ==>
            && MIN_MESSAGE_LENGTH <= st.consumed <= MAX_MESSAGE_LENGTH
            && st.outcome.message.length == st.consumed
            && st.outcome.message.length == Int32FromBytes(s[42..46])
            && ParsedMessage(s[..st.consumed]) == Success(st.outcome.message))
  {
    var st := DecodeStep(s);
    if st.outcome.Emit? {
      ParsedMessageShape(s[..st.consumed]);
    }
  }

  /** Partial delivery of a request frame: any strict prefix waits and consumes nothing,
      and the whole frame, whatever follows it, emits the request and consumes exactly the
      frame. */
  lemma RequestDelivery(h: RequestHeader, data: Bytes, k: nat, rest: Bytes)
    requires HeaderFieldsFit(h) && h.senderNodeId != ""
    requires REQUEST_HEADER_LENGTH + LENGTH_FIELD_LENGTH + |data| <= MAX_MESSAGE_LENGTH
    ensures var m := NewRequest(h, Some(data));
      && EncodedMessage(m).Success?
      && var f := EncodedMessage(m).value;
      && (k < |f| ==> DecodeStep(f[..k]) == Step(Wait, 0))
      && DecodeStep(f + rest) == Step(Emit(m), |f|)
  {
    var m := NewRequest(h, Some(data));
    EncodedRequestFrame(h, data);
    RequestRoundTrip(h, data);
    var f := EncodedMessage(m).value;
    if 46 <= k < |f| {
      assert f[..k][42..46] == f[42..46];
    }
    var s := f + rest;
    assert s[42..46] == f[42..46];
    assert s[..|f|] == f;
  }

  /** A response frame, of any status, is read as if it carried a request header. Below
      46 octets the decoder waits, so a response with fewer than 40 payload octets and
      nothing after it is never decoded. Otherwise the length is taken from octets 42 to
      45, which are payload octets 36 to 39 of the response: a value out of bounds closes
      after 46 octets, and an emitted message consumes exactly that many octets. Only a
      frame whose status is neither 0 nor 1 is certain not to come out as a response. */
  lemma ResponseFramesMisread(status: Byte, data: Bytes, rest: Bytes)
    requires RESPONSE_HEADER_LENGTH + LENGTH_FIELD_LENGTH + |data| <= MAX_MESSAGE_LENGTH
    ensures var m := NewResponse(ResponseHeader(status), Some(data));
      && EncodedMessage(m).Success?
      && var s := EncodedMessage(m).value + rest;
      && var st := DecodeStep(s);
      && (|s| < REQUEST_HEADER_LENGTH + LENGTH_FIELD_LENGTH ==> st == Step(Wait, 0))
      && (|data| < 40 && rest == [] ==> st == Step(Wait, 0))
      && (|data| >= 40 ==>
            && s[42..46] == data[36..40]
            && (OutOfBounds(Int32FromBytes(data[36..40])) ==> st == Step(CloseConnection, 46))
            && (st.outcome.Emit? ==> st.consumed == Int32FromBytes(data[36..40])))
      && (status != RESPONSE_SUCCESS && status != RESPONSE_FAILED && st.outcome.Emit? ==>
            st.outcome.message.IsRequest())
  {
    var m := NewResponse(ResponseHeader(status), Some(data));
    EncodedMessageLayout(m);
    var f := EncodedMessage(m).value;
    var s := f + rest;
    var st := DecodeStep(s);
    if |data| >= 40 {
      assert s[42..46] == f[42..46] == data[36..40];
    }
    if st.outcome.Emit? {
      DecodeStepShape(s);
      ParsedMessageShape(s[..st.consumed]);
      assert s[..st.consumed][0] == status;
    }
  }

  /** A status-0 response whose payload octets 36 to 39 encode 46, its own frame size, is
      emitted by the server decoder as that very response. */
  lemma ResponseEmittedWhole()
    ensures var m := NewResponse(ResponseHeader(RESPONSE_SUCCESS), Some(Zeros(36) + Int32ToBytes(46)));
      && EncodedMessage(m).Success?
      && DecodeStep(EncodedMessage(m).value) == Step(Emit(m), 46)
      && !m.IsRequest()
  {
    var data := Zeros(36) + Int32ToBytes(46);
    var m := NewResponse(ResponseHeader(RESPONSE_SUCCESS), Some(data));
    ResponseRoundTrip(RESPONSE_SUCCESS, data);
    EncodedMessageLayout(m);
    var f := EncodedMessage(m).value;
    assert f[42..46] == data[36..40] == Int32ToBytes(46);
    Int32RoundTrip(46);
    assert f[..46] == f;
  }
}
