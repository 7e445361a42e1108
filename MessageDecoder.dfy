/** tcp-server MessageDecoder: cuts file-transfer messages out of the inbound octet
    stream. */
module MessageDecoder {
  import opened Wrappers
  import opened Bytes
  import opened Netty
  import opened FileTransferProtocol
  import MessageEncoder

  const HEADER_SIZE: nat := 5
  const MAX_LENGTH: int := 1024 * 1024 * 10

  /** One decode call on the readable octets `s`. */
  function DecodeStep(s: Bytes): Step<Message> {
    if |s| < HEADER_SIZE then Step(Wait, 0)
    else
      var length := Int32FromBytes(s[1..5]);
      if length < 0 || length > MAX_LENGTH then Step(CloseConnection, HEADER_SIZE)
      else if |s| - HEADER_SIZE < length then Step(Wait, 0)
      else Step(Emit(Message(s[0], length, s[5..5 + length])), HEADER_SIZE + length)
  }

  method Decode(ctx: Channel<Message>, input: ByteBuf) returns (out: seq<Message>)
    requires input.Valid()
    modifies input`readerIndex, input`markedReaderIndex, ctx`open
    ensures input.Valid()
    ensures var st := DecodeStep(old(input.Readable()));
      && input.readerIndex == old(input.readerIndex) + st.consumed
      && out == Emitted(st)
      && ctx.open == (old(ctx.open) && !st.outcome.CloseConnection?)
  {
    ghost var s := input.Readable();
    if input.ReadableBytes() < HEADER_SIZE {
      return [];
    }
    input.MarkReaderIndex();
    var msgType := input.ReadByte();
    assert input.Readable()[..4] == s[1..5];
    var length := input.ReadInt();
    if length < 0 || length > MAX_LENGTH {
      ctx.Close();
      return [];
    }
    if input.ReadableBytes() < length {
      input.ResetReaderIndex();
      return [];
    }
    assert input.Readable()[..length] == s[5..5 + length];
    var data := input.ReadBytes(length);
    var message := Message(0, 0, []);
    message := message.(msgType := msgType);
    message := message.(length := length);
    message := message.(data := data);
    out := [message];
  }

  /** Fewer than five octets wait; a declared length below 0 or above 10 MiB closes after
      the five header octets; an emitted message has the first octet as its type, the
      declared length, and exactly that many payload octets, and the call consumes the
      five header octets plus the payload. */
  lemma DecodeStepShape(s: Bytes)
    ensures var st := DecodeStep(s);
      && st.consumed <= |s|
      && (st.outcome.Wait? ==> st.consumed == 0)
      && (|s| < HEADER_SIZE ==> st == Step(Wait, 0))
      && (|s| >= HEADER_SIZE ==> var length := Int32FromBytes(s[1..5]);
            (length < 0 || length > MAX_LENGTH) ==> st == Step(CloseConnection, HEADER_SIZE))
      && (st.outcome.Emit? ==>
            var m := st.outcome.message;
            && m.msgType == s[0]
            && m.length == Int32FromBytes(s[1..5]) == |m.data|
            && 0 <= m.length <= MAX_LENGTH
            && st.consumed == HEADER_SIZE + m.length
            && m.data == s[HEADER_SIZE..st.consumed])
  {
  }

  /** Round trip and partial delivery: for a constructed message of at most 10 MiB, any
      strict prefix of its encoding waits, and the whole encoding, whatever follows it,
      emits the same message and leaves what follows unread. */
  lemma EncodeDecodeRoundTrip(msgType: Byte, data: Bytes, k: nat, rest: Bytes)
    requires |data| <= MAX_LENGTH
    ensures var m := NewMessage(msgType, Some(data));
      var f := MessageEncoder.Encoded(m);
      && (k < |f| ==> DecodeStep(f[..k]) == Step(Wait, 0))
      && DecodeStep(f + rest) == Step(Emit(m), |f|)
  {
    var m := NewMessage(msgType, Some(data));
    var f := MessageEncoder.Encoded(m);
    MessageEncoder.EncodedLayout(m);
    Int32RoundTrip(m.length);
    if HEADER_SIZE <= k < |f| {
      assert f[..k][1..5] == f[1..5];
    }
    var s := f + rest;
    assert s[1..5] == f[1..5];
    assert s[5..5 + |data|] == data;
  }
}
