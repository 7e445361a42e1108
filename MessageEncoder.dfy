/** tcp-server MessageEncoder: writes a file-transfer message as its type octet, its
    declared length big-endian, then its payload. */
module MessageEncoder {
  import opened Bytes
  import opened Netty
  import opened FileTransferProtocol

  /** The octets the encoder appends for a message. */
  function Encoded(m: Message): Bytes {
    [m.msgType] + Int32ToBytes(m.length) + m.data
  }

  method Encode(msg: Message, out: ByteBuf)
    requires out.Valid()
    modifies out`bytes
    ensures out.Valid() && out.bytes == old(out.bytes) + Encoded(msg)
  {
    out.WriteByte(msg.msgType);
    out.WriteInt(msg.length);
    if |msg.data| > 0 {
      out.WriteBytes(msg.data);
    }
    assert out.bytes == old(out.bytes) + Encoded(msg);
  }

  /** The encoding is five octets plus the payload: the type, the length, then the payload
      verbatim; an empty payload gives exactly five octets. */
  lemma EncodedLayout(m: Message)
    ensures var b := Encoded(m);
      && |b| == 5 + |m.data|
      && b[0] == m.msgType
      && b[1..5] == Int32ToBytes(m.length)
      && b[5..] == m.data
      && (m.data == [] ==> |b| == 5)
  {
  }
}
