/** The parts of Netty the codecs and handlers touch: a growable octet buffer with
    a reader index that can be marked and reset, a channel that records what is
    written to it and whether it is still open, and the result of one call of a
    ByteToMessageDecoder's decode. */
module Netty {
  import opened Bytes

  /** io.netty.buffer.ByteBuf. Octets before `readerIndex` are consumed; the rest are
      readable. Writes append. */
  class ByteBuf {
    var bytes: Bytes
    var readerIndex: nat
    var markedReaderIndex: nat

    ghost predicate Valid()
      reads this
    {
      readerIndex <= |bytes| && markedReaderIndex <= |bytes|
    }

    constructor (content: Bytes)
      ensures Valid() && bytes == content && readerIndex == 0 && markedReaderIndex == 0
    {
      bytes := content;
      readerIndex := 0;
      markedReaderIndex := 0;
    }

    function ReadableBytes(): nat
      reads this
      requires Valid()
    {
      |bytes| - readerIndex
    }

    /** The octets not read yet. */
    function Readable(): Bytes
      reads this
      requires Valid()
    {
      bytes[readerIndex..]
    }

    method MarkReaderIndex()
      requires Valid()
      modifies this`markedReaderIndex
      ensures Valid() && markedReaderIndex == readerIndex
    {
      markedReaderIndex := readerIndex;
    }

    method ResetReaderIndex()
      requires Valid()
      modifies this`readerIndex
      ensures Valid() && readerIndex == markedReaderIndex
    {
      readerIndex := markedReaderIndex;
    }

    /** readBytes(byte[n]): the next n readable octets. */
    method ReadBytes(n: nat) returns (r: Bytes)
      requires Valid() && n <= ReadableBytes()
      modifies this`readerIndex
      ensures Valid() && readerIndex == old(readerIndex) + n
      ensures r == old(Readable())[..n]
    {
      r := bytes[readerIndex..readerIndex + n];
      readerIndex := readerIndex + n;
    }

    method ReadByte() returns (b: Byte)
      requires Valid() && 1 <= ReadableBytes()
      modifies this`readerIndex
      ensures Valid() && readerIndex == old(readerIndex) + 1
      ensures b == old(Readable())[0]
    {
      b := bytes[readerIndex];
      readerIndex := readerIndex + 1;
    }

    /** readInt: the next four octets, big-endian, signed. */
    method ReadInt() returns (n: Int32)
      requires Valid() && 4 <= ReadableBytes()
      modifies this`readerIndex
      ensures Valid() && readerIndex == old(readerIndex) + 4
      ensures n == Int32FromBytes(old(Readable())[..4])
    {
      n := Int32FromBytes(bytes[readerIndex..readerIndex + 4]);
      readerIndex := readerIndex + 4;
    }

    method WriteByte(b: Byte)
      requires Valid()
      modifies this`bytes
      ensures Valid() && bytes == old(bytes) + [b]
    {
      bytes := bytes + [b];
    }

    /** writeInt: four octets, big-endian. */
    method WriteInt(n: Int32)
      requires Valid()
      modifies this`bytes
      ensures Valid() && bytes == old(bytes) + Int32ToBytes(n)
    {
      bytes := bytes + Int32ToBytes(n);
    }

    method WriteBytes(src: Bytes)
      requires Valid()
      modifies this`bytes
      ensures Valid() && bytes == old(bytes) + src
    {
      bytes := bytes + src;
    }
  }

  /** A channel (or its handler context): the messages written and flushed on it, in order,
      and whether it has been closed. */
  class Channel<M> {
    var open: bool
    var written: seq<M>

    constructor ()
      ensures open && written == []
    {
      open := true;
      written := [];
    }

    method WriteAndFlush(m: M)
      modifies this`written
      ensures written == old(written) + [m]
    {
      written := written + [m];
    }

    method Close()
      modifies this`open
      ensures !open
    {
      open := false;
    }
  }

  /** What one call of decode does: wait for more octets, emit one message, or close
      the connection. */
  datatype Outcome<M> = Wait | Emit(message: M) | CloseConnection

  /** An outcome together with the number of readable octets the call consumed. */
  datatype Step<M> = Step(outcome: Outcome<M>, consumed: nat)

  /** The messages a step adds to decode's output list. */
  function Emitted<M>(st: Step<M>): seq<M> {
    if st.outcome.Emit? then [st.outcome.message] else []
  }
}
