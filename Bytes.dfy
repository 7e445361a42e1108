/** Octets, Java's signed views of them, and the 32-bit big-endian integer
    layout that java.nio.ByteBuffer and Netty's ByteBuf use for putInt/readInt. */
module Bytes {

  /** One octet, held as its unsigned value. */
  type Byte = x: int | 0 <= x < 256

  type Bytes = seq<Byte>

  const INT32_MIN: int := -0x8000_0000
  const INT32_MAX: int := 0x7FFF_FFFF
  const INT64_MIN: int := -0x8000_0000_0000_0000
  const INT64_MAX: int := 0x7FFF_FFFF_FFFF_FFFF

  /** Java `int` and `long`. */
  type Int32 = x: int | INT32_MIN <= x <= INT32_MAX
  type Int64 = x: int | INT64_MIN <= x <= INT64_MAX

  /** Java's narrowing of an int-valued expression to `int`: keep the low 32 bits. */
  function ToInt32(n: int): (r: Int32)
    ensures (r - n) % 0x1_0000_0000 == 0
    ensures INT32_MIN <= n <= INT32_MAX ==> r == n
  {
    var u := n % 0x1_0000_0000;
    if u <= INT32_MAX then u else u - 0x1_0000_0000
  }

  /** The value Java sees when it reads the octet as a (signed) `byte`. */
  function SignedByte(b: Byte): (r: int)
    ensures -128 <= r < 128
    ensures r % 256 == b
  {
    if b < 128 then b else b - 256
  }

  function Zeros(n: nat): (r: Bytes)
    ensures |r| == n
    ensures forall i :: 0 <= i < n ==> r[i] == 0
  {
    seq(n, _ => 0)
  }

  /** The four octets putInt/writeInt emit: the low 32 bits of n, most significant first. */
  function Int32ToBytes(n: int): (r: Bytes)
    ensures |r| == 4
  {
    var u := n % 0x1_0000_0000;
    var u1 := u / 256;
    var u2 := u1 / 256;
    [u2 / 256, u2 % 256, u1 % 256, u % 256]
  }

  /** getInt/readInt: four octets, most significant first, as a signed 32-bit int. */
  function Int32FromBytes(b: Bytes): (r: Int32)
    requires |b| == 4
  {
    var u := ((b[0] as int * 256 + b[1]) * 256 + b[2]) * 256 + b[3];
    if u <= INT32_MAX then u else u - 0x1_0000_0000
  }

  /** Writing an int and reading it back gives the int. */
  lemma Int32RoundTrip(n: Int32)
    ensures Int32FromBytes(Int32ToBytes(n)) == n
  {
    var u := n % 0x1_0000_0000;
    var u1 := u / 256;
    var u2 := u1 / 256;
    assert u == u1 * 256 + u % 256;
    assert u1 == u2 * 256 + u1 % 256;
    assert u2 == (u2 / 256) * 256 + u2 % 256;
  }

  /** Reading four octets as an int and writing it back gives the octets. */
  lemma Int32BytesRoundTrip(b: Bytes)
    requires |b| == 4
    ensures Int32ToBytes(Int32FromBytes(b)) == b
  {
    var x2 := b[0] as int * 256 + b[1];
    var x1 := x2 * 256 + b[2];
    var u := x1 * 256 + b[3];
    assert Int32FromBytes(b) % 0x1_0000_0000 == u;
    assert u / 256 == x1 && u % 256 == b[3];
    assert x1 / 256 == x2 && x1 % 256 == b[2];
    assert x2 / 256 == b[0] && x2 % 256 == b[1];
  }

  /** Four octets whose first is between 1 and 127 read as an int of at least 2^24. */
  lemma Int32FromBytesLeading(b: Bytes)
    requires |b| == 4 && 0 < b[0] < 128
    ensures Int32FromBytes(b) >= 0x100_0000
  {
    var x2 := b[0] as int * 256 + b[1];
    var x1 := x2 * 256 + b[2];
    assert 256 <= x2 < 0x8000;
    assert 0x1_0000 <= x1 < 0x80_0000;
  }

  /** String.getBytes, under the assumption that text is ASCII: one octet per char. */
  function StringToBytes(s: string): (r: Bytes)
    ensures |r| == |s|
  {
    seq(|s|, i requires 0 <= i < |s| => (s[i] as int) % 256)
  }

  /** new String(byte[]), under the same assumption: one char per octet. */
  function BytesToString(b: Bytes): (r: string)
    ensures |r| == |b|
  {
    seq(|b|, i requires 0 <= i < |b| => b[i] as char)
  }

  predicate IsAscii(s: string) {
    forall i :: 0 <= i < |s| ==> s[i] as int < 128
  }

  /** ASCII text survives the trip to octets and back. */
  lemma AsciiRoundTrip(s: string)
    requires IsAscii(s)
    ensures BytesToString(StringToBytes(s)) == s
  {
    var r := BytesToString(StringToBytes(s));
    assert forall i :: 0 <= i < |s| ==> r[i] == s[i];
  }

  lemma StringToBytesAppend(a: string, b: string)
    ensures StringToBytes(a + b) == StringToBytes(a) + StringToBytes(b)
  {
    assert forall i :: 0 <= i < |a + b| ==> StringToBytes(a + b)[i] == (StringToBytes(a) + StringToBytes(b))[i];
  }

  lemma BytesToStringAppend(a: Bytes, b: Bytes)
    ensures BytesToString(a + b) == BytesToString(a) + BytesToString(b)
  {
    assert forall i :: 0 <= i < |a + b| ==> BytesToString(a + b)[i] == (BytesToString(a) + BytesToString(b))[i];
  }
}
