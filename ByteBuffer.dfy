/** java.nio.ByteBuffer as the protocol classes use it: a fixed-capacity array
    with a position that every relative put and get advances. A put or get
    that does not fit reports failure (Java's BufferOverflowException and
    BufferUnderflowException) and changes nothing. */
module NioBuffer {
  import opened Wrappers
  import opened Bytes

  class ByteBuffer {
    var data: array<Byte>
    var position: nat

    ghost predicate Valid()
      reads this
    {
      position <= data.Length
    }

    /** ByteBuffer.allocate: a zero-filled buffer at position 0. */
    constructor Allocate(capacity: nat)
      ensures Valid() && fresh(data)
      ensures data[..] == Zeros(capacity) && position == 0
    {
      data := new Byte[capacity](_ => 0);
      position := 0;
    }

    /** ByteBuffer.wrap: a buffer over a copy of the given octets, at position 0. */
    constructor Wrap(bytes: Bytes)
      ensures Valid() && fresh(data)
      ensures data[..] == bytes && position == 0
    {
      data := new Byte[|bytes|](i requires 0 <= i < |bytes| => bytes[i]);
      position := 0;
    }

    function Remaining(): nat
      reads this
      requires Valid()
    {
      data.Length - position
    }

    /** Relative bulk put. */
    method Put(src: Bytes) returns (ok: bool)
      requires Valid()
      modifies this`position, data
      ensures Valid()
      ensures ok == (old(position) + |src| <= data.Length)
      ensures ok ==> position == old(position) + |src|
      ensures ok ==> data[..position] == old(data[..position]) + src
      ensures ok ==> data[position..] == old(data[..])[position..]
      ensures !ok ==> position == old(position) && data[..] == old(data[..])
    {
      if position + |src| > data.Length {
        return false;
      }
      var i := 0;
      while i < |src|
        invariant 0 <= i <= |src|
        invariant position == old(position) && position + |src| <= data.Length
        invariant forall j :: 0 <= j < position ==> data[j] == old(data[j])
        invariant forall j :: 0 <= j < i ==> data[position + j] == src[j]
        invariant forall j :: position + i <= j < data.Length ==> data[j] == old(data[j])
      {
        data[position + i] := src[i];
        i := i + 1;
      }
      ghost var start := position;
      position := position + |src|;
      assert data[..position] == old(data[..start]) + src by {
        forall j | 0 <= j < position
          ensures data[..position][j] == (old(data[..start]) + src)[j]
        {
          if j >= start {
            assert data[start + (j - start)] == src[j - start];
          }
        }
      }
      ok := true;
    }

    /** Relative put of one octet. */
    method PutByte(b: Byte) returns (ok: bool)
      requires Valid()
      modifies this`position, data
      ensures Valid()
      ensures ok == (old(position) + 1 <= data.Length)
      ensures ok ==> position == old(position) + 1 && data[..position] == old(data[..position]) + [b]
      ensures ok ==> data[position..] == old(data[..])[position..]
      ensures !ok ==> position == old(position) && data[..] == old(data[..])
    {
      ok := Put([b]);
    }

    /** putInt: four octets, most significant first. */
    method PutInt(n: Int32) returns (ok: bool)
      requires Valid()
      modifies this`position, data
      ensures Valid()
      ensures ok == (old(position) + 4 <= data.Length)
      ensures ok ==> position == old(position) + 4 && data[..position] == old(data[..position]) + Int32ToBytes(n)
      ensures ok ==> data[position..] == old(data[..])[position..]
      ensures !ok ==> position == old(position) && data[..] == old(data[..])
    {
      ok := Put(Int32ToBytes(n));
    }

    /** Relative bulk get of n octets. */
    method Get(n: nat) returns (r: Option<Bytes>)
      requires Valid()
      modifies this`position
      ensures Valid()
      ensures r.Some? == (old(position) + n <= data.Length)
      ensures r.Some? ==> r.value == data[old(position)..old(position) + n] && position == old(position) + n
      ensures r.None? ==> position == old(position)
    {
      if position + n > data.Length {
        return None;
      }
      r := Some(data[position..position + n]);
      position := position + n;
    }

    /** Relative get of one octet. */
    method GetByte() returns (r: Option<Byte>)
      requires Valid()
      modifies this`position
      ensures Valid()
      ensures r.Some? == (old(position) < data.Length)
      ensures r.Some? ==> r.value == data[old(position)] && position == old(position) + 1
      ensures r.None? ==> position == old(position)
    {
      if position >= data.Length {
        return None;
      }
      r := Some(data[position]);
      position := position + 1;
    }

    /** getInt: four octets, most significant first, as a signed int. */
    method GetInt() returns (r: Option<Int32>)
      requires Valid()
      modifies this`position
      ensures Valid()
      ensures r.Some? == (old(position) + 4 <= data.Length)
      ensures r.Some? ==> r.value == Int32FromBytes(data[old(position)..old(position) + 4]) && position == old(position) + 4
      ensures r.None? ==> position == old(position)
    {
      var b := Get(4);
      if b.None? {
        return None;
      }
      r := Some(Int32FromBytes(b.value));
    }
  }
}
