/** The growable byte buffer of one direction of a socket: a vector with a read
    index and a write index. Its 32-bit index arithmetic is exact while the
    vector stays below 4 GiB; `GrowthWraps` says precisely when it would not. */
module Buffers {
  import opened Arithmetic
  import opened Wire

  const BASE_SIZE := 65536

  /** How far `reserve` extends the vector: room for `size` in whole base blocks. */
  function Growth(size: nat): nat {
    BASE_SIZE * ((size + BASE_SIZE - 1) / BASE_SIZE)
  }

  /** The new length no longer fits the 32-bit counter. */
  predicate GrowthWraps(maxSize: nat, rear: nat, size: nat)
    requires rear <= maxSize
  {
    maxSize - rear < size && maxSize + Growth(size) >= UINT32
  }

  lemma GrowthCovers(size: nat)
    ensures size <= Growth(size) < size + 65536
    ensures Growth(size) % 65536 == 0
  {
  }

  /** For one packet (at most 65535 bytes) and a vector made of whole blocks, the
      counter wraps exactly when the vector is already at its last possible
      length and the packet does not fit; a backlog that stays one block below
      4 GiB never gets there. */
  lemma WrapExactly(maxSize: nat, rear: nat, size: nat)
    requires rear <= maxSize < UINT32 && maxSize % BASE_SIZE == 0
    requires 1 <= size <= 65535
    ensures GrowthWraps(maxSize, rear, size) <==> maxSize == 0xFFFF_0000 && rear + size > maxSize
    ensures rear + size <= 0xFFFF_0000 ==> !GrowthWraps(maxSize, rear, size)
  {
    assert (size + BASE_SIZE - 1) / BASE_SIZE == 1;
    assert Growth(size) == BASE_SIZE;
    var blocks := maxSize / BASE_SIZE;
    assert maxSize == BASE_SIZE * blocks;
  }

  /** A packet-sized growth adds one block: to a longer vector, or past the end of
      the 32-bit range to an empty one. */
  lemma NewLength(maxSize: nat, size: nat)
    requires maxSize < UINT32 && maxSize % BASE_SIZE == 0 && 1 <= size <= PACKET_MAX
    ensures var n := (maxSize + Growth(size)) % UINT32;
            && n % BASE_SIZE == 0
            && n == (if maxSize + Growth(size) < UINT32 then maxSize + Growth(size) else 0)
  {
    assert (size + BASE_SIZE - 1) / BASE_SIZE == 1;
    assert Growth(size) == BASE_SIZE;
    assert maxSize == BASE_SIZE * (maxSize / BASE_SIZE);
  }

  class Buffer {
    var maxSize: nat
    var rearIndex: nat
    var curIndex: nat
    var data: array<byte>

    /** The bytes written and not yet read. */
    ghost var content: seq<byte>

    ghost predicate Valid()
      reads this, data
    {
      && curIndex <= rearIndex <= maxSize < UINT32
      && data.Length == maxSize
      && maxSize % BASE_SIZE == 0
      && content == data[curIndex..rearIndex]
    }

    constructor ()
      ensures Valid() && fresh(data)
      ensures maxSize == 65536 && curIndex == rearIndex == 0
      ensures content == []
    {
      maxSize := BASE_SIZE;
      rearIndex := 0;
      curIndex := 0;
      data := new byte[BASE_SIZE](_ => 0);
      content := [];
    }

    function WriteSize(): nat
      requires curIndex <= rearIndex <= maxSize
      reads this
    {
      maxSize - rearIndex
    }

    function ReadSize(): nat
      requires curIndex <= rearIndex <= maxSize
      reads this
    {
      rearIndex - curIndex
    }

    predicate IsReadOver()
      reads this
    {
      curIndex >= rearIndex
    }

    /** Makes room for `size` more bytes. The indices and the bytes below the
        write index survive the move to a longer vector. When the 32-bit length
        wraps, the vector is cut short instead, and the write index lies beyond
        its end. */
    method Reserve(size: nat)
      requires Valid() && size <= PACKET_MAX
      modifies this`maxSize, this`data
      ensures curIndex == old(curIndex) && rearIndex == old(rearIndex) && content == old(content)
      ensures old(WriteSize()) >= size ==> data == old(data) && maxSize == old(maxSize)
      ensures old(WriteSize()) < size ==>
                fresh(data) && data.Length == maxSize == (old(maxSize) + Growth(size)) % UINT32
      ensures !old(GrowthWraps(maxSize, rearIndex, size)) ==> Valid() && WriteSize() >= size
      ensures old(GrowthWraps(maxSize, rearIndex, size)) ==> maxSize == data.Length == 0 < rearIndex
    {
      GrowthCovers(size);
      if WriteSize() < size {
        WrapExactly(maxSize, rearIndex, size);
        NewLength(maxSize, size);
        var kept := maxSize;
        var newSize := (maxSize + Growth(size)) % UINT32;
        var grown := new byte[newSize](_ => 0);
        var k := 0;
        while k < kept && k < newSize
          invariant 0 <= k <= kept == data.Length && k <= newSize == grown.Length
          invariant fresh(grown) && data == old(data) && maxSize == old(maxSize)
          invariant rearIndex == old(rearIndex) && curIndex == old(curIndex) && content == old(content)
          invariant forall j :: 0 <= j < k ==> grown[j] == data[j]
          modifies grown
        {
          grown[k] := data[k];
          k := k + 1;
        }
        data := grown;
        maxSize := newSize;
      }
    }

    /** Copies `bytes` to the write position and advances it: the caller's
        memcpy followed by addWirteLen. */
    method Append(bytes: seq<byte>)
      requires Valid()
      requires |bytes| <= WriteSize()
      modifies this`rearIndex, this`content, data
      ensures Valid()
      ensures data == old(data) && maxSize == old(maxSize) && curIndex == old(curIndex)
      ensures rearIndex == old(rearIndex) + |bytes|
      ensures content == old(content) + bytes
    {
      var k := 0;
      while k < |bytes|
        invariant 0 <= k <= |bytes|
        invariant forall j :: 0 <= j < rearIndex ==> data[j] == old(data[j])
        invariant forall j :: 0 <= j < k ==> data[rearIndex + j] == bytes[j]
        modifies data
      {
        data[rearIndex + k] := bytes[k];
        k := k + 1;
      }
      rearIndex := rearIndex + |bytes|;
      content := content + bytes;
    }

    method AddReadLen(len: nat)
      requires Valid()
      requires len <= ReadSize()
      modifies this`curIndex, this`content
      ensures Valid()
      ensures curIndex == old(curIndex) + len
      ensures content == old(content)[len..]
    {
      curIndex := curIndex + len;
      content := content[len..];
    }

    /** Moves the unread bytes to the front, in place. */
    method RefitBuffer()
      requires Valid()
      modifies this`curIndex, this`rearIndex, data
      ensures Valid()
      ensures curIndex == 0 && rearIndex == old(ReadSize())
      ensures content == old(content)
    {
      if IsReadOver() {
        curIndex := 0;
        rearIndex := 0;
      } else {
        var diff := rearIndex - curIndex;
        var k := 0;
        while k < diff
          invariant 0 <= k <= diff
          invariant forall j :: 0 <= j < k ==> data[j] == old(data[curIndex + j])
          invariant forall i :: curIndex + k <= i < rearIndex ==> data[i] == old(data[i])
          modifies data
        {
          data[k] := data[curIndex + k];
          k := k + 1;
        }
        curIndex := 0;
        rearIndex := diff;
      }
    }
  }
}
