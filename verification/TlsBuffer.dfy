/** SSLBuffer: bytes in a block of memory at a 16-bit offset (ssl_buffer.cc). */
module TlsBuffer {
  import opened Octets

  /** SSL3_ALIGN_PAYLOAD */
  const ALIGN: nat := 8

  /** The 16-bit sum that `offset_ += (uint16_t)len` leaves. */
  function Moved(offset: nat, len: nat): nat
  {
    (offset + len) % U16
  }

  lemma MovedIs(offset: nat, len: nat)
    ensures Moved(offset, len) <= offset + len
    ensures offset + len < U16 ==> Moved(offset, len) == offset + len
    ensures offset + len == U16 ==> Moved(offset, len) == 0
  {
  }

  /** Whether `len` bytes can be consumed from the contents without losing sight of the rest. */
  predicate KeepsRest(block: Bytes, offset: nat, size: nat, len: nat)
    requires len <= size && offset + size <= |block| && size < U16
  {
    var o := Moved(offset, len);
    o + (size - len) <= |block| && block[o..o + (size - len)] == block[offset + len..offset + size]
  }

  /** Consuming keeps the rest, whatever the bytes and however many are consumed, exactly when the contents
      end within reach of the 16-bit offset. */
  lemma KeepsRestIff(n: nat, offset: nat, size: nat)
    requires offset < U16 && size < U16 && offset + size <= n
    ensures (forall block: Bytes, len | |block| == n && 0 <= len <= size :: KeepsRest(block, offset, size, len))
       <==> offset + size <= U16
  {
    if offset + size <= U16 {
      forall block: Bytes, len | |block| == n && 0 <= len <= size
        ensures KeepsRest(block, offset, size, len)
      {
        if len == size {
          assert block[offset + len..offset + size] == [];
        }
      }
    } else {
      var block: Bytes := seq(n, i => if i == U16 then 1 else 0);
      var len := U16 - offset;
      assert block[0..size - len][0] == 0 && block[offset + len..offset + size][0] == 1;
      assert !KeepsRest(block, offset, size, len);
    }
  }

  /** What the allocator gives: where a block lies and what it happens to hold. */
  datatype Memory = Memory(address: nat, fill: nat -> Byte)

  /** Where EnsureCap lets the contents of a new block begin. */
  function StartOffset(headerLen: nat, address: nat): (o: nat)
    ensures o < ALIGN
  {
    (0 - headerLen - address) % ALIGN
  }

  // ---------------------------------------------------------------- the buffer as a value

  /** The fields of SSLBuffer, with the bytes of its block; no block is an empty one. */
  datatype Image = Image(block: Bytes, offset: nat, size: nat, cap: nat)
  {
    predicate Ok()
    {
      && size <= cap < U16 && offset < U16 && offset + cap <= |block|
      && (block == [] ==> offset == 0)
    }

    function Contents(): (c: Bytes)
      requires Ok()
      ensures |c| == size
    {
      block[offset..offset + size]
    }

    /** No part of the contents lies where the 16-bit offset cannot reach. */
    predicate Reachable()
    {
      offset + size <= U16
    }

    function Ensured(headerLen: nat, newCap: nat, m: Memory): (img: Image)
      requires Ok()
      ensures img.Ok() && img.Contents() == Contents() && (newCap <= 0xffff ==> img.cap >= newCap)
    {
      if newCap > 0xffff || cap >= newCap then this
      else
        var o := StartOffset(headerLen, m.address);
        var img := Image(seq(newCap + ALIGN - 1, i requires 0 <= i => if o <= i < o + size then block[offset + (i - o)] else m.fill(i)),
                         o, size, newCap);
        assert img.block[o..o + size] == block[offset..offset + size];
        img
    }

    function Appended(bytes: Bytes): (img: Image)
      requires Ok() && |bytes| <= cap - size
      ensures img.Ok() && img.Contents() == Contents() + bytes && img.offset == offset
    {
      var end := offset + size;
      var img := Image(block[..end] + bytes + block[end + |bytes|..], offset, size + |bytes|, cap);
      assert img.block[offset..end + |bytes|] == block[offset..end] + bytes;
      img
    }

    function Consumed(len: nat): (img: Image)
      requires Ok() && len <= size
      ensures img.Ok() && img.size == size - len
      ensures Reachable() ==> img.Reachable() && img.Contents() == Contents()[len..]
    {
      MovedIs(offset, len);
      assert len == size ==> Contents()[len..] == [];
      Image(block, Moved(offset, len), size - len, cap - len)
    }
  }

  /** A block that has to grow begins its contents less than 8 bytes in, where the body behind a header of this length is at
      a multiple of 8; one that is large enough, or may not grow so far, stays as it is. */
  lemma BodyAligned(img: Image, headerLen: nat, newCap: nat, m: Memory)
    requires img.Ok()
    ensures var e := img.Ensured(headerLen, newCap, m);
            if newCap > 0xffff || newCap <= img.cap then e == img
            else
              && (m.address + e.offset + headerLen) % 8 == 0 && e.offset < 8 && |e.block| == newCap + 7
              && e.cap == newCap && e.size == img.size && e.Contents() == img.Contents()
  {
    var n := headerLen + m.address;
    assert (0 - headerLen - m.address) == -n && (n + -n % 8) % 8 == 0;
  }

  const NO_BLOCK: Image := Image([], 0, 0, 0)

  // ---------------------------------------------------------------- the buffer itself

  class SslBuffer {
    var buf: array?<Byte>
    var offset: nat
    var size: nat
    var cap: nat

    ghost predicate Valid()
      reads this, buf
    {
      View().Ok() && (buf != null ==> buf.Length > 0)
    }

    ghost function View(): Image
      reads this, buf
    {
      Image(if buf == null then [] else buf[..], offset, size, cap)
    }

    constructor ()
      ensures Valid() && View() == NO_BLOCK && buf == null
    {
      buf, offset, size, cap := null, 0, 0, 0;
    }

    method Clear()
      modifies this
      ensures Valid() && View() == NO_BLOCK && buf == null
    {
      buf, offset, size, cap := null, 0, 0, 0;
    }

    /** EnsureCap; `m` is the block the allocator would give. */
    method EnsureCap(headerLen: nat, newCap: nat, m: Memory) returns (ok: bool)
      requires Valid()
      modifies this
      ensures Valid() && (buf == old(buf) || fresh(buf))
      ensures ok == (newCap <= 0xffff) && View() == old(View()).Ensured(headerLen, newCap, m)
      ensures !ok ==> unchanged(this)
    {
      if newCap > 0xffff {
        return false;
      }
      if cap >= newCap {
        return true;
      }
      var newBuf := new Byte[newCap + ALIGN - 1](i requires 0 <= i => m.fill(i));
      hide StartOffset;
      var newOffset := StartOffset(headerLen, m.address);
      if buf != null {
        forall i | 0 <= i < size {
          newBuf[newOffset + i] := buf[offset + i];
        }
      }
      assert newBuf[..] == View().Ensured(headerLen, newCap, m).block;
      buf, offset, cap := newBuf, newOffset, newCap;
      return true;
    }

    static method Put(a: array<Byte>, at: nat, bytes: Bytes)
      requires at + |bytes| <= a.Length
      modifies a
      ensures a[..] == old(a[..at]) + bytes + old(a[at + |bytes|..])
    {
      forall i | 0 <= i < |bytes| {
        a[at + i] := bytes[i];
      }
      assert a[..at] == old(a[..at]) && a[at..at + |bytes|] == bytes && a[at + |bytes|..] == old(a[at + |bytes|..]);
      assert a[..] == a[..at] + a[at..at + |bytes|] + a[at + |bytes|..];
    }

    /** A copy into the remaining space followed by DidWrite. */
    method Append(bytes: Bytes)
      requires Valid() && |bytes| <= cap - size
      modifies this`size, buf
      ensures Valid() && View() == old(View()).Appended(bytes)
    {
      ghost var block, end := View().block, offset + size;
      if buf != null {
        Put(buf, offset + size, bytes);
      } else {
        assert [] == block[..end] + bytes + block[end + |bytes|..];
      }
      size := size + |bytes|;
    }

    /** Consume; the offset wraps at 16 bits. */
    method Consume(len: nat)
      requires Valid() && len <= size
      modifies this`offset, this`size, this`cap
      ensures Valid() && View() == old(View()).Consumed(len)
    {
      offset := Moved(offset, len);
      size, cap := size - len, cap - len;
    }
  }
}
