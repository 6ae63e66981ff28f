/**
  The growable buffer with a read and a write position, and the streams that read and write scalars, blocks and whole
  frames in it.
 */
module ByteBuffer {
  import opened ByteStream
  import opened FrameCodec

  function Zeros(n: nat): (s: seq<Byte>)
    ensures |s| == n
  {
    seq(n, _ => 0)
  }

  /** Bytes cut off or filled up with zeros. */
  function Resized(s: seq<Byte>, n: nat): (r: seq<Byte>)
    ensures |r| == n
  {
    if n <= |s| then s[..n] else s + Zeros(n - |s|)
  }

  /** `block` written over `s` from `at`, beyond the end where needed. */
  function Overwrite(s: seq<Byte>, at: nat, block: seq<Byte>): (r: seq<Byte>)
    requires at <= |s|
    ensures |r| == if at + |block| <= |s| then |s| else at + |block|
  {
    s[..at] + block + (if at + |block| <= |s| then s[at + |block|..] else [])
  }

  /** Writing two blocks one after the other writes them as one. */
  lemma OverwriteTwice(s: seq<Byte>, at: nat, a: seq<Byte>, b: seq<Byte>)
    requires at <= |s|
    ensures at + |a| <= |Overwrite(s, at, a)|
    ensures Overwrite(Overwrite(s, at, a), at + |a|, b) == Overwrite(s, at, a + b)
  {
    var l, r := Overwrite(Overwrite(s, at, a), at + |a|, b), Overwrite(s, at, a + b);
    assert |l| == |r|;
    forall i | 0 <= i < |l| ensures l[i] == r[i] {
      if i < at {
      } else if i < at + |a| {
        assert l[i] == a[i - at] == (a + b)[i - at];
      } else if i < at + |a| + |b| {
        assert l[i] == b[i - at - |a|] == (a + b)[i - at];
      }
    }
  }

  lemma OverwriteNothing(s: seq<Byte>, at: nat)
    requires at <= |s|
    ensures Overwrite(s, at, []) == s
  {
  }

  class ByteOrderBuffer {
    var data: seq<Byte>
    var readAt: nat
    var writeAt: nat
    var eofRead: bool

    ghost predicate Valid()
      reads this
    {
      readAt <= |data| && writeAt <= |data|
    }

    /** The bytes that are still to be read. */
    ghost function Unread(): seq<Byte>
      requires Valid()
      reads this
    {
      data[readAt..]
    }

    constructor ()
      ensures Valid() && data == [] && readAt == writeAt == 0 && !eofRead
    {
      data, readAt, writeAt, eofRead := [], 0, 0, false;
    }

    method ResetRead()
      requires Valid()
      modifies this
      ensures Valid() && readAt == 0 && !eofRead && data == old(data) && writeAt == old(writeAt)
    {
      readAt, eofRead := 0, false;
    }

    /** A position beyond the new end goes back to the beginning. */
    method SetSize(n: nat)
      requires Valid()
      modifies this
      ensures Valid() && data == Resized(old(data), n)
      ensures old(readAt) <= n ==> readAt == old(readAt) && eofRead == old(eofRead)
      ensures old(readAt) > n ==> readAt == 0 && !eofRead
      ensures writeAt == if old(writeAt) <= n then old(writeAt) else 0
    {
      if n != |data| {
        data := Resized(data, n);
      }
      if |data| < readAt {
        readAt, eofRead := 0, false;
      }
      if |data| < writeAt {
        writeAt := 0;
      }
    }

    method Clear()
      requires Valid()
      modifies this
      ensures Valid() && data == [] && readAt == writeAt == 0
    {
      SetSize(0);
    }

    /** Bytes that arrive at the end; the positions stay. */
    method Append(bytes: seq<Byte>)
      requires Valid()
      modifies this
      ensures Valid() && data == old(data) + bytes
      ensures readAt == old(readAt) && writeAt == old(writeAt) && eofRead == old(eofRead)
    {
      data := data + bytes;
    }

    /** Says whether `required` bytes can be read; the end is remembered if not. */
    method PosRead(required: nat) returns (ok: bool)
      requires Valid()
      modifies this
      ensures Valid() && data == old(data) && readAt == old(readAt) && writeAt == old(writeAt)
      ensures ok == (required <= |Unread()|)
      ensures eofRead == (old(eofRead) || !ok)
    {
      ok := readAt + required <= |data|;
      if !ok {
        eofRead := true;
      }
    }

    /** Makes room for `required` bytes at the write position. */
    method PosWrite(required: nat)
      requires Valid()
      modifies this
      ensures Valid() && writeAt + required <= |data|
      ensures var needed := old(writeAt) + required;
        data == Resized(old(data), if needed <= |old(data)| then |old(data)| else needed)
      ensures readAt == old(readAt) && writeAt == old(writeAt) && eofRead == old(eofRead)
    {
      var r := |data| - writeAt;
      if r < required {
        SetSize(|data| + required - r);
      }
    }

    /** Drops bytes from the beginning; the positions stay at their bytes as far as these remain. */
    method RemoveFromStart(n: nat) returns (removed: bool)
      requires Valid()
      modifies this
      ensures Valid() && removed == (n > 0)
      ensures data == if n <= |old(data)| then old(data)[n..] else []
      ensures readAt == if n <= old(readAt) then old(readAt) - n else 0
      ensures writeAt == if n <= old(writeAt) then old(writeAt) - n else 0
      ensures n < |old(data)| ==> eofRead == old(eofRead)
      ensures n > 0 && n >= |old(data)| ==> eofRead == (old(eofRead) && old(readAt) == 0)
    {
      if n == 0 {
        return false;
      }
      if n >= |data| {
        SetSize(0);
        return true;
      }
      var r, w := readAt - n, writeAt - n;
      if r < 0 {
        r := 0;
      }
      if w < 0 {
        w := 0;
      }
      data, readAt, writeAt := data[n..], r, w;
      return true;
    }

    method CheckRemain(minimum: nat) returns (ok: bool)
      requires Valid()
      ensures ok == (minimum <= |Unread()| && !eofRead)
    {
      if |data| - readAt < minimum {
        return false;
      }
      return !eofRead;
    }
  }

  /** Reads and writes in the byte order of a protocol, on a host whose own order is little-endian. */
  class DataStream {
    const buffer: ByteOrderBuffer
    const order: nat

    constructor (buffer: ByteOrderBuffer, order: nat)
      ensures this.buffer == buffer && this.order == order
    {
      this.buffer, this.order := buffer, order;
    }

    // ----- Scalars -----

    /** Byte `i` of the wire goes to byte `mask ^ i` of the memory. */
    method Gather(bytes: seq<Byte>) returns (memory: seq<Byte>)
      requires IsSize(|bytes|)
      ensures memory == Permute(bytes, order % |bytes|)
    {
      hide Xor;
      var size, mask := |bytes|, order % |bytes|;
      var cells := new Byte[size](_ => 0);
      var i := 0;
      while i < size
        invariant 0 <= i <= size && cells.Length == size
        invariant forall j | 0 <= j < i :: Xor(mask, j) < size && cells[Xor(mask, j)] == bytes[j]
      {
        XorWithinSize(mask, i, size);
        forall j | 0 <= j < i ensures Xor(mask, j) != Xor(mask, i) {
          if Xor(mask, j) == Xor(mask, i) {
            XorInjective(mask, j, i);
          }
        }
        cells[Xor(mask, i)] := bytes[i];
        i := i + 1;
      }
      memory := cells[..];
      forall j | 0 <= j < size ensures memory[j] == Permute(bytes, mask)[j] {
        XorWithinSize(mask, j, size);
        XorTwice(mask, j);
        PermuteAt(bytes, mask, j);
      }
    }

    /** Byte `i` of the wire comes from byte `mask ^ i` of the memory. */
    method Scatter(memory: seq<Byte>) returns (bytes: seq<Byte>)
      requires IsSize(|memory|)
      ensures bytes == Permute(memory, order % |memory|)
    {
      hide Xor;
      var mask := order % |memory|;
      bytes := [];
      while |bytes| < |memory|
        invariant |bytes| <= |memory|
        invariant forall j | 0 <= j < |bytes| :: Xor(mask, j) < |memory| && bytes[j] == memory[Xor(mask, j)]
        decreases |memory| - |bytes|
      {
        XorWithinSize(mask, |bytes|, |memory|);
        bytes := bytes + [memory[Xor(mask, |bytes|)]];
      }
      assert bytes == Permute(memory, mask);
    }

    /** Reads a scalar, or zero if the bytes run out. */
    method ReadScalar(size: Size) returns (v: nat)
      requires buffer.Valid()
      modifies buffer
      ensures buffer.Valid() && buffer.data == old(buffer.data) && buffer.writeAt == old(buffer.writeAt)
      ensures size <= |old(buffer.Unread())| ==>
        && v == Unwire(order, old(buffer.Unread())[..size])
        && buffer.readAt == old(buffer.readAt) + size && buffer.eofRead == old(buffer.eofRead)
      ensures size > |old(buffer.Unread())| ==> v == 0 && buffer.readAt == old(buffer.readAt) && buffer.eofRead
    {
      hide FromBytes, Permute, Xor;
      v := 0;
      var ok := buffer.PosRead(size);
      if ok {
        ghost var unread := buffer.Unread();
        var bytes := buffer.data[buffer.readAt..buffer.readAt + size];
        assert bytes == unread[..size];
        var memory := Gather(bytes);
        v := FromBytes(memory);
        buffer.readAt := buffer.readAt + size;
      }
    }

    method WriteScalar(v: nat, size: Size)
      requires buffer.Valid()
      modifies buffer
      ensures Wrote(old(buffer.data), old(buffer.writeAt), Wire(order, v, size))
      ensures buffer.readAt == old(buffer.readAt) && buffer.eofRead == old(buffer.eofRead)
    {
      hide Permute;
      var bytes := Scatter(ToBytes(v, size));
      WriteBlock(bytes);
    }

    /** `block` was written at the write position of `data`, which moved behind it. */
    ghost predicate Wrote(data: seq<Byte>, at: nat, block: seq<Byte>)
      requires at <= |data|
      reads buffer
    {
      buffer.Valid() && buffer.data == Overwrite(data, at, block) && buffer.writeAt == at + |block|
    }

    /** Writes a scalar over earlier bytes; the positions stay. */
    method WriteToOffset(v: nat, size: Size, at: nat)
      requires buffer.Valid() && at + size <= |buffer.data|
      modifies buffer
      ensures buffer.Valid() && buffer.data == Overwrite(old(buffer.data), at, Wire(order, v, size))
      ensures buffer.writeAt == old(buffer.writeAt) && buffer.readAt == old(buffer.readAt)
      ensures buffer.eofRead == old(buffer.eofRead)
    {
      hide Permute;
      var bytes := Scatter(ToBytes(v, size));
      buffer.data := buffer.data[..at] + bytes + buffer.data[at + size..];
    }

    // ----- Blocks -----

    /** Reads a block, or nothing if the bytes run out. */
    method ReadBlock(n: nat) returns (ok: bool, block: seq<Byte>)
      requires buffer.Valid()
      modifies buffer
      ensures buffer.Valid() && buffer.data == old(buffer.data) && buffer.writeAt == old(buffer.writeAt)
      ensures n <= |old(buffer.Unread())| ==>
        && block == old(buffer.Unread())[..n]
        && buffer.readAt == old(buffer.readAt) + n && buffer.eofRead == old(buffer.eofRead)
      ensures n > |old(buffer.Unread())| ==> buffer.readAt == old(buffer.readAt) && buffer.eofRead
      ensures ok == !buffer.eofRead
    {
      block := [];
      ok := buffer.PosRead(n);
      if !ok {
        return;
      }
      ghost var unread := buffer.Unread();
      block := buffer.data[buffer.readAt..buffer.readAt + n];
      assert block == unread[..n];
      buffer.readAt := buffer.readAt + n;
      ok := !buffer.eofRead;
    }

    method WriteBlock(block: seq<Byte>)
      requires buffer.Valid()
      modifies buffer
      ensures Wrote(old(buffer.data), old(buffer.writeAt), block)
      ensures buffer.readAt == old(buffer.readAt) && buffer.eofRead == old(buffer.eofRead)
    {
      ghost var was, at := buffer.data, buffer.writeAt;
      buffer.PosWrite(|block|);
      buffer.data := buffer.data[..buffer.writeAt] + block + buffer.data[buffer.writeAt + |block|..];
      buffer.writeAt := buffer.writeAt + |block|;
      assert buffer.data == Overwrite(was, at, block);
    }
  }
}
