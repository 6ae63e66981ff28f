/**
  Frames in a buffer: reading and writing their fields one after the other, and the length that is filled in at the end.
 */
module SocketFrame {
  import opened ByteStream
  import opened FrameCodec
  import opened ByteBuffer

  datatype State = StOk | StIncomplete

  class FrameStream {
    const stream: DataStream
    const buffer: ByteOrderBuffer
    const order: nat

    constructor (buffer: ByteOrderBuffer, order: nat)
      ensures this.buffer == buffer && this.order == order && fresh(stream)
      ensures stream.buffer == buffer && stream.order == order
    {
      this.buffer, this.order := buffer, order;
      stream := new DataStream(buffer, order);
    }

    ghost predicate Valid()
      reads buffer
    {
      stream.buffer == buffer && stream.order == order && buffer.Valid()
    }

    // ----- Reading -----

    /** The buffer as after a read: once the end was met it stays met, and otherwise `used` bytes were taken. */
    ghost predicate Taken(data: seq<Byte>, writeAt: nat, readAt: nat, eof: bool, parsed: bool, used: nat)
      reads buffer
    {
      && Valid() && buffer.data == data && buffer.writeAt == writeAt
      && (!buffer.eofRead <==> !eof && parsed)
      && (!buffer.eofRead ==> buffer.readAt == readAt + used)
    }

    /** Reading goes on after the end was met; only the end itself is told. */
    method ReadValue(k: Kind) returns (v: Value)
      requires Valid()
      modifies buffer
      ensures var r := Decode(order, k, old(buffer.Unread()));
        && Taken(old(buffer.data), old(buffer.writeAt), old(buffer.readAt), old(buffer.eofRead), r.Parsed?,
                 if r.Parsed? then r.used else 0)
        && (!buffer.eofRead ==> v == r.value)
      decreases k, 0
    {
      hide Unwire;
      ghost var s := buffer.Unread();
      match k
      case Scalar(size) =>
        var n := stream.ReadScalar(size);
        v := Number(n);
      case Text =>
        var n := stream.ReadScalar(4);
        if buffer.eofRead {
          v := Blob([]);
        } else {
          assert buffer.Unread() == s[4..];
          var ok, block := stream.ReadBlock(n);
          v := Blob(block);
        }
      case List(element) =>
        var n := stream.ReadScalar(4);
        assert !buffer.eofRead ==> buffer.Unread() == s[4..];
        var items := ReadItems(element, n);
        v := Items(items);
    }

    method ReadAll(ks: seq<Kind>) returns (vs: seq<Value>)
      requires Valid()
      modifies buffer
      ensures var r := DecodeAll(order, ks, old(buffer.Unread()));
        && Taken(old(buffer.data), old(buffer.writeAt), old(buffer.readAt), old(buffer.eofRead), r.Parsed?,
                 if r.Parsed? then r.used else 0)
        && (!buffer.eofRead ==> vs == r.value)
      decreases ks, 0
    {
      hide Decode;
      ghost var s := buffer.Unread();
      if ks == [] {
        vs := [];
      } else {
        var v := ReadValue(ks[0]);
        assert !buffer.eofRead ==> buffer.Unread() == s[Decode(order, ks[0], s).used..];
        vs := ReadAll(ks[1..]);
        vs := [v] + vs;
      }
    }

    method ReadItems(element: seq<Kind>, n: nat) returns (items: seq<seq<Value>>)
      requires Valid()
      modifies buffer
      ensures var r := DecodeItems(order, element, n, old(buffer.Unread()));
        && Taken(old(buffer.data), old(buffer.writeAt), old(buffer.readAt), old(buffer.eofRead), r.Parsed?,
                 if r.Parsed? then r.used else 0)
        && (!buffer.eofRead ==> items == r.value)
      decreases element, 1, n
    {
      hide DecodeAll;
      ghost var s := buffer.Unread();
      if n == 0 {
        items := [];
      } else {
        var item := ReadAll(element);
        assert !buffer.eofRead ==> buffer.Unread() == s[DecodeAll(order, element, s).used..];
        items := ReadItems(element, n - 1);
        items := [item] + items;
      }
    }

    /** The frame is there exactly when the state is good and the end was not met. */
    method ReadFrame(schema: Schema) returns (state: State, values: seq<Value>)
      requires Valid() && !buffer.eofRead
      modifies buffer
      ensures Valid() && buffer.data == old(buffer.data) && buffer.writeAt == old(buffer.writeAt)
      ensures var r := FrameCodec.ReadFrame(order, schema, old(buffer.Unread()));
        && (state == StOk && !buffer.eofRead <==> r.Parsed?)
        && (r.Parsed? ==> values == r.value && buffer.readAt == old(buffer.readAt) + r.used)
    {
      hide Unwire, DecodeAll, Schema.Kinds;
      ghost var s := buffer.Unread();
      values := [];
      if schema.withLength {
        var length := stream.ReadScalar(4);
        if buffer.eofRead {
          return StIncomplete, [];
        }
        assert buffer.Unread() == s[4..];
        var enough := buffer.CheckRemain(length);
        if !enough {
          return StIncomplete, [];
        }
      }
      values := ReadAll(schema.Kinds());
      return StOk, values;
    }

    // ----- Writing -----

    /** `block` was written over `data` at the write position; the reading side is as before. */
    ghost predicate Put(data: seq<Byte>, at: nat, block: seq<Byte>, readAt: nat, eof: bool)
      requires at <= |data|
      reads buffer
    {
      && Valid() && buffer.data == Overwrite(data, at, block) && buffer.writeAt == at + |block|
      && buffer.readAt == readAt && buffer.eofRead == eof
    }

    method WriteValue(k: Kind, v: Value)
      requires Valid() && Fits(k, v)
      modifies buffer
      ensures Put(old(buffer.data), old(buffer.writeAt), Encode(order, k, v), old(buffer.readAt), old(buffer.eofRead))
      decreases k, 0
    {
      hide Wire, Overwrite, FitsAll, EncodeItems;
      ghost var data, at := buffer.data, buffer.writeAt;
      match k
      case Scalar(size) =>
        stream.WriteScalar(v.n, size);
      case Text =>
        stream.WriteScalar(|v.b|, 4);
        stream.WriteBlock(v.b);
        OverwriteTwice(data, at, Wire(order, |v.b|, 4), v.b);
      case List(element) =>
        stream.WriteScalar(|v.items|, 4);
        WriteItems(element, v.items);
        OverwriteTwice(data, at, Wire(order, |v.items|, 4), EncodeItems(order, element, v.items));
    }

    method WriteAll(ks: seq<Kind>, vs: seq<Value>)
      requires Valid() && FitsAll(ks, vs)
      modifies buffer
      ensures Put(old(buffer.data), old(buffer.writeAt), EncodeAll(order, ks, vs), old(buffer.readAt), old(buffer.eofRead))
      decreases ks, 0
    {
      hide Fits, Encode, Overwrite;
      ghost var data, at := buffer.data, buffer.writeAt;
      if ks == [] {
        OverwriteNothing(data, at);
      } else {
        WriteValue(ks[0], vs[0]);
        WriteAll(ks[1..], vs[1..]);
        OverwriteTwice(data, at, Encode(order, ks[0], vs[0]), EncodeAll(order, ks[1..], vs[1..]));
      }
    }

    method WriteItems(element: seq<Kind>, items: seq<seq<Value>>)
      requires Valid() && forall i | 0 <= i < |items| :: FitsAll(element, items[i])
      modifies buffer
      ensures Put(old(buffer.data), old(buffer.writeAt), EncodeItems(order, element, items),
                  old(buffer.readAt), old(buffer.eofRead))
      decreases element, 1, |items|
    {
      hide FitsAll, EncodeAll, Overwrite;
      ghost var data, at := buffer.data, buffer.writeAt;
      if items == [] {
        OverwriteNothing(data, at);
      } else {
        WriteAll(element, items[0]);
        WriteItems(element, items[1..]);
        OverwriteTwice(data, at, EncodeAll(order, element, items[0]), EncodeItems(order, element, items[1..]));
      }
    }

    /** Writes a length of zero first and the number of bytes that followed when it is known. */
    method WriteFrame(schema: Schema, values: seq<Value>)
      requires Valid() && FitsAll(schema.Kinds(), values)
      modifies buffer
      ensures Put(old(buffer.data), old(buffer.writeAt), FrameCodec.WriteFrame(order, schema, values),
                  old(buffer.readAt), old(buffer.eofRead))
    {
      hide Wire, Overwrite, FitsAll, EncodeAll, Schema.Kinds;
      ghost var data, at := buffer.data, buffer.writeAt;
      ghost var payload := EncodeAll(order, schema.Kinds(), values);
      var initialOffset := 0;
      if schema.withLength {
        initialOffset := buffer.writeAt;
        stream.WriteScalar(0, 4);
        OverwriteTwice(data, at, Wire(order, 0, 4), payload);
      }
      WriteAll(schema.Kinds(), values);
      if schema.withLength {
        var length := (buffer.writeAt - initialOffset - 4) % LENGTH_LIMIT;
        BackPatch(data, at, Wire(order, 0, 4), payload, Wire(order, length, 4));
        stream.WriteToOffset(length, 4, initialOffset);
      }
    }
  }

  /** Writing over the first bytes of what was written last. */
  lemma BackPatch(data: seq<Byte>, at: nat, head: seq<Byte>, body: seq<Byte>, patch: seq<Byte>)
    requires at <= |data| && |patch| == |head|
    ensures at + |head| <= |Overwrite(data, at, head + body)|
    ensures Overwrite(Overwrite(data, at, head + body), at, patch) == Overwrite(data, at, patch + body)
  {
    var l, r := Overwrite(Overwrite(data, at, head + body), at, patch), Overwrite(data, at, patch + body);
    assert |l| == |r|;
    forall i | 0 <= i < |l| ensures l[i] == r[i] {
      if at <= i < at + |head| {
        assert l[i] == patch[i - at] == (patch + body)[i - at];
      } else if at <= i < at + |head| + |body| {
        assert l[i] == (head + body)[i - at] == (patch + body)[i - at];
      }
    }
  }
}
