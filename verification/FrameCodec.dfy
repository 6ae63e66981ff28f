/**
  The bytes of a frame: what the data streams write for each field, and what they read back.
 */
module FrameCodec {
  import opened ByteStream

  type Size = n: nat | IsSize(n) witness 1

  /** What a field holds: a scalar, a string or block with its length, or a list or map with its length. */
  datatype Kind = Scalar(size: Size) | Text | List(element: seq<Kind>)

  datatype Value = Number(n: nat) | Blob(b: seq<Byte>) | Items(items: seq<seq<Value>>)

  const LENGTH_LIMIT: nat := 0x1_0000_0000

  predicate Fits(k: Kind, v: Value)
    decreases k
  {
    match k
    case Scalar(size) => v.Number? && v.n < Power256(size)
    case Text => v.Blob? && |v.b| < LENGTH_LIMIT
    case List(element) =>
      v.Items? && |v.items| < LENGTH_LIMIT && forall i | 0 <= i < |v.items| :: FitsAll(element, v.items[i])
  }

  predicate FitsAll(ks: seq<Kind>, vs: seq<Value>)
    decreases ks
  {
    |ks| == |vs| && (ks != [] ==> Fits(ks[0], vs[0]) && FitsAll(ks[1..], vs[1..]))
  }

  // ----- Writing -----

  function Encode(p: nat, k: Kind, v: Value): seq<Byte>
    requires Fits(k, v)
    decreases k, 0
  {
    match k
    case Scalar(size) => Wire(p, v.n, size)
    case Text => Wire(p, |v.b|, 4) + v.b
    case List(element) => Wire(p, |v.items|, 4) + EncodeItems(p, element, v.items)
  }

  function EncodeAll(p: nat, ks: seq<Kind>, vs: seq<Value>): seq<Byte>
    requires FitsAll(ks, vs)
    decreases ks, 0
  {
    if ks == [] then [] else Encode(p, ks[0], vs[0]) + EncodeAll(p, ks[1..], vs[1..])
  }

  function EncodeItems(p: nat, element: seq<Kind>, items: seq<seq<Value>>): seq<Byte>
    requires forall i | 0 <= i < |items| :: FitsAll(element, items[i])
    decreases element, 1, |items|
  {
    if items == [] then [] else EncodeAll(p, element, items[0]) + EncodeItems(p, element, items[1..])
  }

  // ----- Reading -----

  /** The outcome of reading: the bytes ran out, or a value and the number of bytes it took. */
  datatype Parsed<T> = Eof | Parsed(value: T, used: nat)

  function Decode(p: nat, k: Kind, s: seq<Byte>): (r: Parsed<Value>)
    ensures r.Parsed? ==> r.used <= |s|
    decreases k, 0
  {
    match k
    case Scalar(size) => if |s| < size then Eof else Parsed(Number(Unwire(p, s[..size])), size)
    case Text =>
      if |s| < 4 then Eof else
      var n := Unwire(p, s[..4]);
      if |s| - 4 < n then Eof else Parsed(Blob(s[4..4 + n]), 4 + n)
    case List(element) =>
      if |s| < 4 then Eof else
      match DecodeItems(p, element, Unwire(p, s[..4]), s[4..])
      case Eof => Eof
      case Parsed(items, used) => Parsed(Items(items), 4 + used)
  }

  function DecodeAll(p: nat, ks: seq<Kind>, s: seq<Byte>): (r: Parsed<seq<Value>>)
    ensures r.Parsed? ==> r.used <= |s|
    decreases ks, 0
  {
    if ks == [] then Parsed([], 0) else
    match Decode(p, ks[0], s)
    case Eof => Eof
    case Parsed(v, used) =>
      match DecodeAll(p, ks[1..], s[used..])
      case Eof => Eof
      case Parsed(vs, more) => Parsed([v] + vs, used + more)
  }

  function DecodeItems(p: nat, element: seq<Kind>, n: nat, s: seq<Byte>): (r: Parsed<seq<seq<Value>>>)
    ensures r.Parsed? ==> r.used <= |s|
    decreases element, 1, n
  {
    if n == 0 then Parsed([], 0) else
    match DecodeAll(p, element, s)
    case Eof => Eof
    case Parsed(item, used) =>
      match DecodeItems(p, element, n - 1, s[used..])
      case Eof => Eof
      case Parsed(items, more) => Parsed([item] + items, used + more)
  }

  // ----- Reading undoes writing -----

  lemma ScalarReadsBack(p: nat, v: nat, size: nat, rest: seq<Byte>)
    requires IsSize(size) && v < Power256(size)
    ensures (Wire(p, v, size) + rest)[..size] == Wire(p, v, size)
    ensures (Wire(p, v, size) + rest)[size..] == rest
    ensures Unwire(p, (Wire(p, v, size) + rest)[..size]) == v
  {
    hide Wire, Unwire, Power256;
    WireRoundTrip(p, v, size);
  }

  lemma FourBytes()
    ensures Power256(4) == LENGTH_LIMIT
  {
    assert Power256(2) == 0x1_0000;
    assert Power256(4) == 256 * (256 * Power256(2));
  }

  lemma {:induction false} EncodeReadsBack(p: nat, k: Kind, v: Value, rest: seq<Byte>)
    requires Fits(k, v)
    ensures Decode(p, k, Encode(p, k, v) + rest) == Parsed(v, |Encode(p, k, v)|)
    decreases k, 0
  {
    hide Wire, Unwire, Power256;
    FourBytes();
    match k
    case Scalar(size) =>
      ScalarReadsBack(p, v.n, size, rest);
    case Text =>
      ScalarReadsBack(p, |v.b|, 4, v.b + rest);
      assert Encode(p, k, v) + rest == Wire(p, |v.b|, 4) + (v.b + rest);
      assert (v.b + rest)[..|v.b|] == v.b;
    case List(element) =>
      var body := EncodeItems(p, element, v.items);
      ScalarReadsBack(p, |v.items|, 4, body + rest);
      assert Encode(p, k, v) + rest == Wire(p, |v.items|, 4) + (body + rest);
      ItemsReadBack(p, element, v.items, rest);
  }

  lemma {:induction false} AllReadBack(p: nat, ks: seq<Kind>, vs: seq<Value>, rest: seq<Byte>)
    requires FitsAll(ks, vs)
    ensures DecodeAll(p, ks, EncodeAll(p, ks, vs) + rest) == Parsed(vs, |EncodeAll(p, ks, vs)|)
    decreases ks, 0
  {
    hide Fits, Encode, Decode;
    if ks != [] {
      var first, others := Encode(p, ks[0], vs[0]), EncodeAll(p, ks[1..], vs[1..]);
      EncodeReadsBack(p, ks[0], vs[0], others + rest);
      AllReadBack(p, ks[1..], vs[1..], rest);
      assert EncodeAll(p, ks, vs) + rest == first + (others + rest);
      assert (first + (others + rest))[|first|..] == others + rest;
      assert vs == [vs[0]] + vs[1..];
    }
  }

  lemma {:induction false} ItemsReadBack(p: nat, element: seq<Kind>, items: seq<seq<Value>>, rest: seq<Byte>)
    requires forall i | 0 <= i < |items| :: FitsAll(element, items[i])
    ensures DecodeItems(p, element, |items|, EncodeItems(p, element, items) + rest)
         == Parsed(items, |EncodeItems(p, element, items)|)
    decreases element, 1, |items|
  {
    hide FitsAll, EncodeAll, DecodeAll;
    if items != [] {
      var first, others := EncodeAll(p, element, items[0]), EncodeItems(p, element, items[1..]);
      AllReadBack(p, element, items[0], others + rest);
      ItemsReadBack(p, element, items[1..], rest);
      assert EncodeItems(p, element, items) + rest == first + (others + rest);
      assert (first + (others + rest))[|first|..] == others + rest;
      assert items == [items[0]] + items[1..];
    }
  }

  // ----- More bytes change nothing that was read -----

  lemma {:induction false} DecodeStable(p: nat, k: Kind, s: seq<Byte>, t: seq<Byte>)
    requires Decode(p, k, s).Parsed?
    ensures Decode(p, k, s + t) == Decode(p, k, s)
    decreases k, 0
  {
    hide Unwire;
    match k
    case Scalar(size) =>
      assert (s + t)[..size] == s[..size];
    case Text =>
      assert (s + t)[..4] == s[..4];
      var n := Unwire(p, s[..4]);
      assert (s + t)[4..4 + n] == s[4..4 + n];
    case List(element) =>
      assert (s + t)[..4] == s[..4];
      assert (s + t)[4..] == s[4..] + t;
      ItemsStable(p, element, Unwire(p, s[..4]), s[4..], t);
  }

  lemma {:induction false} AllStable(p: nat, ks: seq<Kind>, s: seq<Byte>, t: seq<Byte>)
    requires DecodeAll(p, ks, s).Parsed?
    ensures DecodeAll(p, ks, s + t) == DecodeAll(p, ks, s)
    decreases ks, 0
  {
    hide Decode;
    if ks != [] {
      DecodeStable(p, ks[0], s, t);
      var used := Decode(p, ks[0], s).used;
      assert (s + t)[used..] == s[used..] + t;
      AllStable(p, ks[1..], s[used..], t);
    }
  }

  lemma {:induction false} ItemsStable(p: nat, element: seq<Kind>, n: nat, s: seq<Byte>, t: seq<Byte>)
    requires DecodeItems(p, element, n, s).Parsed?
    ensures DecodeItems(p, element, n, s + t) == DecodeItems(p, element, n, s)
    decreases element, 1, n
  {
    hide DecodeAll;
    if n > 0 {
      AllStable(p, element, s, t);
      var used := DecodeAll(p, element, s).used;
      assert (s + t)[used..] == s[used..] + t;
      ItemsStable(p, element, n - 1, s[used..], t);
    }
  }

  /** A proper prefix of what was written runs out of bytes. */
  lemma PrefixRunsOut(p: nat, ks: seq<Kind>, vs: seq<Value>, j: nat)
    requires FitsAll(ks, vs) && j < |EncodeAll(p, ks, vs)|
    ensures DecodeAll(p, ks, EncodeAll(p, ks, vs)[..j]).Eof?
  {
    hide FitsAll, EncodeAll, DecodeAll;
    var s := EncodeAll(p, ks, vs);
    if DecodeAll(p, ks, s[..j]).Parsed? {
      AllStable(p, ks, s[..j], s[j..]);
      assert s[..j] + s[j..] == s == s + [];
      AllReadBack(p, ks, vs, []);
    }
  }

  // ----- Frames -----

  /** Which of the common fields a frame type writes, and its own fields. */
  datatype Schema = Schema(withLength: bool, withCreated: bool, withTransaction: bool, body: seq<Kind>)
  {
    function Kinds(): seq<Kind> {
      (if withCreated then [Scalar(8)] else []) + (if withTransaction then [Scalar(8), Scalar(8)] else []) + body
    }
  }

  /** What a frame writes: the length, unless the type leaves it out, counts the bytes after it. */
  function WriteFrame(p: nat, schema: Schema, values: seq<Value>): seq<Byte>
    requires FitsAll(schema.Kinds(), values)
  {
    var payload := EncodeAll(p, schema.Kinds(), values);
    if schema.withLength then Wire(p, |payload| % LENGTH_LIMIT, 4) + payload else payload
  }

  function ReadFrame(p: nat, schema: Schema, s: seq<Byte>): (r: Parsed<seq<Value>>)
    ensures r.Parsed? ==> (if schema.withLength then 4 else 0) <= r.used <= |s|
  {
    if schema.withLength then
      if |s| < 4 || |s| - 4 < Unwire(p, s[..4]) then Eof else
      match DecodeAll(p, schema.Kinds(), s[4..])
      case Eof => Eof
      case Parsed(values, used) => Parsed(values, 4 + used)
    else
      DecodeAll(p, schema.Kinds(), s)
  }

  /** A frame whose length fits its field. */
  ghost predicate Writable(p: nat, schema: Schema, values: seq<Value>) {
    FitsAll(schema.Kinds(), values) && |EncodeAll(p, schema.Kinds(), values)| < LENGTH_LIMIT
  }

  /** Whatever follows a frame, reading gives the frame back and takes exactly its bytes. */
  lemma FrameReadsBack(p: nat, schema: Schema, values: seq<Value>, rest: seq<Byte>)
    requires Writable(p, schema, values)
    ensures ReadFrame(p, schema, WriteFrame(p, schema, values) + rest)
         == Parsed(values, |WriteFrame(p, schema, values)|)
  {
    hide FitsAll, EncodeAll, DecodeAll, Wire, Unwire, Power256, Schema.Kinds;
    FourBytes();
    var payload := EncodeAll(p, schema.Kinds(), values);
    AllReadBack(p, schema.Kinds(), values, rest);
    if schema.withLength {
      ScalarReadsBack(p, |payload|, 4, payload + rest);
      assert WriteFrame(p, schema, values) + rest == Wire(p, |payload|, 4) + (payload + rest);
    }
  }

  /** Where the common fields of a frame are: the length of what follows it, the time of creation, two identifiers. */
  lemma FrameLayout(p: nat, schema: Schema, values: seq<Value>)
    requires Writable(p, schema, values)
    ensures var s := WriteFrame(p, schema, values);
      var at := if schema.withLength then 4 else 0;
      var next := if schema.withCreated then at + 8 else at;
      var k := if schema.withCreated then 1 else 0;
      && (schema.withLength ==> |s| >= 4 && Unwire(p, s[..4]) == |s| - 4)
      && (schema.withCreated ==> |s| >= at + 8 && |values| > 0 && values[0] == Number(Unwire(p, s[at..at + 8])))
      && (schema.withTransaction ==>
            && |s| >= next + 16 && |values| > k + 1
            && values[k] == Number(Unwire(p, s[next..next + 8])) && values[k + 1] == Number(Unwire(p, s[next + 8..next + 16])))
  {
    hide Wire, Unwire, Power256, EncodeAll, FitsAll, Schema.Kinds;
    FourBytes();
    var payload := EncodeAll(p, schema.Kinds(), values);
    PayloadLayout(p, schema, values);
    if schema.withLength {
      ScalarReadsBack(p, |payload|, 4, payload);
    }
    var head := if schema.withLength then Wire(p, |payload|, 4) else [];
    assert WriteFrame(p, schema, values) == head + payload;
    if schema.withCreated {
      Shifted(head, payload, 0);
    }
    if schema.withTransaction {
      Shifted(head, payload, if schema.withCreated then 8 else 0);
      Shifted(head, payload, if schema.withCreated then 16 else 8);
    }
  }

  lemma Shifted(head: seq<Byte>, payload: seq<Byte>, i: nat)
    requires i + 8 <= |payload|
    ensures (head + payload)[|head| + i..|head| + i + 8] == payload[i..i + 8]
  {
  }

  lemma PayloadLayout(p: nat, schema: Schema, values: seq<Value>)
    requires FitsAll(schema.Kinds(), values)
    ensures var s := EncodeAll(p, schema.Kinds(), values);
      var next, k := if schema.withCreated then 8 else 0, if schema.withCreated then 1 else 0;
      && (schema.withCreated ==> |s| >= 8 && |values| > 0 && values[0] == Number(Unwire(p, s[0..8])))
      && (schema.withTransaction ==>
            && |s| >= next + 16 && |values| > k + 1
            && values[k] == Number(Unwire(p, s[next..next + 8])) && values[k + 1] == Number(Unwire(p, s[next + 8..next + 16])))
  {
    hide Wire, Unwire, Power256, EncodeAll, FitsAll;
    var ks, s := schema.Kinds(), EncodeAll(p, schema.Kinds(), values);
    if schema.withCreated {
      FirstScalar(p, ks, values);
      assert ks[1..] == Schema(false, false, schema.withTransaction, schema.body).Kinds();
      if schema.withTransaction {
        TwoScalars(p, ks[1..], values[1..]);
        assert s[8..][..8] == s[8..16] && s[8..][8..16] == s[16..24];
      }
    } else if schema.withTransaction {
      TwoScalars(p, ks, values);
    }
  }

  lemma TwoScalars(p: nat, ks: seq<Kind>, vs: seq<Value>)
    requires FitsAll(ks, vs) && |ks| >= 2 && ks[0] == ks[1] == Scalar(8)
    ensures var s := EncodeAll(p, ks, vs);
      && |s| >= 16 && |vs| >= 2 && vs[0] == Number(Unwire(p, s[..8])) && vs[1] == Number(Unwire(p, s[8..16]))
  {
    hide Wire, Unwire, Power256, EncodeAll, FitsAll;
    FirstScalar(p, ks, vs);
    FirstScalar(p, ks[1..], vs[1..]);
    assert EncodeAll(p, ks, vs)[8..][..8] == EncodeAll(p, ks, vs)[8..16];
  }

  lemma FirstScalar(p: nat, ks: seq<Kind>, vs: seq<Value>)
    requires FitsAll(ks, vs) && ks != [] && ks[0] == Scalar(8)
    ensures var s := EncodeAll(p, ks, vs);
      && |s| >= 8 && |vs| == |ks| && vs[0] == Number(Unwire(p, s[..8])) && FitsAll(ks[1..], vs[1..])
      && s[8..] == EncodeAll(p, ks[1..], vs[1..])
  {
    hide Wire, Unwire, Power256;
    ScalarReadsBack(p, vs[0].n, 8, EncodeAll(p, ks[1..], vs[1..]));
  }

  /** As long as a byte of a frame is missing, reading asks for more. */
  lemma CutFrameWaits(p: nat, schema: Schema, values: seq<Value>, j: nat)
    requires Writable(p, schema, values) && j < |WriteFrame(p, schema, values)|
    ensures ReadFrame(p, schema, WriteFrame(p, schema, values)[..j]).Eof?
  {
    hide Wire, Unwire;
    FourBytes();
    var payload := EncodeAll(p, schema.Kinds(), values);
    if schema.withLength {
      ScalarReadsBack(p, |payload|, 4, payload);
      if j >= 4 {
        assert WriteFrame(p, schema, values)[..j][..4] == WriteFrame(p, schema, values)[..4];
      }
    } else {
      PrefixRunsOut(p, schema.Kinds(), values, j);
    }
  }
}
