/**
  Scalars on the wire: the byte-order masks of the data streams, and the growable buffer they work on.
 */
module ByteStream {
  type Byte = b: nat | b < 256

  // ----- Byte order -----

  function LowBit(a: nat): (r: nat)
    ensures r < 2
  {
    a % 2
  }

  function MiddleBit(a: nat): (r: nat)
    ensures r < 2
  {
    a / 2 % 2
  }

  function HighBit(a: nat): (r: nat)
    ensures r < 2
  {
    a / 4 % 2
  }

  function XorBit(a: nat, b: nat): (r: nat)
    requires a < 2 && b < 2
    ensures r < 2
  {
    if a == b then 0 else 1
  }

  /** Exclusive or of two numbers below eight. */
  function Xor(a: nat, b: nat): (r: nat)
    requires a < 8 && b < 8
    ensures r < 8
  {
    Number(XorBit(LowBit(a), LowBit(b)), XorBit(MiddleBit(a), MiddleBit(b)), XorBit(HighBit(a), HighBit(b)))
  }

  /** The number whose bits these are. */
  function Number(b0: nat, b1: nat, b2: nat): (r: nat)
    requires b0 < 2 && b1 < 2 && b2 < 2
    ensures r < 8
  {
    b0 + 2 * b1 + 4 * b2
  }

  lemma NumberParts(b0: nat, b1: nat, b2: nat)
    requires b0 < 2 && b1 < 2 && b2 < 2
    ensures var r := Number(b0, b1, b2); LowBit(r) == b0 && MiddleBit(r) == b1 && HighBit(r) == b2
  {
    PartsOfTwo(b1 + 2 * b2, b0);
    PartsOfTwo(b2, b1);
    PartsOfTwo(0, b2);
    PartsOfFour(b2, b0 + 2 * b1);
    assert Number(b0, b1, b2) == 2 * (b1 + 2 * b2) + b0 == 4 * b2 + (b0 + 2 * b1);
  }

  lemma PartsOfTwo(q: nat, r: nat)
    requires r < 2
    ensures (2 * q + r) % 2 == r && (2 * q + r) / 2 == q
  {
  }

  lemma PartsOfFour(q: nat, r: nat)
    requires r < 4
    ensures (4 * q + r) % 4 == r && (4 * q + r) / 4 == q
  {
  }

  lemma Bits(a: nat) returns (b0: nat, b1: nat, b2: nat)
    requires a < 8
    ensures b0 < 2 && b1 < 2 && b2 < 2 && a == Number(b0, b1, b2)
  {
    b2 := if a >= 4 then 1 else 0;
    b1 := if a - 4 * b2 >= 2 then 1 else 0;
    b0 := a - 4 * b2 - 2 * b1;
  }

  lemma XorOfBits(a0: nat, a1: nat, a2: nat, b0: nat, b1: nat, b2: nat)
    requires a0 < 2 && a1 < 2 && a2 < 2 && b0 < 2 && b1 < 2 && b2 < 2
    ensures Xor(Number(a0, a1, a2), Number(b0, b1, b2)) == Number(XorBit(a0, b0), XorBit(a1, b1), XorBit(a2, b2))
  {
    hide HighBit, LowBit, MiddleBit, Number, XorBit;
    NumberParts(a0, a1, a2);
    NumberParts(b0, b1, b2);
  }

  lemma XorCommutes(a: nat, b: nat)
    requires a < 8 && b < 8
    ensures Xor(a, b) == Xor(b, a)
  {
    hide Xor, Number;
    var a0, a1, a2 := Bits(a);
    var b0, b1, b2 := Bits(b);
    XorOfBits(a0, a1, a2, b0, b1, b2);
    XorOfBits(b0, b1, b2, a0, a1, a2);
  }

  lemma XorAssociates(a: nat, b: nat, c: nat)
    requires a < 8 && b < 8 && c < 8
    ensures Xor(Xor(a, b), c) == Xor(a, Xor(b, c))
  {
    hide Xor, Number;
    var a0, a1, a2 := Bits(a);
    var b0, b1, b2 := Bits(b);
    var c0, c1, c2 := Bits(c);
    XorOfBits(a0, a1, a2, b0, b1, b2);
    XorOfBits(b0, b1, b2, c0, c1, c2);
    XorOfBits(XorBit(a0, b0), XorBit(a1, b1), XorBit(a2, b2), c0, c1, c2);
    XorOfBits(a0, a1, a2, XorBit(b0, c0), XorBit(b1, c1), XorBit(b2, c2));
  }

  lemma BitLaws(b: nat)
    requires b < 2
    ensures XorBit(b, 0) == XorBit(0, b) == b && XorBit(b, b) == 0
  {
  }

  lemma ZeroBits()
    ensures Number(0, 0, 0) == 0
  {
  }

  lemma XorZero(a: nat)
    requires a < 8
    ensures Xor(a, 0) == a == Xor(0, a) && Xor(a, a) == 0
  {
    hide Number, Xor, XorBit;
    var a0, a1, a2 := Bits(a);
    ZeroBits();
    BitLaws(a0);
    BitLaws(a1);
    BitLaws(a2);
    XorOfBits(a0, a1, a2, 0, 0, 0);
    XorOfBits(0, 0, 0, a0, a1, a2);
    XorOfBits(a0, a1, a2, a0, a1, a2);
  }

  /** Numbers that differ in no bit are equal. */
  lemma XorIsZero(a: nat, b: nat)
    requires a < 8 && b < 8 && Xor(a, b) == 0
    ensures a == b
  {
    hide Xor;
    XorAssociates(a, b, b);
    XorZero(a);
    XorZero(b);
  }

  lemma XorTwice(a: nat, b: nat)
    requires a < 8 && b < 8
    ensures Xor(a, Xor(a, b)) == b
  {
    hide Xor;
    XorAssociates(a, a, b);
    XorZero(a);
    XorZero(b);
  }

  lemma XorInjective(a: nat, b: nat, c: nat)
    requires a < 8 && b < 8 && c < 8 && Xor(a, b) == Xor(a, c)
    ensures b == c
  {
    hide Xor;
    XorTwice(a, b);
    XorTwice(a, c);
  }

  /** Sizes of scalars. The mask for a size uses that many of the low bits of the protocol mask. */
  predicate IsSize(size: nat) {
    size == 1 || size == 2 || size == 4 || size == 8
  }

  lemma XorWithinSize(a: nat, b: nat, size: nat)
    requires IsSize(size) && a < size && b < size
    ensures Xor(a, b) < size
  {
    hide Xor;
    var a0, a1, a2 := Bits(a);
    var b0, b1, b2 := Bits(b);
    XorOfBits(a0, a1, a2, b0, b1, b2);
  }

  /** Truncating to a size commutes with exclusive or. */
  lemma XorModulo(a: nat, b: nat, size: nat)
    requires IsSize(size) && a < 8 && b < 8
    ensures Xor(a, b) % size == Xor(a % size, b % size)
  {
    hide Number, Xor, XorBit;
    var a0, a1, a2 := Bits(a);
    var b0, b1, b2 := Bits(b);
    XorOfBits(a0, a1, a2, b0, b1, b2);
    ModuloOfBits(a0, a1, a2, size);
    ModuloOfBits(b0, b1, b2, size);
    ModuloOfBits(XorBit(a0, b0), XorBit(a1, b1), XorBit(a2, b2), size);
    XorOfBits(0, 0, 0, 0, 0, 0);
    XorOfBits(a0, 0, 0, b0, 0, 0);
    XorOfBits(a0, a1, 0, b0, b1, 0);
    BitLaws(0);
    ZeroBits();
  }

  lemma ModuloOfBits(b0: nat, b1: nat, b2: nat, size: nat)
    requires b0 < 2 && b1 < 2 && b2 < 2 && IsSize(size)
    ensures Number(b0, b1, b2) % size == if size == 1 then 0 else if size == 2 then Number(b0, 0, 0)
      else if size == 4 then Number(b0, b1, 0) else Number(b0, b1, b2)
  {
    hide Number;
    if size == 1 {
      RemainderOfOne(Number(b0, b1, b2));
    } else if size == 2 {
      RemainderOfTwo(b0, b1, b2);
    } else if size == 4 {
      RemainderOfFour(b0, b1, b2);
    } else {
      RemainderOfEight(Number(b0, b1, b2));
    }
  }

  lemma RemainderOfTwo(b0: nat, b1: nat, b2: nat)
    requires b0 < 2 && b1 < 2 && b2 < 2
    ensures Number(b0, b1, b2) % 2 == Number(b0, 0, 0)
  {
    PartsOfTwo(b1 + 2 * b2, b0);
    assert Number(b0, b1, b2) == 2 * (b1 + 2 * b2) + b0;
  }

  lemma RemainderOfFour(b0: nat, b1: nat, b2: nat)
    requires b0 < 2 && b1 < 2 && b2 < 2
    ensures Number(b0, b1, b2) % 4 == Number(b0, b1, 0)
  {
    PartsOfFour(b2, b0 + 2 * b1);
    assert Number(b0, b1, b2) == 4 * b2 + (b0 + 2 * b1);
  }

  lemma RemainderOfOne(n: nat)
    ensures n % 1 == 0
  {
  }

  lemma RemainderOfEight(n: nat)
    requires n < 8
    ensures n % 8 == n
  {
  }

  // ----- Scalars as bytes -----

  function Power256(n: nat): nat {
    if n == 0 then 1 else 256 * Power256(n - 1)
  }

  /** Least significant byte first. */
  function ToBytes(v: nat, size: nat): (s: seq<Byte>)
    ensures |s| == size
  {
    if size == 0 then [] else [v % 256] + ToBytes(v / 256, size - 1)
  }

  function FromBytes(s: seq<Byte>): nat {
    if s == [] then 0 else (s[0] as int) + 256 * FromBytes(s[1..])
  }

  lemma {:induction false} BytesRoundTrip(v: nat, size: nat)
    requires v < Power256(size)
    ensures FromBytes(ToBytes(v, size)) == v
    decreases size
  {
    if size > 0 {
      BytesRoundTrip(v / 256, size - 1);
      assert ToBytes(v, size)[1..] == ToBytes(v / 256, size - 1);
    }
  }

  /** Byte `i` of the result is byte `mask ^ i` of the argument; this is what `read` and `write` both do. */
  function Permute(s: seq<Byte>, mask: nat): (r: seq<Byte>)
    requires IsSize(|s|) && mask < |s|
    ensures |r| == |s|
  {
    seq(|s|, i requires 0 <= i < |s| => XorWithinSize(mask, i, |s|); s[Xor(mask, i)])
  }

  lemma PermuteTwice(s: seq<Byte>, m1: nat, m2: nat)
    requires IsSize(|s|) && m1 < |s| && m2 < |s|
    ensures Xor(m1, m2) < |s| && Permute(Permute(s, m1), m2) == Permute(s, Xor(m1, m2))
  {
    hide Xor;
    XorWithinSize(m1, m2, |s|);
    forall i | 0 <= i < |s| ensures Permute(Permute(s, m1), m2)[i] == Permute(s, Xor(m1, m2))[i] {
      XorWithinSize(m2, i, |s|);
      XorAssociates(m1, m2, i);
    }
  }

  /** The wire form of a scalar under protocol mask `p`. */
  function Wire(p: nat, v: nat, size: nat): (s: seq<Byte>)
    requires IsSize(size)
    ensures |s| == size
  {
    Permute(ToBytes(v, size), p % size)
  }

  function Unwire(p: nat, s: seq<Byte>): nat
    requires IsSize(|s|)
  {
    FromBytes(Permute(s, p % |s|))
  }

  /** Every scalar survives the wire, whatever the byte order of the protocol. */
  lemma WireRoundTrip(p: nat, v: nat, size: nat)
    requires IsSize(size) && v < Power256(size)
    ensures Unwire(p, Wire(p, v, size)) == v
  {
    hide Xor, Permute, FromBytes, ToBytes, Power256;
    var s := ToBytes(v, size);
    var m := p % size;
    PermuteTwice(s, m, m);
    XorZero(m);
    PermuteByZero(s);
    BytesRoundTrip(v, size);
  }

  /** Mask 0 writes the least significant byte first, and mask 7 the same bytes the other way round. */
  lemma WireOrder(v: nat, size: nat)
    requires IsSize(size)
    ensures Wire(0, v, size)[0] == v % 256
    ensures size > 1 ==> Wire(0, v, size)[1..] == ToBytes(v / 256, size - 1)
    ensures forall k | 0 <= k < size :: Wire(7, v, size)[k] == Wire(0, v, size)[size - 1 - k]
  {
    hide Xor, Power256;
    var s := ToBytes(v, size);
    ZeroRemains(size);
    PermuteByZero(s);
    assert Wire(0, v, size) == s;
    forall k | 0 <= k < size ensures Wire(7, v, size)[k] == s[size - 1 - k] {
      XorReverses(k, size);
    }
  }

  lemma XorReverses(k: nat, size: nat)
    requires IsSize(size) && k < size
    ensures Xor(7 % size, k) == size - 1 - k
  {
    hide Xor;
    match size
    case 1 => XorZero(0);
    case 2 => XorReversesTwo(k);
    case 4 => XorReversesFour(k);
    case _ => XorReversesEight(k);
  }

  lemma XorReversesTwo(k: nat)
    requires k < 2
    ensures Xor(1, k) == 1 - k
  {
    hide Xor;
    XorOfBits(1, 0, 0, k, 0, 0);
  }

  lemma XorReversesFour(k: nat)
    requires k < 4
    ensures Xor(3, k) == 3 - k
  {
    hide Xor;
    var b0, b1, b2 := Bits(k);
    XorOfBits(1, 1, 0, b0, b1, 0);
  }

  lemma XorReversesEight(k: nat)
    requires k < 8
    ensures Xor(7, k) == 7 - k
  {
    hide Xor;
    var b0, b1, b2 := Bits(k);
    XorOfBits(1, 1, 1, b0, b1, b2);
  }

  /** Four bytes of mask 0 are the digits of the number, in ascending order. */
  lemma FourByteWire(v: nat)
    requires v < 0x1_0000_0000
    ensures var s := Wire(0, v, 4);
      v == (s[0] as int) + 256 * (s[1] as int) + 65536 * (s[2] as int) + 16777216 * (s[3] as int)
  {
    hide Xor, Permute;
    var s := ToBytes(v, 4);
    PermuteByZero(s);
    var a, b, d := v / 256, v / 256 / 256, v / 256 / 256 / 256;
    assert s == [v % 256] + ToBytes(a, 3) && ToBytes(a, 3) == [a % 256] + ToBytes(b, 2);
    assert ToBytes(b, 2) == [b % 256] + ToBytes(d, 1) && ToBytes(d, 1) == [d % 256] + ToBytes(d / 256, 0);
  }

  lemma PermuteByZero(s: seq<Byte>)
    requires IsSize(|s|)
    ensures Permute(s, 0) == s
  {
    hide Xor;
    forall i | 0 <= i < |s| ensures Permute(s, 0)[i] == s[i] {
      XorZero(i);
    }
  }

  // ----- Hosts -----

  /** A scalar in the memory of a host whose byte, word and dword order is `actual`. */
  function InMemory(actual: nat, v: nat, size: nat): (s: seq<Byte>)
    requires IsSize(size) && actual < 8
    ensures |s| == size
  {
    Permute(ToBytes(v, size), actual % size)
  }

  /** What a host compiled for the order `declared` puts on the wire. */
  function HostWrite(actual: nat, declared: nat, p: nat, v: nat, size: nat): (s: seq<Byte>)
    requires IsSize(size) && actual < 8 && declared < 8 && p < 8
    ensures |s| == size
  {
    Permute(InMemory(actual, v, size), Xor(declared, p) % size)
  }

  /** A host compiled for its own order writes the protocol's form, so all such hosts understand each other. */
  lemma HostWriteIsWire(host: nat, p: nat, v: nat, size: nat)
    requires IsSize(size) && host < 8 && p < 8
    ensures HostWrite(host, host, p, v, size) == Wire(p, v, size)
  {
    hide HostWrite, Xor, Permute, ToBytes;
    HostWriteMask(host, host, p, v, size);
    XorZero(host);
    XorZero(p);
  }

  /** The value that a host compiled for the order `declared` reads from the wire into its own memory. */
  function HostRead(actual: nat, declared: nat, p: nat, s: seq<Byte>): nat
    requires IsSize(|s|) && actual < 8 && declared < 8 && p < 8
  {
    FromBytes(Permute(Permute(s, Xor(declared, p) % |s|), actual % |s|))
  }

  lemma HostReadIsUnwire(host: nat, p: nat, s: seq<Byte>)
    requires IsSize(|s|) && host < 8 && p < 8
    ensures HostRead(host, host, p, s) == Unwire(p, s)
  {
    hide Xor, Permute, FromBytes;
    PermuteTwice(s, Xor(host, p) % |s|, host % |s|);
    XorModulo(Xor(host, p), host, |s|);
    XorCommutes(Xor(host, p), host);
    XorTwice(host, p);
  }

  /** Hosts of any orders, each compiled for its own, understand each other's scalars. */
  lemma HostsUnderstandEachOther(writer: nat, reader: nat, p: nat, v: nat, size: nat)
    requires IsSize(size) && writer < 8 && reader < 8 && p < 8 && v < Power256(size)
    ensures HostRead(reader, reader, p, HostWrite(writer, writer, p, v, size)) == v
  {
    hide Xor, Permute;
    HostWriteIsWire(writer, p, v, size);
    HostReadIsUnwire(reader, p, Wire(p, v, size));
    WireRoundTrip(p, v, size);
  }

  lemma HostWriteMask(actual: nat, declared: nat, p: nat, v: nat, size: nat)
    requires IsSize(size) && actual < 8 && declared < 8 && p < 8
    ensures HostWrite(actual, declared, p, v, size) == Permute(ToBytes(v, size), Xor(Xor(actual, declared), p) % size)
  {
    hide Xor, Permute, ToBytes;
    var s := ToBytes(v, size);
    PermuteTwice(s, actual % size, Xor(declared, p) % size);
    XorModulo(actual, Xor(declared, p), size);
    XorAssociates(actual, declared, p);
  }

  /**
    A host writes every scalar of a size in the protocol's form exactly when it was compiled for its own order, as
    far as scalars of that size are concerned.
   */
  lemma WireFormExactlyWhenDeclaredRight(actual: nat, declared: nat, p: nat, size: nat)
    requires IsSize(size) && actual < 8 && declared < 8 && p < 8
    ensures (forall v | 0 <= v < Power256(size) :: HostWrite(actual, declared, p, v, size) == Wire(p, v, size))
       <==> actual % size == declared % size
  {
    hide HostWrite, Xor, Permute, ToBytes, Power256;
    var x := Xor(actual, declared);
    XorModulo(x, p, size);
    XorModulo(actual, declared, size);
    if actual % size == declared % size {
      XorZero(actual % size);
      XorZero(p % size);
      forall v | 0 <= v < Power256(size) ensures HostWrite(actual, declared, p, v, size) == Wire(p, v, size) {
        HostWriteMask(actual, declared, p, v, size);
      }
    } else {
      if x % size == 0 {
        XorIsZero(actual % size, declared % size);
      }
      HostWriteMask(actual, declared, p, 1, size);
      OneMoves(x % size, p % size, size);
      PowerIsMore(size);
    }
  }

  /**
    What one host writes another reads, both compiled for some order, exactly when both were compiled equally wrong, as
    far as scalars of that size are concerned.
   */
  lemma HostsAgreeExactlyWhen(writer: nat, declaredW: nat, reader: nat, declaredR: nat, p: nat, size: nat)
    requires IsSize(size) && writer < 8 && declaredW < 8 && reader < 8 && declaredR < 8 && p < 8
    ensures (forall v | 0 <= v < Power256(size) ::
               HostRead(reader, declaredR, p, HostWrite(writer, declaredW, p, v, size)) == v)
       <==> Xor(writer, declaredW) % size == Xor(reader, declaredR) % size
  {
    hide Xor, Permute, HostRead, HostWrite, FromBytes, ToBytes;
    var x, y := Xor(writer, declaredW) % size, Xor(reader, declaredR) % size;
    XorWithinSize(x, y, size);
    forall v | 0 <= v < Power256(size)
      ensures HostRead(reader, declaredR, p, HostWrite(writer, declaredW, p, v, size))
           == FromBytes(Permute(ToBytes(v, size), Xor(x, y)))
    {
      ReadWhatWasWritten(writer, declaredW, reader, declaredR, p, v, size);
    }
    if x == y {
      XorZero(x);
      forall v | 0 <= v < Power256(size) ensures FromBytes(Permute(ToBytes(v, size), 0)) == v {
        PermuteByZero(ToBytes(v, size));
        BytesRoundTrip(v, size);
      }
    } else {
      if Xor(x, y) == 0 {
        XorIsZero(x, y);
      }
      OneIsChanged(Xor(x, y), size);
      assert 1 < Power256(size) by { PowerIsMore(size); }
    }
  }

  lemma {:induction false} PowerIsMore(n: nat)
    ensures Power256(n) > n
  {
    if n > 0 {
      PowerIsMore(n - 1);
    }
  }

  lemma ReadWhatWasWritten(writer: nat, declaredW: nat, reader: nat, declaredR: nat, p: nat, v: nat, size: nat)
    requires IsSize(size) && writer < 8 && declaredW < 8 && reader < 8 && declaredR < 8 && p < 8
    ensures var x, y := Xor(writer, declaredW) % size, Xor(reader, declaredR) % size;
      && Xor(x, y) < size
      && HostRead(reader, declaredR, p, HostWrite(writer, declaredW, p, v, size))
           == FromBytes(Permute(ToBytes(v, size), Xor(x, y)))
  {
    hide Xor, Permute, FromBytes, ToBytes, HostWrite;
    var s, q := ToBytes(v, size), p % size;
    var x, y := Xor(writer, declaredW) % size, Xor(reader, declaredR) % size;
    XorWithinSize(x, y, size);
    XorWithinSize(x, q, size);
    XorWithinSize(y, q, size);
    HostWriteMask(writer, declaredW, p, v, size);
    XorModulo(Xor(writer, declaredW), p, size);
    var t := HostWrite(writer, declaredW, p, v, size);
    assert t == Permute(s, Xor(x, q));
    PermuteTwice(t, Xor(declaredR, p) % size, reader % size);
    XorModulo(Xor(declaredR, p), reader, size);
    XorCommutes(Xor(declaredR, p), reader);
    XorAssociates(reader, declaredR, p);
    XorModulo(Xor(reader, declaredR), p, size);
    assert HostRead(reader, declaredR, p, t) == FromBytes(Permute(t, Xor(y, q)));
    PermuteTwice(s, Xor(x, q), Xor(y, q));
    XorPairs(x, y, q);
  }

  lemma XorPairs(x: nat, y: nat, q: nat)
    requires x < 8 && y < 8 && q < 8
    ensures Xor(Xor(x, q), Xor(y, q)) == Xor(x, y)
  {
    hide Xor;
    XorCommutes(y, q);
    XorAssociates(x, q, Xor(q, y));
    XorTwice(q, y);
  }

  lemma OneIsChanged(x: nat, size: nat)
    requires IsSize(size) && 0 < x < size
    ensures FromBytes(Permute(ToBytes(1, size), x)) != 1
  {
    hide Xor, ToBytes, Permute;
    OneIsFirst(size);
    PermuteAt(ToBytes(1, size), x, 0);
    XorZero(x);
    var s := Permute(ToBytes(1, size), x);
    assert FromBytes(s) == 256 * FromBytes(s[1..]);
  }

  lemma SevenAndThree()
    ensures Xor(7, 3) == Number(0, 0, 1) && 7 == Number(1, 1, 1) && 3 == Number(1, 1, 0)
  {
    XorOfBits(1, 1, 1, 1, 1, 0);
  }

  lemma DwordsOnly(size: nat)
    requires IsSize(size)
    ensures Xor(7, 3) % size == 0 <==> size < 8
    ensures 7 % size == 3 % size <==> size < 8
  {
    hide Xor;
    SevenAndThree();
    ModuloOfBits(0, 0, 1, size);
    ModuloOfBits(1, 1, 1, size);
    ModuloOfBits(1, 1, 0, size);
  }

  /**
    A big-endian host is compiled for big-endian bytes and words and, for want of one name, little-endian dwords. Its
    scalars of up to four bytes have the form of the protocol, those of eight do not, and hosts of other orders
    misread them; two such hosts understand each other.
   */
  lemma BigEndianHost(p: nat, other: nat, size: nat)
    requires p < 8 && other < 8 && IsSize(size)
    ensures (forall v | 0 <= v < Power256(size) :: HostWrite(7, 3, p, v, size) == Wire(p, v, size)) <==> size < 8
    ensures (forall v | 0 <= v < Power256(size) ::
               HostRead(other, other, p, HostWrite(7, 3, p, v, size)) == v) <==> size < 8
    ensures forall v | 0 <= v < Power256(size) :: HostRead(7, 3, p, HostWrite(7, 3, p, v, size)) == v
  {
    hide HostRead, HostWrite, Wire, Power256, Xor;
    WireFormExactlyWhenDeclaredRight(7, 3, p, size);
    HostsAgreeExactlyWhen(7, 3, other, other, p, size);
    HostsAgreeExactlyWhen(7, 3, 7, 3, p, size);
    XorZero(other);
    ZeroRemains(size);
    DwordsOnly(size);
  }

  lemma ZeroRemains(size: nat)
    requires IsSize(size)
    ensures 0 % size == 0
  {
  }

  /** The number one shows where its bytes went. */
  lemma OneMoves(x: nat, p: nat, size: nat)
    requires IsSize(size) && x < size && p < size && x != 0
    ensures Xor(x, p) < size && Permute(ToBytes(1, size), Xor(x, p)) != Permute(ToBytes(1, size), p)
  {
    hide Xor, ToBytes, Permute;
    XorWithinSize(x, p, size);
    XorWithinSize(p, p, size);
    OneIsFirst(size);
    XorZero(p);
    XorAssociates(x, p, p);
    XorZero(x);
    PermuteAt(ToBytes(1, size), p, p);
    PermuteAt(ToBytes(1, size), Xor(x, p), p);
  }

  lemma PermuteAt(s: seq<Byte>, mask: nat, i: nat)
    requires IsSize(|s|) && mask < |s| && i < |s|
    ensures Xor(mask, i) < |s| && Permute(s, mask)[i] == s[Xor(mask, i)]
  {
    hide Xor;
    XorWithinSize(mask, i, |s|);
  }

  lemma OneIsFirst(size: nat)
    requires size > 0
    ensures ToBytes(1, size)[0] == 1 && forall i | 0 < i < size :: ToBytes(1, size)[i] == 0
  {
    ZeroBytes(size - 1);
  }

  lemma {:induction false} ZeroBytes(size: nat)
    ensures forall i | 0 <= i < size :: ToBytes(0, size)[i] == 0
  {
    if size > 0 {
      ZeroBytes(size - 1);
    }
  }
}
