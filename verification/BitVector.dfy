/** The packed bit vector in which votes travel, and its byte encoding. */
module BitVectors {

  type Bytes = seq<bv8>

  function Mask(k: nat): bv8
    requires k < 8
  {
    (1 as bv8) << k
  }

  function ByteLen(bits: nat): nat {
    (bits + 7) / 8
  }

  predicate BitAt(elems: Bytes, i: nat)
    requires i / 8 < |elems|
  {
    elems[i / 8] & Mask(i % 8) != 0
  }

  /** The first `bits` bits stored in `elems`. */
  function Unpack(bits: nat, elems: Bytes): (s: seq<bool>)
    requires |elems| == ByteLen(bits)
    ensures |s| == bits
  {
    seq(bits, i requires 0 <= i < bits => BitAt(elems, i))
  }

  /** Bit 8q + k is bit k of byte q, the lowest first. */
  lemma {:induction false} BitLayout(bits: nat, elems: Bytes, q: nat, k: nat)
    requires |elems| == ByteLen(bits) && k < 8 && 8 * q + k < bits
    ensures Unpack(bits, elems)[8 * q + k] <==> elems[q] & [1, 2, 4, 8, 16, 32, 64, 128][k] != 0
  {
    assert (8 * q + k) / 8 == q && (8 * q + k) % 8 == k;
    MaskValues();
  }

  /** Setting or clearing bit k of a byte changes that bit only. */
  lemma {:induction false} MaskUpdate(e: bv8, k: nat, j: nat)
    requires k < 8 && j < 8
    ensures ((e | Mask(k)) & Mask(j) != 0) == (j == k || e & Mask(j) != 0)
    ensures ((e & !Mask(k)) & Mask(j) != 0) == (j != k && e & Mask(j) != 0)
  {
    var a, b := Mask(k), Mask(j);
    assert k == 0 || k == 1 || k == 2 || k == 3 || k == 4 || k == 5 || k == 6 || k == 7;
    assert j == 0 || j == 1 || j == 2 || j == 3 || j == 4 || j == 5 || j == 6 || j == 7;
    MaskValues();
    if j == k {
      assert a == b;
      assert a != 0;
    } else {
      assert a & b == 0;
    }
    MaskAlgebra(e, a, b);
  }

  lemma {:induction false} MaskValues()
    ensures Mask(0) == 1 && Mask(1) == 2 && Mask(2) == 4 && Mask(3) == 8
    ensures Mask(4) == 16 && Mask(5) == 32 && Mask(6) == 64 && Mask(7) == 128
  {
  }

  lemma {:induction false} MaskAlgebra(e: bv8, a: bv8, b: bv8)
    ensures a & b == 0 ==> (e | a) & b == e & b && (e & !a) & b == e & b
    ensures (e & !a) & a == 0
    ensures (e | a) & a == a
  {
  }

  /** Bitwise and of two bytes, bit by bit. */
  lemma {:induction false} AndBit(x: bv8, y: bv8, k: nat)
    requires k < 8
    ensures ((x & y) & Mask(k) != 0) == (x & Mask(k) != 0 && y & Mask(k) != 0)
  {
    MaskValues();
    var m := Mask(k);
    assert k == 0 || k == 1 || k == 2 || k == 3 || k == 4 || k == 5 || k == 6 || k == 7;
    assert m == 1 || m == 2 || m == 4 || m == 8 || m == 16 || m == 32 || m == 64 || m == 128;
    SingleBitAnd(x, y, m);
  }

  lemma {:induction false} SingleBitAnd(x: bv8, y: bv8, m: bv8)
    requires m == 1 || m == 2 || m == 4 || m == 8 || m == 16 || m == 32 || m == 64 || m == 128
    ensures ((x & y) & m != 0) == (x & m != 0 && y & m != 0)
  {
  }

  /** What Byte() writes: the number of unused bits, then the elements. */
  function Encode(bits: nat, elems: Bytes): (b: Bytes)
    requires |elems| == ByteLen(bits)
    ensures |b| == |elems| + 1
  {
    [(8 * |elems| - bits) as bv8] + elems
  }

  /** The leading byte is read back as a signed 8-bit number. */
  function Signed(b: bv8): int {
    if b < 128 then b as int else b as int - 256
  }

  /**
   * The inputs on which decoding neither indexes past the vector nor writes to a
   * vector that could not be built: the count of unused bits leaves room for every byte.
   */
  predicate Decodable(buf: Bytes) {
    buf == [] ||
    (8 * (|buf| - 1) - Signed(buf[0]) >= 0 && ByteLen(8 * (|buf| - 1) - Signed(buf[0])) >= |buf| - 1)
  }

  /** The one input that decodes to no vector at all: a single byte that counts unused bits. */
  predicate Nil(buf: Bytes) {
    |buf| == 1 && Signed(buf[0]) > 0
  }

  function DecodedSize(buf: Bytes): nat
    requires Decodable(buf)
  {
    if buf == [] then 0 else 8 * (|buf| - 1) - Signed(buf[0])
  }

  /** The bits a decoded vector holds: the shipped bytes, padded with zero bytes. */
  function DecodedElems(buf: Bytes): (e: Bytes)
    requires Decodable(buf)
    ensures |e| == ByteLen(DecodedSize(buf))
  {
    var n := ByteLen(DecodedSize(buf));
    if buf == [] then [] else buf[1..] + seq(n - (|buf| - 1), _ => 0)
  }

  function DecodedBits(buf: Bytes): (s: seq<bool>)
    requires Decodable(buf)
    ensures |s| == DecodedSize(buf)
  {
    Unpack(DecodedSize(buf), DecodedElems(buf))
  }

  /** Decoding what Byte() wrote gives the same vector back. */
  lemma {:induction false} EncodeDecode(bits: nat, elems: Bytes)
    requires |elems| == ByteLen(bits)
    ensures Decodable(Encode(bits, elems))
    ensures DecodedSize(Encode(bits, elems)) == bits
    ensures DecodedElems(Encode(bits, elems)) == elems
    ensures DecodedBits(Encode(bits, elems)) == Unpack(bits, elems)
  {
    var buf := Encode(bits, elems);
    var u := 8 * |elems| - bits;
    assert 0 <= u < 8;
    SmallByte(u);
    assert buf[0] as int == u;
    assert buf[1..] == elems;
  }

  lemma {:induction false} SmallByte(u: nat)
    requires u < 8
    ensures (u as bv8) as int == u && (u as bv8) < 128
  {
    assert u == 0 || u == 1 || u == 2 || u == 3 || u == 4 || u == 5 || u == 6 || u == 7;
  }

  /**
   * Which bytes decode: none at all; a single byte that counts no unused bits, or a negative number
   * of them; and longer ones that count at most seven, or a negative number.
   */
  lemma {:induction false} DecodableIff(buf: Bytes)
    ensures Decodable(buf) <==> || buf == [] || (|buf| == 1 && (buf[0] == 0 || buf[0] >= 128)) || (|buf| > 1 && (buf[0] <= 7 || buf[0] >= 128))
    ensures Decodable(buf) && buf != [] && buf[0] < 128 ==> DecodedSize(buf) == 8 * (|buf| - 1) - buf[0] as int && DecodedElems(buf) == buf[1..]
    ensures Decodable(buf) && buf != [] && buf[0] >= 128 ==> DecodedSize(buf) == 8 * (|buf| - 1) + 256 - buf[0] as int
    ensures Decodable(buf) && buf != [] ==> buf[1..] <= DecodedElems(buf) && forall k :: |buf| - 1 <= k < |DecodedElems(buf)| ==> DecodedElems(buf)[k] == 0
  {
    if buf != [] {
      var m, s := |buf| - 1, Signed(buf[0]);
      assert 8 * m - s >= 0 ==> (ByteLen(8 * m - s) >= m <==> s <= 7);
    }
  }

  /** Pointwise and of two bit strings, cut to the shorter one. */
  function AndBits(a: seq<bool>, b: seq<bool>): (c: seq<bool>)
    ensures |c| == if |a| < |b| then |a| else |b|
    ensures forall i :: 0 <= i < |c| ==> c[i] == (a[i] && b[i])
  {
    seq(if |a| < |b| then |a| else |b|, i requires 0 <= i < |a| && i < |b| => a[i] && b[i])
  }

  /** Element i/8 with bit i%8 set to v. */
  function SetBit(e: bv8, k: nat, v: bool): bv8
    requires k < 8
  {
    if v then e | Mask(k) else e & !Mask(k)
  }

  /** Rewriting one byte changes one bit of the unpacked string. */
  lemma {:induction false} SetBitUnpack(bits: nat, elems: Bytes, i: nat, v: bool)
    requires |elems| == ByteLen(bits) && i < bits
    ensures Unpack(bits, elems[i / 8 := SetBit(elems[i / 8], i % 8, v)]) == Unpack(bits, elems)[i := v]
  {
    var after := elems[i / 8 := SetBit(elems[i / 8], i % 8, v)];
    forall j: nat | j < bits
      ensures BitAt(after, j) == if j == i then v else BitAt(elems, j)
    {
      SetBitAt(elems, i, v, j);
    }
  }

  lemma {:induction false} SetBitAt(elems: Bytes, i: nat, v: bool, j: nat)
    requires i / 8 < |elems| && j / 8 < |elems|
    ensures BitAt(elems[i / 8 := SetBit(elems[i / 8], i % 8, v)], j) == if j == i then v else BitAt(elems, j)
  {
    if i / 8 == j / 8 {
      MaskUpdate(elems[i / 8], i % 8, j % 8);
      assert j == i <==> i % 8 == j % 8;
    }
  }

  function AndBytes(x: Bytes, y: Bytes, n: nat): (z: Bytes)
    requires n <= |x| && n <= |y|
    ensures |z| == n
  {
    seq(n, k requires 0 <= k < n => x[k] & y[k])
  }

  /** Anding bytes ands the unpacked strings. */
  lemma {:induction false} AndUnpack(m: nat, x: Bytes, n: nat, y: Bytes, size: nat)
    requires |x| == ByteLen(m) && |y| == ByteLen(n)
    requires size == if m < n then m else n
    ensures Unpack(size, AndBytes(x, y, ByteLen(size))) == AndBits(Unpack(m, x), Unpack(n, y))
  {
    var z := AndBytes(x, y, ByteLen(size));
    forall j: nat | j < size
      ensures BitAt(z, j) == (BitAt(x, j) && BitAt(y, j))
    {
      AndBit(x[j / 8], y[j / 8], j % 8);
    }
  }

  lemma {:induction false} ZeroUnpack(bits: nat, elems: Bytes)
    requires |elems| == ByteLen(bits)
    requires forall k :: 0 <= k < |elems| ==> elems[k] == 0
    ensures Unpack(bits, elems) == seq(bits, _ => false)
  {
  }

  /** The loop of And: the copied bytes are anded in place. */
  method AndElems(x: Bytes, y: Bytes, n: nat) returns (z: Bytes)
    requires n <= |x| && n <= |y|
    ensures z == AndBytes(x, y, n)
  {
    z := x[..n];
    for i := 0 to n
      invariant |z| == n
      invariant forall k :: 0 <= k < i ==> z[k] == AndBytes(x, y, n)[k]
      invariant forall k :: i <= k < n ==> z[k] == x[k]
    {
      z := z[i := z[i] & y[i]];
    }
  }

  class BitVector {
    var Size: nat
    var Elems: Bytes

    ghost predicate Valid()
      reads this
    {
      |Elems| == ByteLen(Size)
    }

    ghost function Bits(): (s: seq<bool>)
      reads this
      requires Valid()
      ensures |s| == Size
    {
      Unpack(Size, Elems)
    }

    constructor (bits: nat)
      ensures Valid() && Size == bits
      ensures Elems == seq(ByteLen(bits), _ => 0)
      ensures Bits() == seq(bits, _ => false)
    {
      Size := bits;
      Elems := seq(ByteLen(bits), _ => 0);
      new;
      ZeroUnpack(bits, Elems);
    }

    constructor Packed(bits: nat, elems: Bytes)
      requires |elems| == ByteLen(bits)
      ensures Valid() && Size == bits && Elems == elems
    {
      Size, Elems := bits, elems;
    }

    /** Out-of-range indices read as false; the source panics for i <= -8. */
    predicate GetIndex(i: int)
      reads this
      requires Valid()
      requires i < 0 ==> -8 < i && Size > 0
      ensures GetIndex(i) == (0 <= i < |Bits()| && Bits()[i])
    {
      if i < 0 || i >= Size then false else BitAt(Elems, i)
    }

    /** Sets one bit; a negative index changes nothing, and the source panics for i <= -8. */
    method SetIndex(i: int, v: bool) returns (ok: bool)
      requires Valid()
      requires i < 0 ==> -8 < i && Size > 0
      modifies this
      ensures Valid() && Size == old(Size)
      ensures ok == (i < Size)
      ensures Bits() == if 0 <= i < Size then old(Bits())[i := v] else old(Bits())
    {
      if i >= Size {
        return false;
      }
      if i < 0 {
        return true;
      }
      SetBitUnpack(Size, Elems, i, v);
      Elems := Elems[i / 8 := SetBit(Elems[i / 8], i % 8, v)];
      ok := true;
    }

    method Byte() returns (buf: Bytes)
      requires Valid()
      ensures buf == Encode(Size, Elems)
      ensures |buf| == 1 + |Elems| && buf[0] as int == 8 * |Elems| - Size && buf[1..] == Elems
      ensures Decodable(buf) && DecodedBits(buf) == Bits()
    {
      buf := [(8 * |Elems| - Size) as bv8];
      for i := 0 to |Elems|
        invariant buf == [(8 * |Elems| - Size) as bv8] + Elems[..i]
      {
        buf := buf + [Elems[i]];
      }
      assert Elems[..|Elems|] == Elems;
      EncodeDecode(Size, Elems);
      SmallByte(8 * |Elems| - Size);
    }

    /** The intersection; with no vector there is none. */
    method And(o: BitVector?) returns (c: BitVector?)
      requires Valid() && (o != null ==> o.Valid())
      ensures c == null <==> o == null
      ensures c != null ==> fresh(c) && c.Valid() && c.Bits() == AndBits(Bits(), o.Bits())
    {
      if o == null {
        return null;
      }
      var n := if Size < o.Size then Size else o.Size;
      var elems := AndElems(Elems, o.Elems, ByteLen(n));
      AndUnpack(Size, Elems, o.Size, o.Elems, n);
      c := new BitVector.Packed(n, elems);
    }
  }

  /** Rebuilds a vector from its bytes, or yields none. */
  method FromByte(buf: Bytes) returns (v: BitVector?)
    requires Decodable(buf) || Nil(buf)
    ensures v == null <==> Nil(buf)
    ensures v != null ==> fresh(v) && v.Valid() && v.Size == DecodedSize(buf) && v.Elems == DecodedElems(buf)
    ensures v != null ==> v.Bits() == DecodedBits(buf)
  {
    if Nil(buf) {
      return null;
    }
    v := new BitVector(DecodedSize(buf));
    if buf == [] {
      return;
    }
    ghost var n := ByteLen(DecodedSize(buf));
    for i := 0 to |buf| - 1
      invariant v.Size == DecodedSize(buf) && |v.Elems| == n
      invariant v.Elems[..i] == buf[1..][..i]
      invariant forall k :: i <= k < n ==> v.Elems[k] == 0
    {
      v.Elems := v.Elems[i := buf[i + 1]];
    }
  }
}
