/** Merkle trees over byte strings, as in section 2.1 of RFC 6962. */
module MerkleTree {
  import opened Basics

  type Bytes = seq<Byte>

  const HASH_SIZE := 32

  type Digest = d: Bytes | |d| == HASH_SIZE witness seq(HASH_SIZE, _ => 0)

  /** The hash function: nothing is assumed about it but the size of its results. */
  type Hasher = Bytes -> Digest

  const LEAF_PREFIX: Bytes := [0]
  const INNER_PREFIX: Bytes := [1]

  function EmptyHash(h: Hasher): Digest {
    h([])
  }

  function LeafHash(h: Hasher, leaf: Bytes): Digest {
    h(LEAF_PREFIX + leaf)
  }

  function InnerHash(h: Hasher, left: Bytes, right: Bytes): Digest {
    h(INNER_PREFIX + (left + right))
  }

  // ----- the split point -----

  function Pow2(k: nat): (p: nat)
    ensures p >= 1
  {
    if k == 0 then 1 else 2 * Pow2(k - 1)
  }

  /** The number of binary digits of n. */
  function BitLen(n: nat): nat {
    if n == 0 then 0 else 1 + BitLen(n / 2)
  }

  function SplitPoint(length: nat): nat
    requires length >= 1
  {
    var k := Pow2(BitLen(length) - 1);
    if k == length then k / 2 else k
  }

  lemma {:induction false} BitLenBounds(n: nat)
    requires n >= 1
    ensures BitLen(n) >= 1 && Pow2(BitLen(n) - 1) <= n < 2 * Pow2(BitLen(n) - 1)
  {
    if n > 1 {
      BitLenBounds(n / 2);
    }
  }

  /** The split point is the power of two k with k < n <= 2k. */
  lemma {:induction false} SplitIsLargest(n: nat) returns (e: nat)
    requires n >= 2
    ensures SplitPoint(n) == Pow2(e) && Pow2(e) < n <= 2 * Pow2(e)
  {
    BitLenBounds(n);
    hide BitLen;
    e := BitLen(n) - 1;
    if Pow2(e) == n {
      assert e > 0 && Pow2(e) == 2 * Pow2(e - 1);
      e := e - 1;
    }
  }

  lemma {:induction false} Pow2Grows(a: nat, b: nat)
    requires a < b
    ensures 2 * Pow2(a) <= Pow2(b)
  {
    if a < b - 1 {
      Pow2Grows(a, b - 1);
    }
  }

  lemma {:induction false} SplitUnique(n: nat, e: nat)
    requires n >= 2 && Pow2(e) < n <= 2 * Pow2(e)
    ensures SplitPoint(n) == Pow2(e)
  {
    var f := SplitIsLargest(n);
    if e < f {
      Pow2Grows(e, f);
    } else if f < e {
      Pow2Grows(f, e);
    }
  }

  /** Splitting commutes with pairing: split(n) = 2 split(ceil(n/2)) for n > 2. */
  lemma {:induction false} SplitDoubles(n: nat)
    requires n > 2
    ensures SplitPoint(n) == 2 * SplitPoint((n + 1) / 2)
  {
    var e := SplitIsLargest((n + 1) / 2);
    SplitUnique(n, e + 1);
  }

  lemma {:induction false} SplitInside(n: nat)
    requires n >= 2
    ensures 0 < SplitPoint(n) < n
  {
    var e := SplitIsLargest(n);
  }

  // ----- the recursive root -----

  /** The root over digests; at least one. */
  function RootOf(h: Hasher, ds: seq<Digest>): Digest
    requires |ds| >= 1
    decreases |ds|
  {
    if |ds| == 1 then ds[0]
    else
      SplitInside(|ds|);
      var k := SplitPoint(|ds|);
      InnerHash(h, RootOf(h, ds[..k]), RootOf(h, ds[k..]))
  }

  function Root(h: Hasher, items: seq<Bytes>): Digest
    decreases |items|
  {
    if |items| == 0 then EmptyHash(h)
    else if |items| == 1 then LeafHash(h, items[0])
    else
      SplitInside(|items|);
      var k := SplitPoint(|items|);
      InnerHash(h, Root(h, items[..k]), Root(h, items[k..]))
  }

  /** The root is the Merkle tree hash of section 2.1 of RFC 6962, over the bytes that are hashed. */
  lemma {:induction false} RootIsTreeHash(h: Hasher, items: seq<Bytes>, e: nat)
    ensures |items| == 0 ==> Root(h, items) == h([])
    ensures |items| == 1 ==> Root(h, items) == h([0] + items[0])
    ensures Pow2(e) < |items| <= 2 * Pow2(e) ==> Root(h, items) == h([1] + (Root(h, items[..Pow2(e)]) + Root(h, items[Pow2(e)..])))
  {
    if Pow2(e) < |items| <= 2 * Pow2(e) {
      SplitUnique(|items|, e);
      hide SplitPoint;
    }
  }

  function LeafHashes(h: Hasher, items: seq<Bytes>): (ds: seq<Digest>)
    ensures |ds| == |items| && forall i :: 0 <= i < |items| ==> ds[i] == LeafHash(h, items[i])
  {
    seq(|items|, i requires 0 <= i < |items| => LeafHash(h, items[i]))
  }

  lemma {:induction false} RootOfLeafHashes(h: Hasher, items: seq<Bytes>)
    requires |items| >= 1
    ensures RootOf(h, LeafHashes(h, items)) == Root(h, items)
    decreases |items|
  {
    if |items| > 1 {
      SplitInside(|items|);
      var k := SplitPoint(|items|);
      RootOfLeafHashes(h, items[..k]);
      RootOfLeafHashes(h, items[k..]);
      assert LeafHashes(h, items)[..k] == LeafHashes(h, items[..k]);
      assert LeafHashes(h, items)[k..] == LeafHashes(h, items[k..]);
    }
  }

  // ----- the iterative root -----

  /** One pass of the iterative algorithm: neighbours are combined, a last odd one is carried over. */
  function PairUp(h: Hasher, ds: seq<Digest>): (p: seq<Digest>)
    ensures |p| == (|ds| + 1) / 2
    ensures forall i :: 0 <= i < |p| ==>
              p[i] == if 2 * i + 1 < |ds| then InnerHash(h, ds[2 * i], ds[2 * i + 1]) else ds[2 * i]
  {
    seq((|ds| + 1) / 2, i requires 0 <= i < (|ds| + 1) / 2 =>
      if 2 * i + 1 < |ds| then InnerHash(h, ds[2 * i], ds[2 * i + 1]) else ds[2 * i])
  }

  lemma {:induction false} PairUpSplits(h: Hasher, ds: seq<Digest>, k: nat)
    requires k % 2 == 0 && k <= |ds|
    ensures PairUp(h, ds)[..k / 2] == PairUp(h, ds[..k])
    ensures PairUp(h, ds)[k / 2..] == PairUp(h, ds[k..])
  {
    hide InnerHash;
    var p, l, r := PairUp(h, ds), PairUp(h, ds[..k]), PairUp(h, ds[k..]);
    forall i | 0 <= i < k / 2
      ensures p[i] == l[i]
    {
    }
    forall i | 0 <= i < |r|
      ensures p[k / 2 + i] == r[i]
    {
      assert ds[k..][2 * i] == ds[2 * (k / 2 + i)];
    }
  }

  /** A pass does not change the root. */
  lemma {:induction false} PairUpKeepsRoot(h: Hasher, ds: seq<Digest>)
    requires |ds| >= 1
    ensures RootOf(h, PairUp(h, ds)) == RootOf(h, ds)
    decreases |ds|
  {
    hide RootOf;
    hide SplitPoint;
    hide InnerHash;
    var n := |ds|;
    if n == 1 {
      assert PairUp(h, ds) == ds;
    } else if n == 2 {
      RootOfTwo(h, ds);
    } else {
      SplitDoubles(n);
      SplitInside(n);
      SplitInside((n + 1) / 2);
      var k := SplitPoint(n);
      PairUpSplits(h, ds, k);
      PairUpKeepsRoot(h, ds[..k]);
      PairUpKeepsRoot(h, ds[k..]);
      RootOfMany(h, ds);
      RootOfMany(h, PairUp(h, ds));
    }
  }

  lemma {:induction false} RootOfMany(h: Hasher, ds: seq<Digest>)
    requires |ds| >= 2
    ensures 0 < SplitPoint(|ds|) < |ds|
    ensures RootOf(h, ds) == InnerHash(h, RootOf(h, ds[..SplitPoint(|ds|)]), RootOf(h, ds[SplitPoint(|ds|)..]))
  {
    SplitInside(|ds|);
    hide SplitPoint;
    hide InnerHash;
  }

  lemma {:induction false} RootOfTwo(h: Hasher, ds: seq<Digest>)
    requires |ds| == 2
    ensures RootOf(h, PairUp(h, ds)) == RootOf(h, ds)
  {
    hide InnerHash;
    SplitUnique(2, 0);
    assert Pow2(0) == 1;
    RootOfMany(h, ds);
    assert RootOf(h, ds[..1]) == ds[0] && RootOf(h, ds[1..]) == ds[1];
    assert PairUp(h, ds) == [InnerHash(h, ds[0], ds[1])];
  }

  /** One pass over the array, read and write cursors moving apart. */
  method Pass(h: Hasher, items: array<Digest>, size: nat) returns (wp: nat)
    requires 1 < size <= items.Length
    modifies items
    ensures wp == (size + 1) / 2
    ensures items[..wp] == PairUp(h, old(items[..size]))
  {
    hide InnerHash;
    hide PairUp;
    ghost var ds := items[..size];
    ghost var p := PairUp(h, ds);
    var rp := 0;
    wp := 0;
    while rp < size
      invariant wp <= rp <= size && (rp == 2 * wp || (rp == size && rp == 2 * wp - 1))
      invariant wp <= |p|
      invariant forall i :: 0 <= i < wp ==> items[i] == p[i]
      invariant forall i :: rp <= i < size ==> items[i] == ds[i]
    {
      if rp + 1 < size {
        items[wp] := InnerHash(h, items[rp], items[rp + 1]);
        rp := rp + 2;
      } else {
        items[wp] := items[rp];
        rp := rp + 1;
      }
      wp := wp + 1;
    }
  }

  /** The iterative algorithm computes the recursive root, for every input. */
  method HashFromByteSlicesIterative(h: Hasher, input: seq<Bytes>) returns (root: Digest)
    ensures root == Root(h, input)
  {
    if |input| == 0 {
      return EmptyHash(h);
    }
    var items := new Digest[|input|](i requires 0 <= i < |input| => LeafHash(h, input[i]));
    var size := items.Length;
    assert items[..size] == LeafHashes(h, input);
    RootOfLeafHashes(h, input);
    while size > 1
      invariant 1 <= size <= items.Length
      invariant RootOf(h, items[..size]) == Root(h, input)
      decreases size
    {
      PairUpKeepsRoot(h, items[..size]);
      size := Pass(h, items, size);
    }
    root := items[0];
  }
}
