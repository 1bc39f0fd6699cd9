/** Inclusion proofs: checking, generating, and what a passing proof means. */
module MerkleProof {
  import opened Basics
  import opened MerkleTree

  const MAX_AUNTS := 100

  datatype Proof = Proof(total: int, index: int, leafHash: Bytes, aunts: seq<Bytes>)

  datatype Outcome = Passed | NegativeTotal | NegativeIndex | BadLeafSize | TooManyAunts | BadAuntSize | WrongLeaf | WrongRoot

  function ValidateBasic(p: Proof): Outcome {
    if p.total < 0 then NegativeTotal
    else if p.index < 0 then NegativeIndex
    else if |p.leafHash| != HASH_SIZE then BadLeafSize
    else if |p.aunts| > MAX_AUNTS then TooManyAunts
    else if exists i :: 0 <= i < |p.aunts| && |p.aunts[i]| != HASH_SIZE then BadAuntSize
    else Passed
  }

  /** The root a leaf hash and its aunts lead to; None where the source returns nil. */
  function ComputeHashFromAunts(h: Hasher, index: int, total: int, leafHash: Bytes, aunts: seq<Bytes>): Option<Bytes>
    decreases total
  {
    if index >= total || index < 0 || total <= 0 then None
    else if total == 1 then if |aunts| != 0 then None else Some(leafHash)
    else if |aunts| == 0 then None
    else
      SplitInside(total);
      var numLeft := SplitPoint(total);
      var last := |aunts| - 1;
      if index < numLeft then
        var left := ComputeHashFromAunts(h, index, numLeft, leafHash, aunts[..last]);
        if left.None? then None else Some(InnerHash(h, left.value, aunts[last]))
      else
        var right := ComputeHashFromAunts(h, index - numLeft, total - numLeft, leafHash, aunts[..last]);
        if right.None? then None else Some(InnerHash(h, aunts[last], right.value))
  }

  /** A nil root compares equal to the empty byte string. */
  function Verify(h: Hasher, p: Proof, root: Bytes, leaf: Bytes): Outcome {
    if p.total < 0 then NegativeTotal
    else if p.index < 0 then NegativeIndex
    else if p.leafHash != LeafHash(h, leaf) then WrongLeaf
    else
      var computed := ComputeHashFromAunts(h, p.index, p.total, p.leafHash, p.aunts);
      if (if computed.None? then [] else computed.value) != root then WrongRoot else Passed
  }

  // ----- completeness -----

  /** The sibling hashes on the way from item i up to the root. */
  function Aunts(h: Hasher, items: seq<Bytes>, i: nat): (a: seq<Digest>)
    requires i < |items|
    decreases |items|
  {
    if |items| == 1 then []
    else
      SplitInside(|items|);
      var k := SplitPoint(|items|);
      if i < k then Aunts(h, items[..k], i) + [Root(h, items[k..])]
      else Aunts(h, items[k..], i - k) + [Root(h, items[..k])]
  }

  /** The proof of item i. */
  function ProofOf(h: Hasher, items: seq<Bytes>, i: nat): Proof
    requires i < |items|
  {
    Proof(|items|, i, LeafHash(h, items[i]), Aunts(h, items, i))
  }

  /**
   * The item of an n-item tree at which the path of (index, total) ends. There is none if the
   * path stops at an inner node or runs on below a leaf.
   */
  function Reach(index: int, total: int, n: nat): (j: Option<nat>)
    requires 0 <= index < total
    ensures j.Some? ==> j.value < n
    decreases total
  {
    if total == 1 then if n == 1 then Some(0) else None
    else if n < 2 then None
    else
      SplitInside(total);
      SplitInside(n);
      var k, m := SplitPoint(total), SplitPoint(n);
      if index < k then Reach(index, k, m)
      else match Reach(index - k, total - k, n - m)
        case Some(j) => Some(m + j)
        case None => None
  }

  lemma {:induction false} ReachSelf(i: nat, n: nat)
    requires i < n
    ensures Reach(i, n, n) == Some(i)
    decreases n
  {
    if n > 1 {
      SplitInside(n);
      hide SplitPoint;
      var k := SplitPoint(n);
      if i < k {
        ReachSelf(i, k);
      } else {
        ReachSelf(i - k, n - k);
      }
    }
  }

  lemma {:induction false} OnlyItem(h: Hasher, items: seq<Bytes>)
    requires |items| == 1
    ensures Aunts(h, items, 0) == [] && Root(h, items) == LeafHash(h, items[0])
  {
  }

  lemma {:induction false} AuntsStep(h: Hasher, items: seq<Bytes>, j: nat)
    requires j < |items| && |items| > 1
    ensures 0 < SplitPoint(|items|) < |items| && |Aunts(h, items, j)| > 0
    ensures var m, a := SplitPoint(|items|), Aunts(h, items, j);
            var l, r, last := Root(h, items[..m]), Root(h, items[m..]), |a| - 1;
            && Root(h, items) == InnerHash(h, l, r)
            && if j < m then a[..last] == Aunts(h, items[..m], j) && a[last] == r else a[..last] == Aunts(h, items[m..], j - m) && a[last] == l
  {
    hide InnerHash;
    SplitInside(|items|);
    hide SplitPoint;
  }

  /** The audit path of the item that is reached leads to the root under that index and total. */
  lemma {:induction false} AuntsLeadToRoot(h: Hasher, items: seq<Bytes>, index: int, total: int)
    requires 0 <= index < total && Reach(index, total, |items|).Some?
    ensures var j := Reach(index, total, |items|).value;
            ComputeHashFromAunts(h, index, total, LeafHash(h, items[j]), Aunts(h, items, j)) == Some(Root(h, items))
    decreases total
  {
    hide Aunts;
    hide Root;
    hide LeafHash;
    hide InnerHash;
    hide SplitPoint;
    if total == 1 {
      OnlyItem(h, items);
    } else {
      SplitInside(total);
      var k, m, j := SplitPoint(total), SplitPoint(|items|), Reach(index, total, |items|).value;
      AuntsStep(h, items, j);
      if index < k {
        AuntsLeadToRoot(h, items[..m], index, k);
      } else {
        AuntsLeadToRoot(h, items[m..], index - k, total - k);
      }
    }
  }

  lemma {:induction false} SplitFits(n: nat, e: nat)
    requires 1 < n <= Pow2(e)
    ensures e > 0 && SplitPoint(n) <= Pow2(e - 1) && n - SplitPoint(n) <= Pow2(e - 1)
  {
    var f := SplitIsLargest(n);
    hide SplitPoint;
    if f > e {
      Pow2Grows(e, f);
    }
    if f < e - 1 {
      Pow2Grows(f, e - 1);
    }
  }

  /** A list of at most 2^e items needs at most e aunts. */
  lemma {:induction false} AuntsAreFew(h: Hasher, items: seq<Bytes>, i: nat, e: nat)
    requires i < |items| <= Pow2(e)
    ensures |Aunts(h, items, i)| <= e
    decreases |items|
  {
    if |items| > 1 {
      SplitFits(|items|, e);
      SplitInside(|items|);
      hide SplitPoint;
      hide Root;
      var k := SplitPoint(|items|);
      if i < k {
        AuntsAreFew(h, items[..k], i, e - 1);
      } else {
        AuntsAreFew(h, items[k..], i - k, e - 1);
      }
    }
  }

  /** Whatever item a path reaches has a proof with that index and total, well-formed for every list an int64 can count. */
  lemma {:induction false} ReachedItemHasProof(h: Hasher, items: seq<Bytes>, index: int, total: int)
    requires 0 <= index < total && Reach(index, total, |items|).Some?
    ensures var j := Reach(index, total, |items|).value;
            var p := Proof(total, index, LeafHash(h, items[j]), Aunts(h, items, j));
            Verify(h, p, Root(h, items), items[j]) == Passed && (|items| <= Pow2(MAX_AUNTS) ==> ValidateBasic(p) == Passed)
  {
    hide Reach;
    hide ComputeHashFromAunts;
    hide Aunts;
    hide Root;
    hide LeafHash;
    hide SplitPoint;
    hide Pow2;
    var j := Reach(index, total, |items|).value;
    AuntsLeadToRoot(h, items, index, total);
    var a: seq<Digest> := Aunts(h, items, j);
    assert forall i :: 0 <= i < |a| ==> |a[i]| == HASH_SIZE;
    if |items| <= Pow2(MAX_AUNTS) {
      AuntsAreFew(h, items, j, MAX_AUNTS);
    }
  }

  /** Every generated proof verifies for its own item, and is well-formed for every list an int64 can count. */
  lemma {:induction false} GeneratedProofVerifies(h: Hasher, items: seq<Bytes>, i: nat)
    requires i < |items|
    ensures Verify(h, ProofOf(h, items, i), Root(h, items), items[i]) == Passed
    ensures |items| <= Pow2(MAX_AUNTS) ==> ValidateBasic(ProofOf(h, items, i)) == Passed
  {
    hide Reach;
    hide Aunts;
    hide Root;
    hide ComputeHashFromAunts;
    hide Verify;
    hide ValidateBasic;
    hide LeafHash;
    hide Pow2;
    hide SplitPoint;
    ReachSelf(i, |items|);
    ReachedItemHasProof(h, items, i, |items|);
  }

  // ----- soundness -----

  datatype Finding = Nothing | Collision(x: Bytes, y: Bytes)

  /** Two distinct byte strings with the same digest. */
  ghost predicate Collides(h: Hasher, f: Finding) {
    f.Collision? && f.x != f.y && h(f.x) == h(f.y)
  }

  /** The byte string whose digest is the root of a list. */
  function Preimage(h: Hasher, items: seq<Bytes>): (x: Bytes)
    ensures h(x) == Root(h, items)
  {
    if |items| == 0 then []
    else if |items| == 1 then LEAF_PREFIX + items[0]
    else
      SplitInside(|items|);
      INNER_PREFIX + (Root(h, items[..SplitPoint(|items|)]) + Root(h, items[SplitPoint(|items|)..]))
  }

  /** The byte string whose digest a walk computes. */
  function Walked(h: Hasher, index: int, total: int, leaf: Bytes, aunts: seq<Bytes>): (x: Bytes)
    requires ComputeHashFromAunts(h, index, total, LeafHash(h, leaf), aunts).Some?
    ensures h(x) == ComputeHashFromAunts(h, index, total, LeafHash(h, leaf), aunts).value
  {
    if total == 1 then LEAF_PREFIX + leaf
    else
      SplitInside(total);
      var k, last := SplitPoint(total), |aunts| - 1;
      if index < k then INNER_PREFIX + (ComputeHashFromAunts(h, index, k, LeafHash(h, leaf), aunts[..last]).value + aunts[last])
      else INNER_PREFIX + (aunts[last] + ComputeHashFromAunts(h, index - k, total - k, LeafHash(h, leaf), aunts[..last]).value)
  }

  /** Walks a passing proof and the tree down together and reports the first place where they differ. */
  function FindCollision(h: Hasher, items: seq<Bytes>, index: int, total: int, leaf: Bytes, aunts: seq<Bytes>): Finding
    requires ComputeHashFromAunts(h, index, total, LeafHash(h, leaf), aunts).Some?
    decreases total
  {
    if Walked(h, index, total, leaf, aunts) != Preimage(h, items) then Collision(Walked(h, index, total, leaf, aunts), Preimage(h, items))
    else if total == 1 || |items| < 2 then Nothing
    else
      SplitInside(total);
      SplitInside(|items|);
      var k, m, last := SplitPoint(total), SplitPoint(|items|), |aunts| - 1;
      if index < k then FindCollision(h, items[..m], index, k, leaf, aunts[..last])
      else FindCollision(h, items[m..], index - k, total - k, leaf, aunts[..last])
  }

  lemma {:induction false} ComputedSize(h: Hasher, index: int, total: int, leafHash: Bytes, aunts: seq<Bytes>)
    requires |leafHash| == HASH_SIZE && ComputeHashFromAunts(h, index, total, leafHash, aunts).Some?
    ensures |ComputeHashFromAunts(h, index, total, leafHash, aunts).value| == HASH_SIZE
  {
    hide SplitPoint;
  }

  lemma {:induction false} PrefixedInjective(p: Bytes, a: Bytes, b: Bytes, c: Bytes, d: Bytes)
    requires |a| == |c| && p + (a + b) == p + (c + d)
    ensures a == c && b == d
  {
    var x, y := p + (a + b), p + (c + d);
    assert x[|p|..] == a + b && y[|p|..] == c + d;
    assert (a + b)[..|a|] == a && (c + d)[..|a|] == c;
    assert (a + b)[|a|..] == b && (c + d)[|a|..] == d;
  }

  lemma {:induction false} LeafPrefixed(x: Bytes, y: Bytes)
    requires LEAF_PREFIX + x == LEAF_PREFIX + y
    ensures x == y
  {
    assert (LEAF_PREFIX + x)[1..] == x && (LEAF_PREFIX + y)[1..] == y;
  }

  lemma {:induction false} WalkFinds(h: Hasher, items: seq<Bytes>, index: int, total: int, leaf: Bytes, aunts: seq<Bytes>)
    requires forall i :: 0 <= i < |aunts| ==> |aunts[i]| == HASH_SIZE
    requires ComputeHashFromAunts(h, index, total, LeafHash(h, leaf), aunts) == Some(Root(h, items))
    ensures 0 <= index < total
    ensures (Reach(index, total, |items|).Some? && leaf == items[Reach(index, total, |items|).value])
            || Collides(h, FindCollision(h, items, index, total, leaf, aunts))
    decreases total
  {
    var seen, actual := Walked(h, index, total, leaf, aunts), Preimage(h, items);
    if seen == actual {
      if total == 1 {
        assert actual[0] == 0;
        LeafPrefixed(leaf, items[0]);
      } else {
        assert actual[0] == 1;
        WalkDown(h, items, index, total, leaf, aunts);
      }
    }
  }

  /** If walk and tree hash the same two children, the walk goes on below as it must. */
  lemma {:induction false} WalkStep(h: Hasher, items: seq<Bytes>, index: int, total: int, leaf: Bytes, aunts: seq<Bytes>)
    requires forall i :: 0 <= i < |aunts| ==> |aunts[i]| == HASH_SIZE
    requires ComputeHashFromAunts(h, index, total, LeafHash(h, leaf), aunts) == Some(Root(h, items))
    requires total > 1 && |items| > 1 && Walked(h, index, total, leaf, aunts) == Preimage(h, items)
    ensures 0 < SplitPoint(total) < total && 0 < SplitPoint(|items|) < |items| && |aunts| > 0
    ensures var k, m, rest := SplitPoint(total), SplitPoint(|items|), aunts[..|aunts| - 1];
            if index < k then ComputeHashFromAunts(h, index, k, LeafHash(h, leaf), rest) == Some(Root(h, items[..m]))
            else ComputeHashFromAunts(h, index - k, total - k, LeafHash(h, leaf), rest) == Some(Root(h, items[m..]))
  {
    hide LeafHash;
    hide SplitPoint;
    SplitInside(total);
    SplitInside(|items|);
    var k, m, last := SplitPoint(total), SplitPoint(|items|), |aunts| - 1;
    var l: Bytes, r: Bytes := Root(h, items[..m]), Root(h, items[m..]);
    hide Root;
    if index < k {
      var x := ComputeHashFromAunts(h, index, k, LeafHash(h, leaf), aunts[..last]).value;
      ComputedSize(h, index, k, LeafHash(h, leaf), aunts[..last]);
      PrefixedInjective(INNER_PREFIX, x, aunts[last], l, r);
    } else {
      var x := ComputeHashFromAunts(h, index - k, total - k, LeafHash(h, leaf), aunts[..last]).value;
      PrefixedInjective(INNER_PREFIX, aunts[last], x, l, r);
    }
  }

  lemma {:induction false} WalkDown(h: Hasher, items: seq<Bytes>, index: int, total: int, leaf: Bytes, aunts: seq<Bytes>)
    requires forall i :: 0 <= i < |aunts| ==> |aunts[i]| == HASH_SIZE
    requires ComputeHashFromAunts(h, index, total, LeafHash(h, leaf), aunts) == Some(Root(h, items))
    requires total > 1 && |items| > 1 && Walked(h, index, total, leaf, aunts) == Preimage(h, items)
    ensures (Reach(index, total, |items|).Some? && leaf == items[Reach(index, total, |items|).value])
            || Collides(h, FindCollision(h, items, index, total, leaf, aunts))
    decreases total, 0
  {
    hide ComputeHashFromAunts;
    hide Root;
    hide LeafHash;
    hide InnerHash;
    hide Walked;
    hide Preimage;
    hide SplitPoint;
    WalkStep(h, items, index, total, leaf, aunts);
    var k, m, rest := SplitPoint(total), SplitPoint(|items|), aunts[..|aunts| - 1];
    if index < k {
      WalkFinds(h, items[..m], index, k, leaf, rest);
    } else {
      WalkFinds(h, items[m..], index - k, total - k, leaf, rest);
    }
  }

  /**
   * What a passing proof of any index and total means. It proves the item at which its path ends
   * in the tree; if the path ends at no item, or the leaf is another one, the walk exhibits a
   * collision of the hash function.
   */
  lemma {:induction false} PassingProofReaches(h: Hasher, items: seq<Bytes>, p: Proof, leaf: Bytes)
    requires ValidateBasic(p) == Passed && Verify(h, p, Root(h, items), leaf) == Passed
    ensures 0 <= p.index < p.total && p.leafHash == LeafHash(h, leaf)
    ensures (Reach(p.index, p.total, |items|).Some? && leaf == items[Reach(p.index, p.total, |items|).value])
            || Collides(h, FindCollision(h, items, p.index, p.total, leaf, p.aunts))
  {
    hide ComputeHashFromAunts;
    WalkFinds(h, items, p.index, p.total, leaf, p.aunts);
  }

  /**
   * Soundness. A proof that passes both checks against the root of a list of `total` items proves
   * the item at its index, or the walk exhibits a collision of the hash function.
   */
  lemma {:induction false} PassingProofMeans(h: Hasher, items: seq<Bytes>, p: Proof, leaf: Bytes)
    requires ValidateBasic(p) == Passed && p.total == |items|
    requires Verify(h, p, Root(h, items), leaf) == Passed
    ensures 0 <= p.index < |items|
    ensures leaf == items[p.index] || Collides(h, FindCollision(h, items, p.index, |items|, leaf, p.aunts))
  {
    hide ComputeHashFromAunts;
    PassingProofReaches(h, items, p, leaf);
    ReachSelf(p.index, |items|);
  }

  /** The total must be checked by the caller: the third of three items passes as the second of two. */
  lemma {:induction false} WrongTotalPasses(h: Hasher, items: seq<Bytes>)
    requires |items| == 3
    ensures Reach(1, 2, 3) == Some(2)
    ensures var p := Proof(2, 1, LeafHash(h, items[2]), Aunts(h, items, 2));
            ValidateBasic(p) == Passed && Verify(h, p, Root(h, items), items[2]) == Passed
  {
    SplitUnique(3, 1);
    SplitUnique(2, 0);
    assert Pow2(0) == 1 && Pow2(1) == 2 && Pow2(2) == 4;
    Pow2Grows(2, MAX_AUNTS);
    hide SplitPoint;
    assert Reach(0, 1, 1) == Some(0);
    hide Pow2;
    ReachedItemHasProof(h, items, 1, 2);
  }

  // ----- a root binds its list -----

  /** Two lists with the same root, walked down together to the first place where they differ. */
  function FindInLists(h: Hasher, a: seq<Bytes>, b: seq<Bytes>): Finding
    decreases |a|
  {
    if Preimage(h, a) != Preimage(h, b) then Collision(Preimage(h, a), Preimage(h, b))
    else if |a| < 2 || |b| < 2 then Nothing
    else
      SplitInside(|a|);
      SplitInside(|b|);
      var k, m := SplitPoint(|a|), SplitPoint(|b|);
      if a[..k] != b[..m] then FindInLists(h, a[..k], b[..m]) else FindInLists(h, a[k..], b[m..])
  }

  /** The first byte of a preimage tells the empty list, a leaf and an inner node apart. */
  lemma {:induction false} PreimageKind(h: Hasher, items: seq<Bytes>)
    ensures if |items| == 0 then Preimage(h, items) == []
            else |Preimage(h, items)| > 0 && Preimage(h, items)[0] == if |items| == 1 then 0 else 1
    ensures |items| == 1 ==> Preimage(h, items) == LEAF_PREFIX + items[0]
  {
    hide Root;
  }

  /** Lists of any lengths with the same root are the same list, or a collision is exhibited. */
  lemma {:induction false} RootBinds(h: Hasher, a: seq<Bytes>, b: seq<Bytes>)
    requires Root(h, a) == Root(h, b)
    ensures a == b || Collides(h, FindInLists(h, a, b))
    decreases |a|, 1
  {
    hide Root;
    if Preimage(h, a) == Preimage(h, b) {
      hide Preimage;
      PreimageKind(h, a);
      PreimageKind(h, b);
      if |a| > 1 {
        RootBindsHalves(h, a, b);
      } else if |a| == 1 {
        LeafPrefixed(a[0], b[0]);
      }
    }
  }

  lemma {:induction false} EqualHalves(h: Hasher, a: seq<Bytes>, b: seq<Bytes>, k: nat, m: nat)
    requires |a| > 1 && |b| > 1 && k == SplitPoint(|a|) && m == SplitPoint(|b|) && k <= |a| && m <= |b|
    requires Preimage(h, a) == Preimage(h, b)
    ensures Root(h, a[..k]) == Root(h, b[..m]) && Root(h, a[k..]) == Root(h, b[m..])
  {
    hide SplitPoint;
    hide Root;
    PrefixedInjective(INNER_PREFIX, Root(h, a[..k]), Root(h, a[k..]), Root(h, b[..m]), Root(h, b[m..]));
  }

  lemma {:induction false} RootBindsHalves(h: Hasher, a: seq<Bytes>, b: seq<Bytes>)
    requires Preimage(h, a) == Preimage(h, b) && |a| > 1 && |b| > 1
    ensures a == b || Collides(h, FindInLists(h, a, b))
    decreases |a|, 0
  {
    hide Preimage;
    hide Root;
    hide LeafHash;
    hide InnerHash;
    hide SplitPoint;
    hide Collides;
    SplitInside(|a|);
    SplitInside(|b|);
    var k, m := SplitPoint(|a|), SplitPoint(|b|);
    EqualHalves(h, a, b, k, m);
    var a1, a2, b1, b2 := a[..k], a[k..], b[..m], b[m..];
    assert a == a1 + a2 && b == b1 + b2;
    if a1 != b1 {
      RootBinds(h, a1, b1);
    } else {
      RootBinds(h, a2, b2);
    }
  }
}
