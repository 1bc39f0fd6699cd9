/** Proof generation as the source does it: nodes linked upwards, then walked from each leaf. */
module ProofTrails {
  import opened MerkleTree
  import opened MerkleProof

  class ProofNode {
    const Hash: Digest
    var Parent: ProofNode?
    var Left: ProofNode?
    var Right: ProofNode?

    constructor (hash: Digest)
      ensures Hash == hash && Parent == null && Left == null && Right == null
    {
      Hash, Parent, Left, Right := hash, null, null, null;
    }

    /** One step up: the parent, and the hash of the sibling passed on the way. */
    ghost predicate StepsTo(parent: ProofNode, aunt: Digest)
      reads this
    {
      Parent == parent && if Left != null then Left.Hash == aunt else Right != null && Right.Hash == aunt
    }

    ghost predicate IsTop()
      reads this
    {
      Parent == null && Left == null && Right == null
    }
  }

  /** A path of nodes upwards that passes the given aunts and ends at a node without parent. */
  ghost predicate Chain(path: seq<ProofNode>, aunts: seq<Digest>)
    reads path
  {
    |path| == |aunts| + 1 && path[|aunts|].IsTop() &&
    forall j :: 0 <= j < |aunts| ==> path[j].StepsTo(path[j + 1], aunts[j])
  }

  /** Collects the sibling hashes from a leaf to the root. */
  method FlattenAunts(leaf: ProofNode, ghost path: seq<ProofNode>, ghost aunts: seq<Digest>) returns (innerHashes: seq<Digest>)
    requires Chain(path, aunts) && path[0] == leaf
    ensures innerHashes == aunts
  {
    innerHashes := [];
    var spn: ProofNode? := leaf;
    ghost var j := 0;
    while spn != null
      invariant 0 <= j <= |path|
      invariant if j < |path| then spn == path[j] && innerHashes == aunts[..j] else spn == null && innerHashes == aunts
      decreases |path| - j
    {
      if spn.Left != null {
        innerHashes := innerHashes + [spn.Left.Hash];
      } else if spn.Right != null {
        innerHashes := innerHashes + [spn.Right.Hash];
      }
      spn := spn.Parent;
      j := j + 1;
    }
  }

  /** The nodes of a tree over some items: one path per item, all ending at the root and nowhere else through it. */
  ghost predicate Grown(h: Hasher, items: seq<Bytes>, trails: seq<ProofNode>, root: ProofNode, paths: seq<seq<ProofNode>>,
                        nodes: set<ProofNode>)
    reads nodes
  {
    && root in nodes && root.IsTop() && root.Hash == Root(h, items)
    && |trails| == |paths| == |items|
    && forall i :: 0 <= i < |items| ==> PathOf(h, items, i, trails[i], root, paths[i], nodes)
  }

  ghost predicate PathOf(h: Hasher, items: seq<Bytes>, i: nat, trail: ProofNode, root: ProofNode, path: seq<ProofNode>, nodes: set<ProofNode>)
    requires i < |items|
    reads nodes
  {
    && trail.Hash == LeafHash(h, items[i])
    && |path| >= 1 && path[0] == trail && path[|path| - 1] == root
    && (forall j :: 0 <= j < |path| ==> path[j] in nodes)
    && (forall j :: 0 <= j < |path| - 1 ==> path[j] != root)
    && Chain(path, Aunts(h, items, i))
  }

  /** Hangs a half's root below a new root: every path through it grows by one step. */
  method Hang(h: Hasher, items: seq<Bytes>, from: nat, sub: seq<Bytes>, trails: seq<ProofNode>, child: ProofNode, sibling: ProofNode,
              root: ProofNode, isLeft: bool, ghost paths: seq<seq<ProofNode>>, ghost below: set<ProofNode>)
    returns (ghost grown: seq<seq<ProofNode>>)
    requires Grown(h, sub, trails, child, paths, below)
    requires child != sibling && root !in below && root.IsTop()
    requires from + |sub| <= |items|
    requires forall s :: 0 <= s < |sub| ==> sub[s] == items[from + s]
    requires forall s :: 0 <= s < |sub| ==> Aunts(h, items, from + s) == Aunts(h, sub, s) + [sibling.Hash]
    modifies child
    ensures |grown| == |sub|
    ensures forall s :: 0 <= s < |sub| ==> PathOf(h, items, from + s, trails[s], root, grown[s], below + {root})
  {
    hide Aunts;
    hide LeafHash;
    child.Parent := root;
    if isLeft {
      child.Right := sibling;
    } else {
      child.Left := sibling;
    }
    grown := seq(|sub|, s requires 0 <= s < |sub| && |paths| == |sub| => paths[s] + [root]);
    forall s | 0 <= s < |sub|
      ensures PathOf(h, items, from + s, trails[s], root, grown[s], below + {root})
    {
      assert old(PathOf(h, sub, s, trails[s], child, paths[s], below));
    }
  }

  /** Below an inner node, an item's aunts are those in its half and then the other half's root. */
  lemma {:induction false} AuntsBelow(h: Hasher, items: seq<Bytes>, i: nat)
    requires |items| >= 2 && i < |items|
    ensures 0 < SplitPoint(|items|) < |items|
    ensures var k := SplitPoint(|items|);
            if i < k then Aunts(h, items, i) == Aunts(h, items[..k], i) + [Root(h, items[k..])] && items[..k][i] == items[i]
            else Aunts(h, items, i) == Aunts(h, items[k..], i - k) + [Root(h, items[..k])] && items[k..][i - k] == items[i]
  {
    SplitInside(|items|);
    hide SplitPoint;
    hide Root;
  }

  lemma {:induction false} AuntsOfHalves(h: Hasher, items: seq<Bytes>, k: nat)
    requires |items| >= 2 && 0 < k < |items| && k == SplitPoint(|items|)
    ensures forall s :: 0 <= s < k ==> Aunts(h, items, 0 + s) == Aunts(h, items[..k], s) + [Root(h, items[k..])]
    ensures forall s :: 0 <= s < |items| - k ==> Aunts(h, items, k + s) == Aunts(h, items[k..], s) + [Root(h, items[..k])]
  {
    hide SplitPoint;
    hide Aunts;
    hide Root;
    forall i | 0 <= i < |items|
      ensures if i < k then Aunts(h, items, i) == Aunts(h, items[..k], i) + [Root(h, items[k..])]
              else Aunts(h, items, i) == Aunts(h, items[k..], i - k) + [Root(h, items[..k])]
    {
      AuntsBelow(h, items, i);
    }
    forall s | 0 <= s < |items| - k
      ensures Aunts(h, items, k + s) == Aunts(h, items[k..], s) + [Root(h, items[..k])]
    {
      var i := k + s;
      assert i - k == s;
      assert Aunts(h, items, i) == Aunts(h, items[k..], i - k) + [Root(h, items[..k])];
    }
  }

  method TrailsFromByteSlices(h: Hasher, items: seq<Bytes>)
    returns (trails: seq<ProofNode>, root: ProofNode, ghost paths: seq<seq<ProofNode>>, ghost nodes: set<ProofNode>)
    ensures fresh(nodes)
    ensures Grown(h, items, trails, root, paths, nodes)
    decreases |items|
  {
    if |items| == 0 {
      root := new ProofNode(EmptyHash(h));
      return [], root, [], {root};
    }
    if |items| == 1 {
      root := new ProofNode(LeafHash(h, items[0]));
      return [root], root, [[root]], {root};
    }
    SplitInside(|items|);
    hide SplitPoint;
    var k := SplitPoint(|items|);
    var lefts, leftRoot, leftPaths, leftNodes := TrailsFromByteSlices(h, items[..k]);
    var rights, rightRoot, rightPaths, rightNodes := TrailsFromByteSlices(h, items[k..]);
    trails, root, paths, nodes := Combine(h, items, k, lefts, leftRoot, leftPaths, leftNodes, rights, rightRoot, rightPaths, rightNodes);
  }

  method Combine(h: Hasher, items: seq<Bytes>, k: nat,
                 lefts: seq<ProofNode>, leftRoot: ProofNode, ghost leftPaths: seq<seq<ProofNode>>, ghost leftNodes: set<ProofNode>,
                 rights: seq<ProofNode>, rightRoot: ProofNode, ghost rightPaths: seq<seq<ProofNode>>, ghost rightNodes: set<ProofNode>)
    returns (trails: seq<ProofNode>, root: ProofNode, ghost paths: seq<seq<ProofNode>>, ghost nodes: set<ProofNode>)
    requires |items| >= 2 && 0 < k < |items| && k == SplitPoint(|items|)
    requires Grown(h, items[..k], lefts, leftRoot, leftPaths, leftNodes)
    requires Grown(h, items[k..], rights, rightRoot, rightPaths, rightNodes)
    requires leftNodes !! rightNodes
    modifies leftRoot, rightRoot
    ensures fresh(nodes - leftNodes - rightNodes)
    ensures Grown(h, items, trails, root, paths, nodes)
  {
    hide SplitPoint;
    hide LeafHash;
    hide InnerHash;
    hide Aunts;
    hide Root;
    root := new ProofNode(InnerHash(h, leftRoot.Hash, rightRoot.Hash));
    AuntsOfHalves(h, items, k);
    ghost var gl := Hang(h, items, 0, items[..k], lefts, leftRoot, rightRoot, root, true, leftPaths, leftNodes);
    ghost var gr := Hang(h, items, k, items[k..], rights, rightRoot, leftRoot, root, false, rightPaths, rightNodes);
    trails := lefts + rights;
    nodes := leftNodes + rightNodes + {root};
    paths := gl + gr;
    forall i | 0 <= i < |items|
      ensures PathOf(h, items, i, trails[i], root, paths[i], nodes)
    {
      if i < k {
        assert PathOf(h, items, 0 + i, lefts[i], root, gl[i], leftNodes + {root});
      } else {
        var s := i - k;
        assert PathOf(h, items, k + s, rights[s], root, gr[s], rightNodes + {root});
      }
    }
    RootBelow(h, items);
  }

  lemma {:induction false} RootBelow(h: Hasher, items: seq<Bytes>)
    requires |items| >= 2
    ensures 0 < SplitPoint(|items|) < |items|
    ensures Root(h, items) == InnerHash(h, Root(h, items[..SplitPoint(|items|)]), Root(h, items[SplitPoint(|items|)..]))
  {
    SplitInside(|items|);
    hide SplitPoint;
  }

  /** Generation returns the recursive root and the specified proof of every item. */
  method ProofsFromByteSlices(h: Hasher, items: seq<Bytes>) returns (rootHash: Digest, proofs: seq<Proof>)
    ensures rootHash == Root(h, items)
    ensures |proofs| == |items|
    ensures forall i :: 0 <= i < |items| ==> proofs[i] == ProofOf(h, items, i)
  {
    var trails, root, paths, nodes := TrailsFromByteSlices(h, items);
    rootHash := root.Hash;
    proofs := [];
    hide Aunts;
    hide Root;
    hide LeafHash;
    for i := 0 to |trails|
      invariant |proofs| == i && Grown(h, items, trails, root, paths, nodes)
      invariant forall j :: 0 <= j < i ==> proofs[j] == ProofOf(h, items, j)
    {
      assert PathOf(h, items, i, trails[i], root, paths[i], nodes);
      var aunts := FlattenAunts(trails[i], paths[i], Aunts(h, items, i));
      proofs := proofs + [Proof(|items|, i, trails[i].Hash, aunts)];
    }
  }
}
