/** Blocks split into parts, parts collected in any order, blocks put together again. */
module PartSets {
  import opened Basics
  import opened MerkleTree
  import opened MerkleProof
  import opened ProofTrails

  // ----- splitting -----

  /** The concatenation of a list of byte strings. */
  function Join(list: seq<Bytes>): Bytes {
    if list == [] then [] else list[0] + Join(list[1..])
  }

  lemma {:induction false} JoinSnoc(list: seq<Bytes>, b: Bytes)
    ensures Join(list + [b]) == Join(list) + b
  {
    if list == [] {
      assert list + [b] == [b] && [b][1..] == [];
    } else {
      JoinSnoc(list[1..], b);
      assert (list + [b])[1..] == list[1..] + [b];
      assert list[0] + (Join(list[1..]) + b) == (list[0] + Join(list[1..])) + b;
    }
  }

  /** Cuts data into pieces of `size` bytes, the last possibly shorter, none empty. */
  method SplitByteArray(data: Bytes, size: nat) returns (result: seq<Bytes>)
    requires size > 0
    ensures Join(result) == data
    ensures forall i :: 0 <= i < |result| ==> 0 < |result[i]| <= size
    ensures forall i :: 0 <= i < |result| - 1 ==> |result[i]| == size
  {
    result := [];
    var i := 0;
    assert data[..0] == [];
    while i < |data|
      invariant 0 <= i
      invariant Join(result) == data[..if i < |data| then i else |data|]
      invariant forall k :: 0 <= k < |result| ==> 0 < |result[k]| <= size
      invariant forall k :: 0 <= k < |result| - 1 ==> |result[k]| == size
      invariant i <= |data| ==> forall k :: 0 <= k < |result| ==> |result[k]| == size
    {
      var end := i + size;
      if end > |data| {
        end := |data|;
      }
      JoinSnoc(result, data[i..end]);
      assert data[..end] == data[..i] + data[i..end];
      result := result + [data[i..end]];
      i := i + size;
    }
    assert data[..|data|] == data;
  }

  // ----- parts -----

  datatype Part = Part(chainID: string, height: int, round: int, bytes: Bytes, proof: Proof)

  datatype PartSetHeader = PartSetHeader(height: int, round: int, total: int, root: Bytes, chainID: string)

  datatype AddResult = Accepted | Duplicated | WrongHeight | WrongRound | BadProof(why: Outcome) | WrongTotalOrChain

  function VerifyPart(h: Hasher, p: Part, root: Bytes, total: int, chainID: string): AddResult {
    var v := Verify(h, p.proof, root, p.bytes);
    if v != Passed then BadProof(v)
    else if total != p.proof.total || chainID != p.chainID then WrongTotalOrChain
    else Accepted
  }

  /** What AddPart answers. */
  function Judge(h: Hasher, header: PartSetHeader, parts: seq<Option<Part>>, p: Part): AddResult
    requires |parts| == header.total && p.proof.index >= 0
  {
    if p.proof.index < header.total && parts[p.proof.index].Some? then Duplicated
    else if header.height != p.height then WrongHeight
    else if header.round != p.round then WrongRound
    else VerifyPart(h, p, header.root, header.total, header.chainID)
  }

  function Filled(parts: seq<Option<Part>>): nat {
    if parts == [] then 0 else (if parts[0].Some? then 1 else 0) + Filled(parts[1..])
  }

  lemma {:induction false} FilledUpdate(parts: seq<Option<Part>>, i: nat, p: Part)
    requires i < |parts| && parts[i].None?
    ensures Filled(parts[i := Some(p)]) == Filled(parts) + 1
  {
    if i > 0 {
      FilledUpdate(parts[1..], i - 1, p);
      assert parts[i := Some(p)][1..] == parts[1..][i - 1 := Some(p)];
    }
  }

  /** As many filled slots as slots means every slot is filled. */
  lemma {:induction false} FilledAll(parts: seq<Option<Part>>)
    ensures Filled(parts) <= |parts|
    ensures Filled(parts) == |parts| <==> forall i :: 0 <= i < |parts| ==> parts[i].Some?
  {
    if parts != [] {
      FilledAll(parts[1..]);
      assert (forall i :: 0 <= i < |parts| ==> parts[i].Some?) <==>
             parts[0].Some? && forall i :: 0 <= i < |parts[1..]| ==> parts[1..][i].Some? by {
        if parts[0].Some? && forall i :: 0 <= i < |parts[1..]| ==> parts[1..][i].Some? {
          forall i | 0 <= i < |parts|
            ensures parts[i].Some?
          {
            assert i > 0 ==> parts[i] == parts[1..][i - 1];
          }
        }
      }
    }
  }

  lemma {:induction false} NoneFilled(parts: seq<Option<Part>>)
    requires forall i :: 0 <= i < |parts| ==> parts[i].None?
    ensures Filled(parts) == 0
  {
    if parts != [] {
      NoneFilled(parts[1..]);
    }
  }

  /** A part held in slot i of a set: checked, and carrying that very index. */
  ghost predicate Sound(h: Hasher, header: PartSetHeader, i: int, p: Part) {
    p.proof.index == i && ValidateBasic(p.proof) == Passed && VerifyPart(h, p, header.root, header.total, header.chainID) == Accepted
  }

  ghost predicate AllSound(h: Hasher, header: PartSetHeader, parts: seq<Option<Part>>) {
    forall i :: 0 <= i < |parts| && parts[i].Some? ==> Sound(h, header, i, parts[i].value)
  }

  /** A passing proof against a real root names an index below its total. */
  lemma {:induction false} PassingIndexInRange(h: Hasher, p: Proof, root: Bytes, leaf: Bytes)
    requires Verify(h, p, root, leaf) == Passed && |root| == HASH_SIZE
    ensures 0 <= p.index < p.total
  {
  }

  class PartSet {
    const Header: PartSetHeader
    const BlockHeaderHash: Bytes
    const Parts: array<Option<Part>>
    var count: nat

    /** Every held part is sound and count is the number of held parts. */
    ghost predicate Valid(h: Hasher)
      reads this, Parts
    {
      && Parts.Length == Header.total && |Header.root| == HASH_SIZE
      && count == Filled(Parts[..])
      && AllSound(h, Header, Parts[..])
    }

    constructor (ghost h: Hasher, header: PartSetHeader, headerHash: Bytes)
      requires header.total >= 0 && |header.root| == HASH_SIZE
      ensures Valid(h) && fresh(Parts) && Header == header && BlockHeaderHash == headerHash
      ensures count == 0 && Parts[..] == seq(header.total, _ => None)
    {
      Header, BlockHeaderHash, count := header, headerHash, 0;
      Parts := new Option<Part>[header.total](_ => None);
      new;
      NoneFilled(Parts[..]);
    }

    /**
     * Adds a part that passed its basic validation. The answer is the specified one; an accepted
     * part fills its own slot, anything else changes nothing.
     */
    method AddPart(h: Hasher, p: Part) returns (r: AddResult)
      requires Valid(h) && ValidateBasic(p.proof) == Passed
      modifies this`count, Parts
      ensures Valid(h)
      ensures r == Judge(h, Header, old(Parts[..]), p)
      ensures r == Duplicated <==> p.proof.index < Header.total && old(Parts[..])[p.proof.index].Some?
      ensures r == WrongHeight <==> r != Duplicated && p.height != Header.height
      ensures r == WrongRound <==> r != Duplicated && p.height == Header.height && p.round != Header.round
      ensures r == Accepted <==> && r != Duplicated && p.height == Header.height && p.round == Header.round
                                 && p.chainID == Header.chainID && p.proof.total == Header.total
                                 && Verify(h, p.proof, Header.root, p.bytes) == Passed
      ensures r == Accepted ==> 0 <= p.proof.index < Header.total && old(Parts[..])[p.proof.index].None?
      ensures Parts[..] == if r == Accepted then old(Parts[..])[p.proof.index := Some(p)] else old(Parts[..])
      ensures count == if r == Accepted then old(count) + 1 else old(count)
    {
      hide Verify;
      var i := p.proof.index;
      if i < Header.total && Parts[i].Some? {
        return Duplicated;
      }
      if Header.height != p.height {
        return WrongHeight;
      }
      if Header.round != p.round {
        return WrongRound;
      }
      r := VerifyPart(h, p, Header.root, Header.total, Header.chainID);
      if r != Accepted {
        return;
      }
      PassingIndexInRange(h, p.proof, Header.root, p.bytes);
      FilledUpdate(Parts[..], i, p);
      ghost var before := Parts[..];
      Parts[i] := Some(p);
      assert Parts[..] == before[i := Some(p)];
      count := count + 1;
    }

    predicate IsComplete()
      reads this
    {
      Header.total == count
    }

    /** The joined bytes of a complete set; the source goes on to decode them. */
    method GenBytes(ghost h: Hasher) returns (bz: Option<Bytes>)
      requires Valid(h)
      ensures bz.Some? <==> IsComplete()
      ensures bz.Some? <==> forall i :: 0 <= i < Parts.Length ==> Parts[i].Some?
      ensures bz.Some? ==> bz.value == Join(PartBytes(Parts[..]))
    {
      hide Verify;
      FilledAll(Parts[..]);
      if !IsComplete() {
        return None;
      }
      var blockBytes: seq<Bytes> := [];
      for i := 0 to Parts.Length
        invariant blockBytes == PartBytes(Parts[..])[..i]
      {
        blockBytes := blockBytes + [Parts[i].value.bytes];
      }
      assert PartBytes(Parts[..])[..Parts.Length] == PartBytes(Parts[..]);
      bz := Some(Join(blockBytes));
    }
  }

  function PartBytes(parts: seq<Option<Part>>): (b: seq<Bytes>)
    ensures |b| == |parts|
    ensures forall i :: 0 <= i < |parts| && parts[i].Some? ==> b[i] == parts[i].value.bytes
  {
    seq(|parts|, i requires 0 <= i < |parts| => if parts[i].Some? then parts[i].value.bytes else [])
  }

  /** Splits a block's bytes and proves every piece; the set starts complete. */
  method PartSetFromBytes(h: Hasher, data: Bytes, maxPartSize: nat, chainID: string, height: int, round: int, headerHash: Bytes)
    returns (ps: PartSet, ghost pieces: seq<Bytes>)
    requires maxPartSize > 0
    ensures Join(pieces) == data && (forall i :: 0 <= i < |pieces| ==> 0 < |pieces[i]| <= maxPartSize)
    ensures fresh(ps) && fresh(ps.Parts)
    ensures ps.Header == PartSetHeader(height, round, |pieces|, Root(h, pieces), chainID) && ps.BlockHeaderHash == headerHash
    ensures ps.Parts.Length == |pieces| && ps.count == |pieces|
    ensures forall i :: 0 <= i < |pieces| ==> ps.Parts[i] == Some(Part(chainID, height, round, pieces[i], ProofOf(h, pieces, i)))
    ensures |pieces| <= Pow2(MAX_AUNTS) ==> ps.Valid(h) && ps.IsComplete()
  {
    hide Root;
    hide ProofOf;
    hide Pow2;
    hide Verify;
    var bzList := SplitByteArray(data, maxPartSize);
    pieces := bzList;
    var hs, proofs := ProofsFromByteSlices(h, bzList);
    ps := new PartSet(h, PartSetHeader(height, round, |bzList|, hs, chainID), headerHash);
    for i := 0 to |bzList|
      invariant ps.Parts.Length == |bzList|
      invariant forall j :: 0 <= j < i ==> ps.Parts[j] == Some(Part(chainID, height, round, bzList[j], ProofOf(h, bzList, j)))
    {
      ps.Parts[i] := Some(Part(chainID, height, round, bzList[i], proofs[i]));
    }
    ps.count := |bzList|;
    FilledAll(ps.Parts[..]);
    if |pieces| <= Pow2(MAX_AUNTS) {
      GeneratedPartsSound(h, pieces, ps.Header, ps.Parts[..]);
    }
  }

  lemma {:induction false} GeneratedPartsSound(h: Hasher, pieces: seq<Bytes>, header: PartSetHeader, parts: seq<Option<Part>>)
    requires |pieces| <= Pow2(MAX_AUNTS) && |parts| == |pieces| == header.total && header.root == Root(h, pieces)
    requires forall i :: 0 <= i < |pieces| ==>
               parts[i] == Some(Part(header.chainID, header.height, header.round, pieces[i], ProofOf(h, pieces, i)))
    ensures AllSound(h, header, parts)
  {
    forall i | 0 <= i < |parts| && parts[i].Some?
      ensures Sound(h, header, i, parts[i].value)
    {
      GeneratedProofVerifies(h, pieces, i);
      hide Verify;
      hide ValidateBasic;
      hide Aunts;
    }
  }

  // ----- good parts are accepted -----

  /** Part i of a block that was cut into these pieces. */
  function PartOf(h: Hasher, header: PartSetHeader, pieces: seq<Bytes>, i: nat): Part
    requires i < |pieces|
  {
    Part(header.chainID, header.height, header.round, pieces[i], ProofOf(h, pieces, i))
  }

  ghost predicate HeaderOf(h: Hasher, header: PartSetHeader, pieces: seq<Bytes>) {
    header.total == |pieces| && header.root == Root(h, pieces)
  }

  /** Every part that the sender makes is accepted into its empty slot, whatever else the set holds. */
  lemma {:induction false} GoodPartAccepted(h: Hasher, header: PartSetHeader, pieces: seq<Bytes>, parts: seq<Option<Part>>, i: nat)
    requires HeaderOf(h, header, pieces) && i < |pieces| == |parts|
    ensures PartOf(h, header, pieces, i).proof.index == i
    ensures parts[i].None? ==> Judge(h, header, parts, PartOf(h, header, pieces, i)) == Accepted
    ensures parts[i].Some? ==> Judge(h, header, parts, PartOf(h, header, pieces, i)) == Duplicated
  {
    GeneratedProofVerifies(h, pieces, i);
    hide Verify;
    hide ValidateBasic;
    hide Root;
    hide Aunts;
    hide LeafHash;
  }

  ghost predicate AllOffered(h: Hasher, header: PartSetHeader, pieces: seq<Bytes>, offered: seq<Part>) {
    forall i :: 0 <= i < |pieces| ==> PartOf(h, header, pieces, i) in offered
  }

  /**
   * Offers parts to an open set and joins the bytes. If every part of the block is among them, in
   * any order, any number of times and among any others, the set is complete and its bytes are the
   * block's, or a collision of the hash function is exhibited.
   */
  method Collect(h: Hasher, ps: PartSet, offered: seq<Part>, ghost pieces: seq<Bytes>) returns (bz: Option<Bytes>)
    requires ps.Valid(h) && HeaderOf(h, ps.Header, pieces)
    requires forall k :: 0 <= k < |offered| ==> ValidateBasic(offered[k].proof) == Passed
    modifies ps`count, ps.Parts
    ensures ps.Valid(h)
    ensures AllOffered(h, ps.Header, pieces, offered) ==> ps.IsComplete() && bz.Some?
    ensures bz.Some? ==> bz.value == Join(pieces) || Collides(h, Mismatch(h, pieces, ps.Parts[..], 0))
  {
    hide Verify;
    hide ValidateBasic;
    hide Root;
    hide ProofOf;
    hide Judge;
    hide Mismatch;
    hide Collides;
    for k := 0 to |offered|
      invariant ps.Valid(h)
      invariant forall i :: 0 <= i < |pieces| && PartOf(h, ps.Header, pieces, i) in offered[..k] ==> ps.Parts[i].Some?
    {
      ghost var before := ps.Parts[..];
      var r := ps.AddPart(h, offered[k]);
      forall i | 0 <= i < |pieces| && PartOf(h, ps.Header, pieces, i) in offered[..k + 1]
        ensures ps.Parts[i].Some?
      {
        if PartOf(h, ps.Header, pieces, i) == offered[k] {
          GoodPartAccepted(h, ps.Header, pieces, before, i);
        }
      }
    }
    assert offered[..|offered|] == offered;
    bz := ps.GenBytes(h);
    if bz.Some? {
      FilledAll(ps.Parts[..]);
      Reassembly(h, pieces, ps.Header, ps.Parts[..]);
    }
  }

  // ----- reassembly -----

  /** The first part that differs from the sender's piece, searched for a collision. */
  function Mismatch(h: Hasher, pieces: seq<Bytes>, parts: seq<Option<Part>>, i: nat): Finding
    requires i <= |parts| == |pieces|
    decreases |parts| - i
  {
    if i == |parts| then Nothing
    else if parts[i].Some? && parts[i].value.bytes != pieces[i]
         && ComputeHashFromAunts(h, parts[i].value.proof.index, |pieces|, LeafHash(h, parts[i].value.bytes), parts[i].value.proof.aunts).Some?
    then FindCollision(h, pieces, parts[i].value.proof.index, |pieces|, parts[i].value.bytes, parts[i].value.proof.aunts)
    else Mismatch(h, pieces, parts, i + 1)
  }

  /**
   * A complete set under the header of a split block holds exactly that block's bytes, or the
   * mismatch exhibits a collision of the hash function.
   */
  lemma {:induction false} Reassembly(h: Hasher, pieces: seq<Bytes>, header: PartSetHeader, parts: seq<Option<Part>>)
    requires header.total == |pieces| == |parts| && header.root == Root(h, pieces)
    requires AllSound(h, header, parts) && Filled(parts) == |parts|
    ensures Join(PartBytes(parts)) == Join(pieces) || Collides(h, Mismatch(h, pieces, parts, 0))
  {
    FilledAll(parts);
    hide Root;
    MismatchFinds(h, pieces, header, parts, 0);
    if !Collides(h, Mismatch(h, pieces, parts, 0)) {
      assert PartBytes(parts) == pieces;
    }
  }

  lemma {:induction false} MismatchFinds(h: Hasher, pieces: seq<Bytes>, header: PartSetHeader, parts: seq<Option<Part>>, i: nat)
    requires header.total == |pieces| == |parts| && header.root == Root(h, pieces)
    requires AllSound(h, header, parts) && i <= |parts| && forall j :: 0 <= j < |parts| ==> parts[j].Some?
    ensures (forall j :: i <= j < |parts| ==> parts[j].value.bytes == pieces[j]) || Collides(h, Mismatch(h, pieces, parts, i))
    decreases |parts| - i
  {
    hide Root;
    hide ComputeHashFromAunts;
    hide FindCollision;
    if i < |parts| {
      var p := parts[i].value;
      assert Sound(h, header, i, p);
      PassingProofMeans(h, pieces, p.proof, p.bytes);
      MismatchFinds(h, pieces, header, parts, i + 1);
    }
  }
}
