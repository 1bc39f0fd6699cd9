/** The step machine of one node, from proposing a block to executing a height. */
module Consensus {
  import opened Basics
  import opened Quorum
  import opened HeightStates
  import opened Signatures
  import opened CrossShardVotes
  import opened Assemblies
  import opened HeightDatas
  import InShard
  import MerkleProof
  import PartSets
  import Blocks
  import BitVectors
  import Rounds

  /**
   * What the application is asked to execute: blocks with the bytes of their commit vectors, and
   * inner blocks. Unreadable means that the source fails to decode a status before it asks.
   */
  datatype Executed = Nothing | Unreadable | Executed(blocks: seq<Blocks.Block>, vectors: seq<BitVectors.Bytes>, inner: seq<Blocks.Block>)

  datatype Message =
    | PartMsg(part: PartSets.Part)
    | ProposalMsg(proposal: Proposal)
    | PrevoteMsg(v: Ballot)
    | PrecommitMsg(v: Ballot)
    | CspMsg(csp: CrossShardProposal)
    | CsaMsg(csa: CrossShardAccept)
    | CscMsg(csc: CrossShardCommit)

  /** What the checks on receipt establish. */
  ghost predicate Received(m: Message) {
    match m
    case PartMsg(p) => MerkleProof.ValidateBasic(p.proof) == MerkleProof.Passed
    case ProposalMsg(p) => HeaderOk(p.header)
    case CspMsg(csp) => HeaderOk(csp.header)
    case _ => true
  }

  predicate BlockAt(blocks: map<string, Blocks.Block>, b: Blocks.Block, c: string) {
    c in blocks && b == blocks[c]
  }

  /** The bytes are those of the vector that all statuses of the held certificate combine to. */
  predicate VectorAt(commits: map<string, CrossShardCommit>, v: BitVectors.Bytes, c: string) {
    && c in commits && Rounds.Readable(commits[c].statuses)
    && BitVectors.Decodable(v) && BitVectors.DecodedBits(v) == Rounds.Combined(commits[c].statuses)
  }

  /** The statuses of the listed shards' certificates can be read. */
  predicate AllReadable(commits: map<string, CrossShardCommit>, list: seq<string>) {
    forall i :: 0 <= i < |list| ==> list[i] in commits && Rounds.Readable(commits[list[i]].statuses)
  }

  /** What is executed is, shard by shard, the held block, the vector of the held certificate, and the held inner block. */
  ghost predicate Reads(blocks: map<string, Blocks.Block>, commits: map<string, CrossShardCommit>, cNeighbours: seq<string>,
                        iNeighbours: seq<string>, e: Executed)
  {
    && e.Executed? && |e.blocks| == |e.vectors| == |cNeighbours| && |e.inner| == |iNeighbours|
    && (forall i :: 0 <= i < |cNeighbours| ==> BlockAt(blocks, e.blocks[i], cNeighbours[i]) && VectorAt(commits, e.vectors[i], cNeighbours[i]))
    && (forall i :: 0 <= i < |iNeighbours| ==> BlockAt(blocks, e.inner[i], iNeighbours[i]))
  }

  /** Each shard is executed once: its held block, with the vector its held certificate combines to; and no other is. */
  lemma {:induction false} ExecutedOnce(blocks: map<string, Blocks.Block>, commits: map<string, CrossShardCommit>, cNeighbours: seq<string>,
                                        iNeighbours: seq<string>, e: Executed)
    requires Reads(blocks, commits, cNeighbours, iNeighbours, e) && NoRepeats(cNeighbours) && NoRepeats(iNeighbours)
    ensures |e.blocks| == |e.vectors| == |Elements(cNeighbours)| && |e.inner| == |Elements(iNeighbours)|
    ensures forall c :: c in Elements(cNeighbours) ==> c in blocks && c in commits && Rounds.Readable(commits[c].statuses)
    ensures forall c :: c in Elements(cNeighbours) ==>
              exists i ::
                && 0 <= i < |e.blocks| && cNeighbours[i] == c && e.blocks[i] == blocks[c]
                && BitVectors.Decodable(e.vectors[i]) && BitVectors.DecodedBits(e.vectors[i]) == Rounds.Combined(commits[c].statuses)
    ensures forall c :: c in Elements(iNeighbours) ==> exists i :: 0 <= i < |e.inner| && iNeighbours[i] == c && c in blocks && e.inner[i] == blocks[c]
  {
    hide Rounds.Readable;
    hide Rounds.Combined;
    hide BitVectors.Decodable;
    hide BitVectors.DecodedBits;
    ElementsCount(cNeighbours);
    ElementsCount(iNeighbours);
    forall c | c in Elements(cNeighbours)
      ensures exists i ::
                && 0 <= i < |e.blocks| && cNeighbours[i] == c && e.blocks[i] == blocks[c]
                && BitVectors.Decodable(e.vectors[i]) && BitVectors.DecodedBits(e.vectors[i]) == Rounds.Combined(commits[c].statuses)
    {
      var i :| 0 <= i < |cNeighbours| && cNeighbours[i] == c;
      assert BlockAt(blocks, e.blocks[i], c) && VectorAt(commits, e.vectors[i], c);
    }
    forall c | c in Elements(iNeighbours)
      ensures exists i :: 0 <= i < |e.inner| && iNeighbours[i] == c && c in blocks && e.inner[i] == blocks[c]
    {
      var i :| 0 <= i < |iNeighbours| && iNeighbours[i] == c;
      assert BlockAt(blocks, e.inner[i], c);
    }
  }

  lemma {:induction false} ElementsCount(list: seq<string>)
    requires NoRepeats(list)
    ensures |Elements(list)| == |list|
  {
    if list != [] {
      var rest, x := list[..|list| - 1], list[|list| - 1];
      ElementsCount(rest);
      assert list == rest + [x];
      assert Elements(list) == Elements(rest) + {x} && x !in Elements(rest);
    }
  }

  /** A node's own shard first, then the others. */
  method WithMe(me: string, others: set<string>) returns (list: seq<string>)
    requires me !in others
    ensures Elements(list) == others + {me} && NoRepeats(list)
  {
    var rest := ListOf(others);
    list := [me] + rest;
    assert forall i :: 0 <= i < |rest| ==> rest[i] in Elements(rest);
    assert forall i :: 0 < i < |list| ==> list[i] == rest[i - 1];
    assert Elements(list) == {me} + Elements(rest);
  }

  method ListOf(s: set<string>) returns (list: seq<string>)
    ensures Elements(list) == s && |list| == |s| && NoRepeats(list)
  {
    list := [];
    var rest := s;
    while rest != {}
      invariant rest <= s && Elements(list) == s - rest && |list| + |rest| == |s| && NoRepeats(list)
      decreases |rest|
    {
      var x :| x in rest;
      assert x !in Elements(list) && Elements(list + [x]) == Elements(list) + {x};
      list := list + [x];
      rest := rest - {x};
    }
  }

  /** Proposers take turns. */
  function ProposerOf(n: nat, height: int): int
    requires n > 0
  {
    height % n
  }

  /** Among any n heights in a row every validator proposes exactly once. */
  lemma {:induction false} ProposesOnce(n: nat, start: int, i: nat)
    requires i < n
    ensures exists height :: start <= height < start + n && ProposerOf(n, height) == i
    ensures forall x, y :: start <= x < y < start + n ==> ProposerOf(n, x) != ProposerOf(n, y)
  {
    var d := (i - start) % n;
    TurnOf(n, start, d, i);
    forall x, y | start <= x < y < start + n
      ensures ProposerOf(n, x) != ProposerOf(n, y)
    {
      if ProposerOf(n, x) == ProposerOf(n, y) {
        NoSameTurn(n, x / n, y / n, y - x);
      }
    }
    assert ProposerOf(n, start + d) == i;
  }

  lemma {:induction false} TurnOf(n: nat, start: int, d: int, i: nat)
    requires i < n && d == (i - start) % n
    ensures 0 <= d < n && (start + d) % n == i
  {
    var q := (i - start) / n;
    assert i - start == n * q + d;
    Blocks.MultipleIsFar(n, (start + d) / n + q);
    assert start + d == n * ((start + d) / n) + (start + d) % n;
    assert n * ((start + d) / n + q) == n * ((start + d) / n) + n * q;
  }

  lemma {:induction false} NoSameTurn(n: nat, p: int, q: int, d: int)
    requires n > 0 && d == n * q - n * p
    ensures d <= 0 || d >= n
  {
    Blocks.MultipleIsFar(n, q - p);
    assert n * (q - p) == n * q - n * p;
  }

  class ConsensusState {
    const heightDatas: HeightData
    const signerIndex: nat
    var Height: int
    var Step: int
    var BlockHash: Hash
    /** The accepts this validator has signed, at all heights. */
    ghost var accepted: set<AcceptMsg>

    ghost function Node(): Node
      reads this`Step, this`BlockHash, heightDatas
    {
      HeightStates.Node(Step, BlockHash, heightDatas.InShard())
    }

    /** Each step is entered through its gate, with what the later steps will read. */
    ghost predicate Stepping()
      reads this`Step, heightDatas
    {
      && STEP_PROPOSE <= Step <= STEP_CROSS_SHARD_COMMIT
      && (Step >= STEP_PREVOTE ==> heightDatas.PassStep >= STEP_PROPOSE)
      && (Step >= STEP_PRECOMMIT ==> heightDatas.PassStep >= STEP_PREVOTE)
      && (Step >= STEP_CROSS_SHARD_ACCEPT ==> heightDatas.PassStep >= STEP_PRECOMMIT)
      && (Step >= STEP_CROSS_SHARD_COMMIT ==> heightDatas.PassStep >= STEP_CROSS_SHARD_ACCEPT)
      && (Step >= STEP_CROSS_SHARD_COMMIT && !heightDatas.info.isI ==> heightDatas.MyChainID in heightDatas.CrossShardCommits)
    }

    /** One accept per C-shard and height, and none at this height before the accept step is left. */
    ghost predicate AcceptsOnce()
      reads this`Height, this`Step, this`accepted
    {
      && (forall x, y :: x in accepted && y in accepted && x.upper == y.upper && x.height == y.height ==> x == y)
      && (forall x :: x in accepted ==> x.height < Height || (x.height == Height && Step >= STEP_CROSS_SHARD_COMMIT))
    }

    ghost predicate Valid()
      reads this, heightDatas, heightDatas.CrossShardAccepts.Values
    {
      && heightDatas.Valid() && Height == heightDatas.Height && signerIndex < |heightDatas.Votes()|
      && Stepping() && AcceptsOnce()
    }

    constructor (data: HeightData, signerIndex: nat)
      requires data.Valid() && data.InShard() == NewRound(|data.Votes()|, data.Height) && signerIndex < |data.Votes()|
      ensures Valid() && heightDatas == data && Node() == NewNode(|data.Votes()|, data.Height, []) && accepted == {}
    {
      heightDatas, this.signerIndex, Height, Step, BlockHash, accepted := data, signerIndex, data.Height, STEP_PROPOSE, [], {};
    }

    method Next()
      requires STEP_PROPOSE <= Step
      modifies this`Height, this`Step
      ensures if old(Step) == STEP_CROSS_SHARD_COMMIT then Height == old(Height) + 1 && Step == STEP_NEW_HEIGHT
              else Height == old(Height) && Step == old(Step) + 1
    {
      if Step == STEP_CROSS_SHARD_COMMIT {
        Height := Height + 1;
        Step := STEP_NEW_HEIGHT;
      } else {
        Step := Step + 1;
      }
    }

    // ----- in-shard steps -----

    /** Prevotes for the proposed block. */
    method DoPropose()
      requires Valid() && Step == STEP_PROPOSE && heightDatas.PassStep >= STEP_PROPOSE
      modifies this`Height, this`Step, this`BlockHash, heightDatas`Prevotes, heightDatas`PrevotesBitVector, heightDatas`PrevotesTotal
      ensures Valid() && Node() == Proposed(heightDatas.Votes(), signerIndex, old(heightDatas.InShard()))
    {
      hide HeightData.Passed;
      hide HeightData.Collected;
      hide BoxInv;
      hide Total;
      hide TwoThirds;
      var proposalBlock := heightDatas.CrossShardBlocks[heightDatas.MyChainID];
      BlockHash := Blocks.HashOf(heightDatas.hasher, proposalBlock);
      var r := heightDatas.AddPrevote(Ballot(Height, 0, BlockHash, signerIndex, CODE_OK, true));
      Next();
    }

    /** Precommits for the block it prevoted. */
    method DoPrevote()
      requires Valid() && Step == STEP_PREVOTE && heightDatas.PassStep >= STEP_PREVOTE
      modifies this`Height, this`Step, heightDatas`Precommits, heightDatas`PrecommitsBitVector, heightDatas`PrecommitsTotal
      ensures Valid() && Node() == Prevoted(heightDatas.Votes(), signerIndex, BlockHash, old(heightDatas.InShard()))
    {
      hide HeightData.Valid;
      var r := heightDatas.AddPrecommit(Ballot(Height, 0, BlockHash, signerIndex, CODE_OK, true));
      Next();
    }

    /** Keeps the shard's decided proposal; `header` is what it announces to the other shards. */
    method DoPrecommit(header: PartSets.PartSetHeader) returns (csp: CrossShardProposal)
      requires Valid() && Step == STEP_PRECOMMIT && heightDatas.PassStep >= STEP_PRECOMMIT && heightDatas.HeaderFits(header)
      modifies this`Height, this`Step, heightDatas`CrossShardProposals
      ensures Valid() && Node() == HeightStates.Node(STEP_CROSS_SHARD_ACCEPT, BlockHash, old(heightDatas.InShard()))
      ensures csp.header == header && heightDatas.Proposal.Some? && csp.hash == heightDatas.Proposal.value.hash
      ensures heightDatas.CrossShardProposals == old(heightDatas.CrossShardProposals)[heightDatas.MyChainID := csp]
      ensures |heightDatas.PrecommitsBitVector| == |heightDatas.Precommits|
      ensures JudgeProposal(heightDatas.info.layout, Height, csp)
              == if AllInFavour(heightDatas.Precommits, heightDatas.PrecommitsBitVector, |heightDatas.Precommits|) then CspAdded else CspUnsigned
    {
      hide HeightData.Valid;
      hide JudgeProposal;
      hide AllInFavour;
      csp := heightDatas.FinishPrecommits(header);
      Next();
    }

    // ----- cross-shard steps -----

    /**
     * An I-shard validator accepts every related C-shard's block, with the status its application
     * voted for it. Each accepted block is one its shard decided, and no accept was signed before.
     */
    method DoCSA(shards: seq<string>, votes: seq<Status>) returns (accepts: seq<CrossShardAccept>)
      requires Valid() && heightDatas.info.isI && Step == STEP_CROSS_SHARD_ACCEPT && heightDatas.PassStep >= STEP_CROSS_SHARD_ACCEPT
      requires Elements(shards) == heightDatas.info.related && |shards| == |votes| && NoRepeats(shards)
      modifies this`Height, this`Step, this`accepted
      ensures Valid() && Node() == old(Node()).(step := STEP_CROSS_SHARD_COMMIT)
      ensures |accepts| == |shards| && forall i :: 0 <= i < |shards| ==> shards[i] in heightDatas.CrossShardProposals
      ensures forall i :: 0 <= i < |shards| ==>
                accepts[i].msg == AcceptMsg(VOTE_TYPE_ACCEPT, shards[i], heightDatas.MyChainID, Height,
                                            heightDatas.CrossShardProposals[shards[i]].hash, votes[i])
      ensures forall i :: 0 <= i < |shards| ==>
                accepts[i].validatorIndex == signerIndex && accepts[i].signature == Signature(heightDatas.MyChainID, signerIndex, accepts[i].msg)
      ensures forall i :: 0 <= i < |shards| ==> accepts[i].msg in accepted && accepts[i].msg !in old(accepted)
    {
      hide HeightData.Valid;
      accepts := SignAccepts(shards, votes);
      Next();
    }

    method SignAccepts(shards: seq<string>, votes: seq<Status>) returns (accepts: seq<CrossShardAccept>)
      requires Valid() && heightDatas.info.isI && Step == STEP_CROSS_SHARD_ACCEPT && heightDatas.PassStep >= STEP_CROSS_SHARD_ACCEPT
      requires Elements(shards) == heightDatas.info.related && |shards| == |votes| && NoRepeats(shards)
      modifies this`accepted
      ensures |accepts| == |shards| && forall i :: 0 <= i < |shards| ==> shards[i] in heightDatas.CrossShardProposals
      ensures forall i :: 0 <= i < |shards| ==>
                accepts[i].msg == AcceptMsg(VOTE_TYPE_ACCEPT, shards[i], heightDatas.MyChainID, Height,
                                            heightDatas.CrossShardProposals[shards[i]].hash, votes[i])
      ensures forall i :: 0 <= i < |shards| ==>
                accepts[i].validatorIndex == signerIndex && accepts[i].signature == Signature(heightDatas.MyChainID, signerIndex, accepts[i].msg)
      ensures forall i :: 0 <= i < |shards| ==> accepts[i].msg in accepted && accepts[i].msg !in old(accepted)
      ensures forall x :: x in accepted ==> x in old(accepted) || x.height == Height
      ensures forall x, y :: x in accepted && y in accepted && x.upper == y.upper && x.height == y.height ==> x == y
    {
      hide Blocks.HashOf;
      hide HeightData.Valid;
      accepts := [];
      for i := 0 to |shards|
        invariant |accepts| == i && forall j :: 0 <= j < i ==> shards[j] in heightDatas.CrossShardProposals
        invariant forall j :: 0 <= j < i ==>
                    accepts[j].msg == AcceptMsg(VOTE_TYPE_ACCEPT, shards[j], heightDatas.MyChainID, Height,
                                                heightDatas.CrossShardProposals[shards[j]].hash, votes[j])
        invariant forall j :: 0 <= j < i ==>
                    accepts[j].validatorIndex == signerIndex && accepts[j].signature == Signature(heightDatas.MyChainID, signerIndex, accepts[j].msg)
        invariant forall j :: 0 <= j < i ==> accepts[j].msg in accepted && accepts[j].msg !in old(accepted)
        invariant forall x :: x in accepted ==> x in old(accepted) || (x.height == Height && x.upper in shards[..i])
        invariant forall x, y :: x in accepted && y in accepted && x.upper == y.upper && x.height == y.height ==> x == y
      {
        assert shards[i] in Elements(shards);
        heightDatas.RelatedBlock(shards[i]);
        var block := heightDatas.CrossShardBlocks[shards[i]];
        var msg := AcceptMsg(VOTE_TYPE_ACCEPT, shards[i], heightDatas.MyChainID, Height, Blocks.HashOf(heightDatas.hasher, block), votes[i]);
        accepts := accepts + [CrossShardAccept(msg, Signature(heightDatas.MyChainID, signerIndex, msg), signerIndex)];
        accepted := accepted + {msg};
      }
    }

    /** The C-shard makes its certificate. */
    method DoCSP() returns (csc: CrossShardCommit)
      requires Valid() && !heightDatas.info.isI && Step == STEP_CROSS_SHARD_ACCEPT && heightDatas.PassStep >= STEP_CROSS_SHARD_PROPOSE
      modifies this`Height, this`Step, heightDatas`CrossShardCommits
      ensures Valid() && Node() == old(Node()).(step := STEP_CROSS_SHARD_COMMIT)
      ensures heightDatas.CrossShardCommits == old(heightDatas.CrossShardCommits)[heightDatas.MyChainID := csc]
      ensures heightDatas.Proposal.Some? && csc.upper == heightDatas.MyChainID && csc.height == Height && csc.hash == heightDatas.Proposal.value.hash
      ensures csc.Long() && csc.chains == RelatedOf(heightDatas.info.layout, heightDatas.MyChainID)
      ensures forall i :: 0 <= i < |csc.chains| ==>
                heightDatas.Gathered(csc.chains[i], csc.statuses[i], csc.bits[i], csc.aggregates[i])
      ensures Certified(heightDatas.info.layout, csc)
              <==> forall i :: 0 <= i < |csc.chains| ==> heightDatas.AllFor(csc.chains[i], AcceptOf(csc, i))
    {
      hide HeightData.Valid;
      hide HeightData.Gathered;
      hide HeightData.AllFor;
      hide Certified;
      csc := heightDatas.Certify();
      Next();
    }

    /** The vector of one certificate, as bytes; no vector is written as the empty one. */
    method CommitVector(csc: CrossShardCommit) returns (ok: bool, v: BitVectors.Bytes)
      ensures ok <==> Rounds.Readable(csc.statuses)
      ensures ok ==> BitVectors.Decodable(v) && BitVectors.DecodedBits(v) == Rounds.Combined(csc.statuses)
    {
      hide Rounds.Readable;
      hide Rounds.Combined;
      var total;
      ok, total := Rounds.CombineStatuses(csc.statuses);
      if !ok {
        return false, [];
      }
      if total == null {
        total := new BitVectors.BitVector(0);
      }
      v := total.Byte();
    }

    /** Reads the blocks and the certificates to execute; none of them is missing, but a status may not decode. */
    method ExecutionAllBlocks(cNeighbours: seq<string>, iNeighbours: seq<string>) returns (e: Executed)
      requires Elements(cNeighbours) <= heightDatas.CrossShardBlocks.Keys * heightDatas.CrossShardCommits.Keys
      requires Elements(iNeighbours) <= heightDatas.CrossShardBlocks.Keys
      ensures e == Unreadable <==> !AllReadable(heightDatas.CrossShardCommits, cNeighbours)
      ensures e != Unreadable ==> Reads(heightDatas.CrossShardBlocks, heightDatas.CrossShardCommits, cNeighbours, iNeighbours, e) && e.Executed?
    {
      hide Rounds.Readable;
      hide Rounds.Combined;
      hide BitVectors.Decodable;
      hide BitVectors.DecodedBits;
      var blocks, vectors, inner := [], [], [];
      for i := 0 to |cNeighbours|
        invariant |blocks| == |vectors| == i
        invariant forall j :: 0 <= j < i ==>
                    BlockAt(heightDatas.CrossShardBlocks, blocks[j], cNeighbours[j])
                    && VectorAt(heightDatas.CrossShardCommits, vectors[j], cNeighbours[j])
      {
        assert cNeighbours[i] in Elements(cNeighbours);
        var block, csc := heightDatas.CrossShardBlocks[cNeighbours[i]], heightDatas.CrossShardCommits[cNeighbours[i]];
        var ok, v := CommitVector(csc);
        if !ok {
          return Unreadable;
        }
        blocks, vectors := blocks + [block], vectors + [v];
      }
      assert AllReadable(heightDatas.CrossShardCommits, cNeighbours) by {
        assert forall j :: 0 <= j < |cNeighbours| ==> VectorAt(heightDatas.CrossShardCommits, vectors[j], cNeighbours[j]);
      }
      for i := 0 to |iNeighbours|
        invariant |inner| == i
        invariant forall j :: 0 <= j < i ==> BlockAt(heightDatas.CrossShardBlocks, inner[j], iNeighbours[j])
      {
        assert iNeighbours[i] in Elements(iNeighbours);
        inner := inner + [heightDatas.CrossShardBlocks[iNeighbours[i]]];
      }
      e := Executed(blocks, vectors, inner);
    }

    /**
     * Executes an I-shard's height, with the blocks and certificates of all its C-shards, and enters
     * the next, unless a status of one of them does not decode.
     */
    method DoCSC_I() returns (e: Executed, cNeighbours: seq<string>, iNeighbours: seq<string>)
      requires Valid() && heightDatas.info.isI && Step == STEP_CROSS_SHARD_COMMIT && heightDatas.PassStep >= STEP_CROSS_SHARD_COMMIT
      modifies this`Height, this`Step, this`BlockHash, heightDatas
      ensures Valid() && (e.Executed? ==> fresh(heightDatas.CrossShardAccepts.Values))
      ensures NoRepeats(cNeighbours) && Elements(cNeighbours) == heightDatas.info.related && iNeighbours == [heightDatas.MyChainID]
      ensures old(heightDatas.OwnBlock()).Some? && Elements(cNeighbours) <= old(heightDatas.CrossShardCommits).Keys
      ensures e == Unreadable <==> !AllReadable(old(heightDatas.CrossShardCommits), cNeighbours)
      ensures e == Unreadable ==> unchanged(this) && unchanged(heightDatas)
      ensures e != Unreadable ==> Reads(old(heightDatas.CrossShardBlocks), old(heightDatas.CrossShardCommits), cNeighbours, iNeighbours, e)
      ensures e != Unreadable ==> e.Executed? && Node() == NewNode(|heightDatas.Votes()|, old(Height) + 1, old(heightDatas.OwnBlock()).value)
    {
      hide HeightData.Valid;
      hide Blocks.HashOf;
      hide Reads;
      hide AllReadable;
      ReadyI();
      cNeighbours := ListOf(heightDatas.info.related);
      iNeighbours := [heightDatas.MyChainID];
      e := ExecutionAllBlocks(cNeighbours, iNeighbours);
      if e == Unreadable {
        return;
      }
      BlockHash := Blocks.HashOf(heightDatas.hasher, heightDatas.CrossShardBlocks[heightDatas.MyChainID]);
      EnterNewHeight();
    }

    /** The same for a C-shard, with its own and its second-level neighbours' cross-shard parts and its I-shards' blocks. */
    method DoCSC_C() returns (e: Executed, cNeighbours: seq<string>, iNeighbours: seq<string>)
      requires Valid() && !heightDatas.info.isI && Step == STEP_CROSS_SHARD_COMMIT && heightDatas.CommitGateC()
      modifies this`Height, this`Step, this`BlockHash, heightDatas
      ensures Valid() && (e.Executed? ==> fresh(heightDatas.CrossShardAccepts.Values))
      ensures NoRepeats(cNeighbours) && Elements(cNeighbours) == heightDatas.info.related2 + {heightDatas.MyChainID}
      ensures NoRepeats(iNeighbours) && Elements(iNeighbours) == heightDatas.info.related + {heightDatas.MyChainID}
      ensures old(heightDatas.OwnBlock()).Some? && Elements(cNeighbours) <= old(heightDatas.CrossShardCommits).Keys
      ensures e == Unreadable <==> !AllReadable(old(heightDatas.CrossShardCommits), cNeighbours)
      ensures e == Unreadable ==> unchanged(this) && unchanged(heightDatas)
      ensures e != Unreadable ==> Reads(old(heightDatas.CrossShardBlocks), old(heightDatas.CrossShardCommits), cNeighbours, iNeighbours, e)
      ensures e != Unreadable ==> e.Executed? && Node() == NewNode(|heightDatas.Votes()|, old(Height) + 1, old(heightDatas.OwnBlock()).value)
    {
      hide HeightData.Valid;
      hide HeightData.CommitGateC;
      hide Blocks.HashOf;
      hide NoRepeats;
      hide Elements;
      hide Reads;
      hide AllReadable;
      hide AcceptsOnce;
      ReadyC();
      NotOwnNeighbour();
      cNeighbours := WithMe(heightDatas.MyChainID, heightDatas.info.related2);
      iNeighbours := WithMe(heightDatas.MyChainID, heightDatas.info.related);
      e := ExecutionAllBlocks(cNeighbours, iNeighbours);
      if e == Unreadable {
        return;
      }
      BlockHash := Blocks.HashOf(heightDatas.hasher, heightDatas.CrossShardBlocks[heightDatas.MyChainID]);
      EnterNewHeight();
    }

    lemma {:induction false} ReadyI()
      requires Valid() && heightDatas.info.isI && Step == STEP_CROSS_SHARD_COMMIT && heightDatas.PassStep >= STEP_CROSS_SHARD_COMMIT
      ensures heightDatas.info.related <= heightDatas.CrossShardBlocks.Keys * heightDatas.CrossShardCommits.Keys
      ensures heightDatas.MyChainID in heightDatas.CrossShardBlocks
    {
      hide HeightData.Voting;
      hide HeightData.Collected;
      heightDatas.OwnBlockHeld();
    }

    lemma {:induction false} ReadyC()
      requires Valid() && !heightDatas.info.isI && Step == STEP_CROSS_SHARD_COMMIT && heightDatas.CommitGateC()
      ensures heightDatas.info.related2 + {heightDatas.MyChainID} <= heightDatas.CrossShardBlocks.Keys * heightDatas.CrossShardCommits.Keys
      ensures heightDatas.info.related + {heightDatas.MyChainID} <= heightDatas.CrossShardBlocks.Keys
    {
      hide HeightData.Voting;
      hide HeightData.Collected;
      heightDatas.OwnBlockHeld();
    }

    lemma {:induction false} NotOwnNeighbour()
      requires Valid()
      ensures heightDatas.MyChainID !in heightDatas.info.related && heightDatas.MyChainID !in heightDatas.info.related2
    {
      hide HeightData.Voting;
      hide HeightData.Passed;
      hide HeightData.Collecting;
    }

    method EnterNewHeight()
      requires Valid() && Step == STEP_CROSS_SHARD_COMMIT
      modifies this`Height, this`Step, heightDatas
      ensures Valid() && fresh(heightDatas.CrossShardAccepts.Values)
      ensures Node() == NewNode(|heightDatas.Votes()|, old(Height) + 1, BlockHash)
    {
      hide HeightData.Valid;
      Next();
      heightDatas.NextHeight();
      Step := STEP_PROPOSE;
    }

    // ----- the transition loop -----

    method TryPropose() returns (moved: bool)
      requires Valid() && Step == STEP_PROPOSE
      modifies this`Height, this`Step, this`BlockHash, heightDatas`PassStep,
               heightDatas`Prevotes, heightDatas`PrevotesBitVector, heightDatas`PrevotesTotal
      ensures Valid() && Node() == Advanced(heightDatas.Votes(), signerIndex, old(Node())) && (moved <==> Step == STEP_PREVOTE)
      ensures Height == old(Height) && (!moved ==> Step == old(Step))
    {
      hide HeightData.Passed;
      hide HeightData.Collected;
      hide BoxInv;
      hide Total;
      hide TwoThirds;
      moved := heightDatas.FinishProposal();
      if moved {
        DoPropose();
      }
    }

    method TryPrevote() returns (moved: bool)
      requires Valid() && Step == STEP_PREVOTE
      modifies this`Height, this`Step, heightDatas`PassStep, heightDatas`Precommits, heightDatas`PrecommitsBitVector, heightDatas`PrecommitsTotal
      ensures Valid() && Node() == Advanced(heightDatas.Votes(), signerIndex, old(Node())) && (moved <==> Step == STEP_PRECOMMIT)
      ensures Height == old(Height) && (!moved ==> Step == old(Step))
    {
      hide HeightData.Passed;
      hide HeightData.Collected;
      hide BoxInv;
      hide Total;
      hide TwoThirds;
      moved := heightDatas.FinishPrevote();
      if moved {
        DoPrevote();
      }
    }

    method TryPrecommit(header: PartSets.PartSetHeader) returns (moved: bool)
      requires Valid() && Step == STEP_PRECOMMIT && heightDatas.HeaderFits(header)
      modifies this`Height, this`Step, heightDatas`PassStep, heightDatas`CrossShardProposals
      ensures Valid() && Node() == Advanced(heightDatas.Votes(), signerIndex, old(Node())) && (moved <==> Step == STEP_CROSS_SHARD_ACCEPT)
      ensures Height == old(Height) && (!moved ==> Step == old(Step))
      ensures moved ==>
                && heightDatas.MyChainID in heightDatas.CrossShardProposals && heightDatas.Proposal.Some?
                && var csp := heightDatas.CrossShardProposals[heightDatas.MyChainID];
                   && csp.header == header && csp.hash == heightDatas.Proposal.value.hash
                   && heightDatas.CrossShardProposals == old(heightDatas.CrossShardProposals)[heightDatas.MyChainID := csp]
      ensures !moved ==> heightDatas.CrossShardProposals == old(heightDatas.CrossShardProposals)
    {
      hide HeightData.Passed;
      hide HeightData.Collected;
      hide BoxInv;
      hide Total;
      hide TwoThirds;
      moved := heightDatas.FinishPrecommit();
      if moved {
        var csp := DoPrecommit(header);
      }
    }

    /** The accept step: an I-shard signs its accepts, a C-shard makes its certificate. */
    method TryAccept(votes: map<string, Status>) returns (moved: bool)
      requires Valid() && Step == STEP_CROSS_SHARD_ACCEPT && heightDatas.info.related <= votes.Keys
      modifies this`Height, this`Step, this`accepted, heightDatas`PassStep, heightDatas`CrossShardCommits
      ensures Valid() && (if moved then Node() == Gone(old(Node())) else Node() == old(Node()))
      ensures Height == old(Height) && (moved ==> heightDatas.PassStep >= STEP_CROSS_SHARD_ACCEPT)
      ensures moved <==> if heightDatas.info.isI then old(heightDatas.PassAccept(heightDatas.InShard())).passStep >= STEP_CROSS_SHARD_ACCEPT
                         else old(heightDatas.PassCertify(heightDatas.InShard())).passStep >= STEP_CROSS_SHARD_PROPOSE
      ensures moved && heightDatas.info.isI ==>
                forall c :: c in heightDatas.info.related ==>
                  && c in heightDatas.CrossShardProposals
                  && AcceptMsg(VOTE_TYPE_ACCEPT, c, heightDatas.MyChainID, Height, heightDatas.CrossShardProposals[c].hash, votes[c]) in accepted
      ensures moved && !heightDatas.info.isI ==>
                && heightDatas.Proposal.Some? && heightDatas.MyChainID in heightDatas.CrossShardCommits
                && heightDatas.CrossShardCommits[heightDatas.MyChainID].hash == heightDatas.Proposal.value.hash
      ensures !moved || !heightDatas.info.isI ==> accepted == old(accepted)
      ensures !moved || heightDatas.info.isI ==> heightDatas.CrossShardCommits == old(heightDatas.CrossShardCommits)
    {
      hide HeightData.Valid;
      if heightDatas.info.isI {
        moved := heightDatas.FinishCrossShardAccept();
        if moved {
          var shards := ListOf(heightDatas.info.related);
          assert forall i :: 0 <= i < |shards| ==> shards[i] in Elements(shards);
          var accepts := DoCSA(shards, seq(|shards|, i requires 0 <= i < |shards| => votes[shards[i]]));
        }
      } else {
        moved := heightDatas.FinishCrossShardProposal();
        if moved {
          var csc := DoCSP();
        }
      }
    }

    /** The node past its accept step. */
    ghost function Gone(n: Node): Node {
      n.(step := STEP_CROSS_SHARD_COMMIT, round := n.round.(passStep := if n.round.passStep < STEP_CROSS_SHARD_ACCEPT then STEP_CROSS_SHARD_ACCEPT else n.round.passStep))
    }

    /** The node past its last gate, when a status does not decode. */
    ghost function Stuck(n: Node): Node
      reads this, heightDatas
    {
      n.(round := n.round.(passStep := heightDatas.PassStep))
    }

    lemma {:induction false} SomeUnreadable(list: seq<string>)
      requires !AllReadable(heightDatas.CrossShardCommits, list) && Elements(list) <= heightDatas.CrossShardCommits.Keys
      ensures exists c :: c in Elements(list) && c in heightDatas.CrossShardCommits && !Rounds.Readable(heightDatas.CrossShardCommits[c].statuses)
    {
      var i :| 0 <= i < |list| && !(list[i] in heightDatas.CrossShardCommits && Rounds.Readable(heightDatas.CrossShardCommits[list[i]].statuses));
      assert list[i] in Elements(list);
    }

    method TryCommitI() returns (moved: bool, e: Executed, ghost cList: seq<string>, ghost iList: seq<string>)
      requires Valid() && Step == STEP_CROSS_SHARD_COMMIT && heightDatas.info.isI
      modifies this`Height, this`Step, this`BlockHash, heightDatas
      ensures Valid() && (moved <==> e.Executed?)
      ensures e != Nothing <==> old(heightDatas.PassCommitI(heightDatas.InShard())).passStep >= STEP_CROSS_SHARD_COMMIT
      ensures e != Nothing ==> NoRepeats(cList) && Elements(cList) == heightDatas.info.related
      ensures e != Nothing ==> NoRepeats(iList) && Elements(iList) == {heightDatas.MyChainID}
      ensures e.Executed? ==> Reads(old(heightDatas.CrossShardBlocks), old(heightDatas.CrossShardCommits), cList, iList, e)
      ensures e == Unreadable ==> !moved && exists c :: c in Elements(cList) && c in heightDatas.CrossShardCommits && !Rounds.Readable(heightDatas.CrossShardCommits[c].statuses)
      ensures moved ==> old(heightDatas.OwnBlock()).Some?
      ensures moved ==> Node() == NewNode(|heightDatas.Votes()|, old(Height) + 1, old(heightDatas.OwnBlock()).value)
      ensures e == Nothing ==> Node() == old(Node())
      ensures e == Unreadable ==> Node() == Stuck(old(Node())) && heightDatas.PassStep >= old(heightDatas.PassStep)
      ensures !moved ==> heightDatas.CrossShardAccepts == old(heightDatas.CrossShardAccepts)
      ensures moved ==> fresh(heightDatas.CrossShardAccepts.Values)
    {
      hide Blocks.HashOf;
      hide HeightData.Valid;
      hide AllReadable;
      hide Reads;
      hide Rounds.Readable;
      hide AcceptsOnce;
      e, cList, iList := Nothing, [], [];
      moved := heightDatas.FinishCrossShardCommit_I();
      if moved {
        e, cList, iList := DoCSC_I();
        moved := e.Executed?;
        assert iList == [heightDatas.MyChainID] && Elements(iList) == {heightDatas.MyChainID};
        if !moved {
          SomeUnreadable(cList);
        }
      }
    }

    method TryCommitC() returns (moved: bool, e: Executed, ghost cList: seq<string>, ghost iList: seq<string>)
      requires Valid() && Step == STEP_CROSS_SHARD_COMMIT && !heightDatas.info.isI
      modifies this`Height, this`Step, this`BlockHash, heightDatas
      ensures Valid() && (moved <==> e.Executed?)
      ensures e != Nothing <==> old(heightDatas.PassCertify(heightDatas.InShard())).passStep >= STEP_CROSS_SHARD_PROPOSE && old(heightDatas.CommitGateC())
      ensures e != Nothing ==> NoRepeats(cList) && Elements(cList) == heightDatas.info.related2 + {heightDatas.MyChainID}
      ensures e != Nothing ==> NoRepeats(iList) && Elements(iList) == heightDatas.info.related + {heightDatas.MyChainID}
      ensures e.Executed? ==> Reads(old(heightDatas.CrossShardBlocks), old(heightDatas.CrossShardCommits), cList, iList, e)
      ensures e == Unreadable ==> !moved && exists c :: c in Elements(cList) && c in heightDatas.CrossShardCommits && !Rounds.Readable(heightDatas.CrossShardCommits[c].statuses)
      ensures moved ==> old(heightDatas.OwnBlock()).Some?
      ensures moved ==> Node() == NewNode(|heightDatas.Votes()|, old(Height) + 1, old(heightDatas.OwnBlock()).value)
      ensures e == Nothing ==> Node() == old(Node())
      ensures e == Unreadable ==> Node() == Stuck(old(Node())) && heightDatas.PassStep >= old(heightDatas.PassStep)
      ensures !moved ==> heightDatas.CrossShardAccepts == old(heightDatas.CrossShardAccepts)
      ensures moved ==> fresh(heightDatas.CrossShardAccepts.Values)
    {
      hide Blocks.HashOf;
      hide HeightData.Valid;
      hide AllReadable;
      hide Reads;
      hide Rounds.Readable;
      hide AcceptsOnce;
      e, cList, iList := Nothing, [], [];
      moved := heightDatas.FinishCrossShardCommit_B();
      if moved {
        e, cList, iList := DoCSC_C();
        moved := e.Executed?;
        if !moved {
          SomeUnreadable(cList);
        }
      }
    }

    /** The commit step: the height is executed, or the node stays. */
    method TryCommit() returns (moved: bool, e: Executed, ghost cList: seq<string>, ghost iList: seq<string>)
      requires Valid() && Step == STEP_CROSS_SHARD_COMMIT
      modifies this`Height, this`Step, this`BlockHash, heightDatas
      ensures Valid() && (moved <==> e.Executed?)
      ensures e != Nothing <==> if heightDatas.info.isI then old(heightDatas.PassCommitI(heightDatas.InShard())).passStep >= STEP_CROSS_SHARD_COMMIT
                                else old(heightDatas.PassCertify(heightDatas.InShard())).passStep >= STEP_CROSS_SHARD_PROPOSE && old(heightDatas.CommitGateC())
      ensures e != Nothing ==>
                && NoRepeats(cList) && Elements(cList) == (if heightDatas.info.isI then heightDatas.info.related else heightDatas.info.related2 + {heightDatas.MyChainID})
                && NoRepeats(iList) && Elements(iList) == (if heightDatas.info.isI then {} else heightDatas.info.related) + {heightDatas.MyChainID}
      ensures e.Executed? ==> Reads(old(heightDatas.CrossShardBlocks), old(heightDatas.CrossShardCommits), cList, iList, e)
      ensures e == Unreadable ==> !moved && exists c :: c in Elements(cList) && c in heightDatas.CrossShardCommits && !Rounds.Readable(heightDatas.CrossShardCommits[c].statuses)
      ensures moved ==> old(heightDatas.OwnBlock()).Some?
      ensures moved ==> Node() == NewNode(|heightDatas.Votes()|, old(Height) + 1, old(heightDatas.OwnBlock()).value)
      ensures e == Nothing ==> Node() == old(Node())
      ensures e == Unreadable ==> Node() == Stuck(old(Node())) && heightDatas.PassStep >= old(heightDatas.PassStep)
      ensures !moved ==> heightDatas.CrossShardAccepts == old(heightDatas.CrossShardAccepts)
      ensures moved ==> fresh(heightDatas.CrossShardAccepts.Values)
    {
      hide HeightData.Valid;
      hide Valid;
      hide Node;
      hide Stuck;
      hide Rounds.Readable;
      if heightDatas.info.isI {
        moved, e, cList, iList := TryCommitI();
      } else {
        moved, e, cList, iList := TryCommitC();
      }
    }

    lemma {:induction false} IsShaped()
      requires Valid()
      ensures InShard.NodeShaped(heightDatas.Votes(), Node())
      ensures Step >= STEP_CROSS_SHARD_ACCEPT ==> Node().round.passStep >= STEP_PRECOMMIT
    {
      hide HeightData.Passed;
      hide HeightData.Collected;
      hide Weight;
      hide Total;
      hide TwoThirds;
    }

    /**
     * One turn of the transition loop is one action of an honest node in the runs for which
     * agreement is proved, whatever the step, and it keeps every invariant. If a status of a held
     * certificate does not decode, the source fails in the commit step: nothing is executed.
     */
    method HandleStateTransition(header: PartSets.PartSetHeader, votes: map<string, Status>)
      returns (moved: bool, executed: Executed, ghost event: Event, ghost cList: seq<string>, ghost iList: seq<string>)
      requires Valid() && heightDatas.HeaderFits(header) && heightDatas.info.related <= votes.Keys
      modifies this, heightDatas
      ensures Valid() && (heightDatas.CrossShardAccepts == old(heightDatas.CrossShardAccepts) || fresh(heightDatas.CrossShardAccepts.Values))
      ensures InShard.NodeShaped(heightDatas.Votes(), old(Node()))
      ensures Node() == InShard.NodeAfter(heightDatas.Votes(), signerIndex, old(Node()), event)
      ensures event.Advance? || InShard.IsLater(old(Node()), event) || (event.FinishHeight? && old(Step) >= STEP_CROSS_SHARD_ACCEPT)
      ensures executed.Executed? <==> event.FinishHeight?
      ensures old(Step) < STEP_CROSS_SHARD_ACCEPT ==> event == Advance && executed == Nothing && (moved <==> Step == old(Step) + 1)
      ensures old(Step) == STEP_PRECOMMIT && moved ==>
                && heightDatas.MyChainID in heightDatas.CrossShardProposals && heightDatas.Proposal.Some?
                && heightDatas.CrossShardProposals[heightDatas.MyChainID].header == header
                && heightDatas.CrossShardProposals[heightDatas.MyChainID].hash == heightDatas.Proposal.value.hash
      ensures old(Step) == STEP_CROSS_SHARD_ACCEPT && moved && heightDatas.info.isI ==>
                forall c :: c in heightDatas.info.related ==>
                  && c in heightDatas.CrossShardProposals
                  && AcceptMsg(VOTE_TYPE_ACCEPT, c, heightDatas.MyChainID, Height, heightDatas.CrossShardProposals[c].hash, votes[c]) in accepted
      ensures old(Step) == STEP_CROSS_SHARD_ACCEPT ==>
                executed == Nothing && (moved <==> Step == STEP_CROSS_SHARD_COMMIT)
                && (moved <==> if heightDatas.info.isI then old(heightDatas.PassAccept(heightDatas.InShard())).passStep >= STEP_CROSS_SHARD_ACCEPT
                               else old(heightDatas.PassCertify(heightDatas.InShard())).passStep >= STEP_CROSS_SHARD_PROPOSE)
      ensures old(Step) == STEP_CROSS_SHARD_COMMIT ==> (executed != Nothing <==> if heightDatas.info.isI then old(heightDatas.PassCommitI(heightDatas.InShard())).passStep >= STEP_CROSS_SHARD_COMMIT
                                else old(heightDatas.PassCertify(heightDatas.InShard())).passStep >= STEP_CROSS_SHARD_PROPOSE && old(heightDatas.CommitGateC()))
      ensures executed != Nothing ==>
                && NoRepeats(cList) && Elements(cList) == (if heightDatas.info.isI then heightDatas.info.related else heightDatas.info.related2 + {heightDatas.MyChainID})
                && NoRepeats(iList) && Elements(iList) == (if heightDatas.info.isI then {} else heightDatas.info.related) + {heightDatas.MyChainID}
      ensures executed.Executed? ==> Reads(old(heightDatas.CrossShardBlocks), old(heightDatas.CrossShardCommits), cList, iList, executed)
      ensures executed == Unreadable ==>
                exists c :: c in Elements(cList) && c in heightDatas.CrossShardCommits && !Rounds.Readable(heightDatas.CrossShardCommits[c].statuses)
    {
      hide Blocks.HashOf;
      hide HeightData.Valid;
      hide PassProposal;
      hide PassPrevote;
      hide PassPrecommit;
      hide HeightData.PassAccept;
      hide HeightData.PassCertify;
      hide HeightData.PassCommitI;
      hide HeightData.CommitGateC;
      hide Reads;
      hide Rounds.Readable;
      hide NoRepeats;
      hide Elements;
      hide AcceptsOnce;
      IsShaped();
      executed, event, cList, iList := Nothing, Advance, [], [];
      ghost var before := Node();
      if Step == STEP_PROPOSE {
        moved := TryPropose();
      } else if Step == STEP_PREVOTE {
        moved := TryPrevote();
      } else if Step == STEP_PRECOMMIT {
        moved := TryPrecommit(header);
      } else if Step == STEP_CROSS_SHARD_ACCEPT {
        moved := TryAccept(votes);
        event := if moved then Later(STEP_CROSS_SHARD_COMMIT, Node().round.passStep) else Advance;
      } else {
        moved, executed, cList, iList := TryCommit();
        event := if moved then FinishHeight(BlockHash) else if executed == Unreadable then Later(Step, heightDatas.PassStep) else Advance;
      }
    }

    // ----- messages -----

    function CalculateProposer(): int
      reads this`Height
      requires |heightDatas.Votes()| > 0
    {
      ProposerOf(|heightDatas.Votes()|, Height)
    }

    /** The proposer makes its own proposal as it enters a height. */
    method CreateBlock(p: Proposal, slots: Slots, block: Blocks.Block)
      requires Valid() && Node() == NewNode(|heightDatas.Votes()|, Height, BlockHash)
      requires heightDatas.HeaderFits(p.header) && SlotsOk(heightDatas.hasher, slots) && slots.header == p.header
      requires p.hash == slots.hash == Blocks.HashOf(heightDatas.hasher, block)
      requires block.header.chainID == heightDatas.MyChainID && block.header.height == Height
      modifies heightDatas`Proposal, heightDatas`CrossShardPartSets, heightDatas`CrossShardBlocks
      ensures Valid() && InShard.NodeShaped(heightDatas.Votes(), old(Node()))
      ensures Node() == InShard.NodeAfter(heightDatas.Votes(), signerIndex, old(Node()), MadeProposal(p.hash))
      ensures heightDatas.Proposal == Some(p)
      ensures heightDatas.CrossShardPartSets == old(heightDatas.CrossShardPartSets)[heightDatas.MyChainID := slots]
      ensures heightDatas.CrossShardBlocks == old(heightDatas.CrossShardBlocks)[heightDatas.MyChainID := block]
    {
      hide HeightData.Valid;
      hide SlotsOk;
      hide AcceptsOnce;
      IsShaped();
      heightDatas.Propose(p, slots, block);
    }

    /** A validator whose signatures all come from here never equivocates. */
    lemma {:induction false} NeverEquivocates(signed: iset<Signature<AcceptMsg>>, upper: string, height: int)
      requires Valid()
      requires forall x :: Signature(heightDatas.MyChainID, signerIndex, x) in signed ==> x in accepted
      ensures !Equivocates(signed, heightDatas.MyChainID, upper, height, signerIndex)
    {
      hide HeightData.Valid;
    }

    method DoAccept(csa: CrossShardAccept)
      requires Valid()
      modifies heightDatas`CrossShardAcceptFinishCounter, heightDatas.CrossShardAccepts.Values
      ensures Valid() && Node() == old(Node())
      ensures forall c :: c in heightDatas.CrossShardAccepts ==>
                heightDatas.CrossShardAccepts[c].rec
                == if old(heightDatas.Counts(csa)) && c == csa.msg.chain
                   then old(heightDatas.CrossShardAccepts[c].rec)[csa.validatorIndex := Some(csa.msg.status)]
                   else old(heightDatas.CrossShardAccepts[c].rec)
    {
      hide HeightData.Valid;
      hide HeightData.Decided;
      hide HeightData.JudgeAccept;
      hide HeightData.InShard;
      hide AcceptsOnce;
      var r := heightDatas.AddCrossShardAccept(csa);
    }

    method DoCommit(csc: CrossShardCommit) returns (fails: bool)
      requires Valid()
      modifies heightDatas`CrossShardCommits
      ensures Valid() && Node() == old(Node()) && fails == (old(heightDatas.JudgeCommit(csc)) == ShortList)
      ensures heightDatas.CrossShardCommits
              == if && csc.height == heightDatas.Height && csc.upper !in old(heightDatas.CrossShardCommits)
                    && csc.upper in heightDatas.info.related + heightDatas.info.related2 && Certified(heightDatas.info.layout, csc)
                 then old(heightDatas.CrossShardCommits)[csc.upper := csc] else old(heightDatas.CrossShardCommits)
    {
      hide HeightData.Valid;
      hide HeightData.JudgeCommit;
      hide HeightData.InShard;
      hide Certified;
      hide AcceptsOnce;
      var r := heightDatas.AddCrossShardCommit(csc);
      fails := r == ShortList;
    }

    /** A part of a block is an event if it completes the own one. */
    method DoPart(p: PartSets.Part) returns (ghost event: Event)
      requires Valid() && MerkleProof.ValidateBasic(p.proof) == MerkleProof.Passed
      modifies heightDatas
      ensures Valid() && heightDatas.CrossShardAccepts == old(heightDatas.CrossShardAccepts)
      ensures InShard.NodeShaped(heightDatas.Votes(), old(Node())) && event.GotBlock?
      ensures heightDatas.Assembled() == Take(heightDatas.hasher, heightDatas.decode, Height, old(heightDatas.Assembled()), p)
      ensures Node() == old(Node()) || Node() == InShard.NodeAfter(heightDatas.Votes(), signerIndex, old(Node()), event)
    {
      hide Blocks.HashOf;
      hide HeightData.AcceptGate;
      hide HeightData.CommitGateI;
      hide HeightData.AllDecided;
      hide HeightData.Judgement;
      hide JudgeVote;
      hide Announced;
      hide Take;
      hide Welcome;
      hide AddBallot;
      hide Recount;
      hide AcceptsOnce;
      hide HeightData.InShard;
      hide TakeProposal;
      hide TakePrevote;
      hide TakePrecommit;
      hide TakeBlock;
      hide HeightData.Valid;
      hide HeightData.Decided;
      IsShaped();
      var ok := heightDatas.AddPart(p);
      event := GotBlock(if heightDatas.OwnBlock().Some? then heightDatas.OwnBlock().value else []);
    }

    /** A proposal is an event if it is the first acceptable one. */
    method DoProposal(p: Proposal) returns (ghost complete: bool)
      requires Valid() && HeaderOk(p.header)
      modifies heightDatas
      ensures Valid() && heightDatas.CrossShardAccepts == old(heightDatas.CrossShardAccepts)
      ensures InShard.NodeShaped(heightDatas.Votes(), old(Node()))
      ensures if heightDatas.Acceptable(old(heightDatas.Proposal), p, CalculateProposer())
              then && heightDatas.Proposal == Some(p)
                   && Node() == InShard.NodeAfter(heightDatas.Votes(), signerIndex, old(Node()), GotProposal(p.hash, complete))
              else heightDatas.Proposal == old(heightDatas.Proposal) && Node() == old(Node())
    {
      hide Blocks.HashOf;
      hide HeightData.AcceptGate;
      hide HeightData.CommitGateI;
      hide HeightData.AllDecided;
      hide HeightData.Judgement;
      hide JudgeVote;
      hide Announced;
      hide Take;
      hide Welcome;
      hide AddBallot;
      hide Recount;
      hide AcceptsOnce;
      hide HeightData.InShard;
      hide TakeProposal;
      hide TakePrevote;
      hide TakePrecommit;
      hide TakeBlock;
      hide HeightData.Valid;
      hide HeightData.Decided;
      IsShaped();
      var r;
      r, complete := heightDatas.AddProposal(p, CalculateProposer());
    }

    /** So is a prevote or a precommit that is recorded. */
    method DoVote(v: Ballot, precommit: bool) returns (fails: bool)
      requires Valid()
      modifies heightDatas
      ensures Valid() && heightDatas.CrossShardAccepts == old(heightDatas.CrossShardAccepts)
      ensures InShard.NodeShaped(heightDatas.Votes(), old(Node()))
      ensures Node() == InShard.NodeAfter(heightDatas.Votes(), signerIndex, old(Node()), if precommit then GotPrecommit(v) else GotPrevote(v))
      ensures fails == IndexFails(|heightDatas.Votes()|, v.index) && (fails ==> Node() == old(Node()))
    {
      hide Blocks.HashOf;
      hide HeightData.AcceptGate;
      hide HeightData.CommitGateI;
      hide HeightData.AllDecided;
      hide HeightData.Judgement;
      hide JudgeVote;
      hide Announced;
      hide Take;
      hide Welcome;
      hide AddBallot;
      hide Recount;
      hide AcceptsOnce;
      hide HeightData.InShard;
      hide TakeProposal;
      hide TakePrevote;
      hide TakePrecommit;
      hide TakeBlock;
      hide HeightData.Valid;
      hide HeightData.Decided;
      IsShaped();
      var r;
      if precommit {
        r := heightDatas.AddPrecommit(v);
      } else {
        r := heightDatas.AddPrevote(v);
      }
      fails := r == VoteFails;
    }

    /** The messages on which the source fails. */
    ghost predicate FailsOn(m: Message)
      reads heightDatas
    {
      match m
      case PrevoteMsg(v) => IndexFails(|heightDatas.Votes()|, v.index)
      case PrecommitMsg(v) => IndexFails(|heightDatas.Votes()|, v.index)
      case CscMsg(csc) => heightDatas.JudgeCommit(csc) == ShortList
      case _ => false
    }

    /** A message is at most one event of the node's round, and it keeps every invariant; or the source fails on it. */
    method DoMessage(m: Message) returns (fails: bool, ghost event: Event)
      requires Valid() && Received(m)
      modifies heightDatas, heightDatas.CrossShardAccepts.Values
      ensures Valid() && heightDatas.CrossShardAccepts == old(heightDatas.CrossShardAccepts)
      ensures InShard.NodeShaped(heightDatas.Votes(), old(Node()))
      ensures Node() == old(Node()) || Node() == InShard.NodeAfter(heightDatas.Votes(), signerIndex, old(Node()), event)
      ensures EventOf(m, event)
      ensures fails == old(FailsOn(m)) && (fails ==> Node() == old(Node()))
      ensures m.PrevoteMsg? || m.PrecommitMsg? ==> (fails <==> m.v.index <= -8 || (m.v.index < 0 && heightDatas.Votes() == []))
      ensures m.PartMsg? || m.ProposalMsg? || m.CspMsg? || m.CsaMsg? ==> !fails
      ensures match m
              case PartMsg(p) =>
                heightDatas.Assembled() == Take(heightDatas.hasher, heightDatas.decode, Height, old(heightDatas.Assembled()), p)
              case ProposalMsg(p) =>
                if heightDatas.Acceptable(old(heightDatas.Proposal), p, CalculateProposer())
                then && heightDatas.Proposal == Some(p)
                     && Node() == InShard.NodeAfter(heightDatas.Votes(), signerIndex, old(Node()), event)
                else heightDatas.Proposal == old(heightDatas.Proposal) && Node() == old(Node())
              case PrevoteMsg(v) => event == GotPrevote(v) && Node() == InShard.NodeAfter(heightDatas.Votes(), signerIndex, old(Node()), event)
              case PrecommitMsg(v) => event == GotPrecommit(v) && Node() == InShard.NodeAfter(heightDatas.Votes(), signerIndex, old(Node()), event)
              case CspMsg(csp) =>
                heightDatas.CrossShardProposals
                == if csp.header.chainID !in old(heightDatas.CrossShardProposals)
                      && JudgeProposal(heightDatas.info.layout, heightDatas.Height, csp) == CspAdded
                   then old(heightDatas.CrossShardProposals)[csp.header.chainID := csp] else old(heightDatas.CrossShardProposals)
              case CsaMsg(csa) =>
                forall c :: c in heightDatas.CrossShardAccepts ==>
                  heightDatas.CrossShardAccepts[c].rec
                  == if old(heightDatas.Counts(csa)) && c == csa.msg.chain
                     then old(heightDatas.CrossShardAccepts[c].rec)[csa.validatorIndex := Some(csa.msg.status)]
                     else old(heightDatas.CrossShardAccepts[c].rec)
              case CscMsg(csc) =>
                heightDatas.CrossShardCommits
                == if && csc.height == heightDatas.Height && csc.upper !in old(heightDatas.CrossShardCommits)
                      && csc.upper in heightDatas.info.related + heightDatas.info.related2 && Certified(heightDatas.info.layout, csc)
                   then old(heightDatas.CrossShardCommits)[csc.upper := csc] else old(heightDatas.CrossShardCommits)
    {
      hide Blocks.HashOf;
      hide HeightData.AllDecided;
      hide HeightData.Judgement;
      hide JudgeProposal;
      hide AcceptsOnce;
      hide HeightData.InShard;
      hide HeightData.Valid;
      hide HeightData.Decided;
      hide TakeProposal;
      hide TakePrevote;
      hide TakePrecommit;
      hide TakeBlock;
      hide Take;
      hide Certified;
      hide HeightData.JudgeCommit;
      hide HeightData.Counts;
      hide HeightData.Acceptable;
      hide HeightData.Assembled;
      IsShaped();
      fails, event := false, GotBlock([]);
      match m
      case PartMsg(p) => event := DoPart(p);
      case ProposalMsg(p) =>
        ghost var complete := DoProposal(p);
        event := GotProposal(p.hash, complete);
      case PrevoteMsg(v) =>
        fails := DoVote(v, false);
        event := GotPrevote(v);
      case PrecommitMsg(v) =>
        fails := DoVote(v, true);
        event := GotPrecommit(v);
      case CspMsg(csp) =>
        var r := heightDatas.AddCrossShardProposal(csp);
        event := GotBlock(csp.hash);
      case CsaMsg(csa) => DoAccept(csa);
      case CscMsg(csc) => fails := DoCommit(csc);
    }
  }

  /** The event a message can be. */
  predicate EventOf(m: Message, e: Event) {
    match m
    case ProposalMsg(p) => e.GotProposal? && e.hash == p.hash
    case PrevoteMsg(v) => e == GotPrevote(v)
    case PrecommitMsg(v) => e == GotPrecommit(v)
    case _ => e.GotBlock?
  }
}
