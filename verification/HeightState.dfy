/** One height of in-shard consensus as values: recorded votes, gates and the steps of a node. */
module HeightStates {
  import opened Basics
  import opened Quorum

  const STEP_NEW_HEIGHT := 1
  const STEP_PROPOSE := 3
  const STEP_PREVOTE := 4
  const STEP_PRECOMMIT := 5
  const STEP_CROSS_SHARD_ACCEPT := 6
  const STEP_CROSS_SHARD_PROPOSE := STEP_CROSS_SHARD_ACCEPT
  const STEP_CROSS_SHARD_COMMIT := 7

  /** The code of a vote in favour. */
  const CODE_OK := 0

  /**
   * A prevote or precommit as received. Its code is signed along with the rest; `signed` tells
   * whether its signature verifies for its index.
   */
  datatype Ballot = Ballot(height: int, round: int, hash: Hash, index: int, code: int, signed: bool)

  /** The votes of one kind: what each validator last sent, which of them count, and their weight. */
  datatype Box = Box(votes: seq<Option<Hash>>, bits: seq<bool>, total: int)

  function EmptyBox(n: nat): Box {
    Box(seq(n, _ => None), seq(n, _ => false), 0)
  }

  /** A bit is set exactly where the recorded vote names the proposal; the total weighs the set bits. */
  ghost predicate BoxInv(w: seq<nat>, proposal: Option<Hash>, b: Box) {
    && |b.votes| == |b.bits| == |w|
    && (forall i :: 0 <= i < |w| ==> (b.bits[i] <==> proposal.Some? && b.votes[i] == proposal))
    && b.total == Weight(w, b.bits)
  }

  lemma {:induction false} EmptyBoxInv(w: seq<nat>, proposal: Option<Hash>)
    ensures BoxInv(w, proposal, EmptyBox(|w|))
  {
    WeightNone(w, EmptyBox(|w|).bits);
  }

  /** A vote is recorded unless it is counted already, for another height, out of range or unsigned. */
  predicate Records(w: seq<nat>, height: int, b: Box, v: Ballot)
    requires |b.bits| == |w|
  {
    !(0 <= v.index < |w| && b.bits[v.index]) && v.height == height && v.round == 0 && 0 <= v.index < |w| && v.signed
  }

  function AddBallot(w: seq<nat>, height: int, proposal: Option<Hash>, b: Box, v: Ballot): Box
    requires |b.votes| == |b.bits| == |w|
  {
    if !Records(w, height, b, v) then b
    else
      var votes := b.votes[v.index := Some(v.hash)];
      if proposal == Some(v.hash) then Box(votes, b.bits[v.index := true], b.total + w[v.index])
      else b.(votes := votes)
  }

  lemma {:induction false} AddBallotKeepsBox(w: seq<nat>, height: int, proposal: Option<Hash>, b: Box, v: Ballot)
    requires BoxInv(w, proposal, b)
    ensures BoxInv(w, proposal, AddBallot(w, height, proposal, b, v))
  {
    hide Weight;
    if Records(w, height, b, v) && proposal == Some(v.hash) {
      WeightSet(w, b.bits, v.index);
    }
  }

  /** The recount when a proposal arrives after some votes. */
  function Recount(w: seq<nat>, proposal: Hash, b: Box): Box
    requires |b.votes| == |w|
  {
    Box(b.votes, Voters(b.votes, proposal), Weight(w, Voters(b.votes, proposal)))
  }

  /** One height at one node, as far as the shard's own consensus goes. */
  datatype Round = Round(height: int, passStep: int, proposal: Option<Hash>, ownBlock: Option<Hash>, prevotes: Box, precommits: Box)

  function NewRound(n: nat, height: int): Round {
    Round(height, STEP_NEW_HEIGHT, None, None, EmptyBox(n), EmptyBox(n))
  }

  /** Vote totals are right and every passed gate's condition holds. */
  ghost predicate RoundInv(w: seq<nat>, r: Round) {
    && BoxInv(w, r.proposal, r.prevotes) && BoxInv(w, r.proposal, r.precommits)
    && (r.passStep >= STEP_PROPOSE ==> r.proposal.Some? && r.ownBlock.Some?)
    && (r.passStep >= STEP_PREVOTE ==> TwoThirds(r.prevotes.total, Total(w)))
    && (r.passStep >= STEP_PRECOMMIT ==> TwoThirds(r.precommits.total, Total(w)))
  }

  // ----- events -----

  /** A checked proposal; `complete` tells whether buffered parts already make up its block. */
  function TakeProposal(w: seq<nat>, r: Round, hash: Hash, complete: bool): Round
    requires |r.prevotes.votes| == |r.precommits.votes| == |w|
  {
    if r.proposal.Some? then r
    else r.(proposal := Some(hash), ownBlock := if complete then Some(hash) else r.ownBlock,
            prevotes := Recount(w, hash, r.prevotes), precommits := Recount(w, hash, r.precommits))
  }

  function TakeBlock(r: Round, hash: Hash): Round {
    r.(ownBlock := Some(hash))
  }

  function TakePrevote(w: seq<nat>, r: Round, v: Ballot): Round
    requires |r.prevotes.votes| == |r.prevotes.bits| == |w|
  {
    r.(prevotes := AddBallot(w, r.height, r.proposal, r.prevotes, v))
  }

  function TakePrecommit(w: seq<nat>, r: Round, v: Ballot): Round
    requires |r.precommits.votes| == |r.precommits.bits| == |w|
  {
    r.(precommits := AddBallot(w, r.height, r.proposal, r.precommits, v))
  }

  function PassProposal(r: Round): Round {
    if r.passStep >= STEP_PROPOSE || r.proposal.None? || r.ownBlock.None? then r else r.(passStep := STEP_PROPOSE)
  }

  function PassPrevote(w: seq<nat>, r: Round): Round {
    if r.passStep >= STEP_PREVOTE then r
    else var q := PassProposal(r);
      if q.passStep < STEP_PROPOSE || !TwoThirds(q.prevotes.total, Total(w)) then q else q.(passStep := STEP_PREVOTE)
  }

  function PassPrecommit(w: seq<nat>, r: Round): Round {
    if r.passStep >= STEP_PRECOMMIT then r
    else var q := PassPrevote(w, r);
      if q.passStep < STEP_PREVOTE || !TwoThirds(q.precommits.total, Total(w)) then q else q.(passStep := STEP_PRECOMMIT)
  }

  /** Passing the precommit gate again changes nothing, and the gate leads no further than its own step. */
  lemma {:induction false} PassedStays(w: seq<nat>, r: Round)
    ensures r.passStep >= STEP_PRECOMMIT ==> PassPrecommit(w, r) == r
    ensures r.passStep < STEP_PRECOMMIT ==> r.passStep <= PassPrecommit(w, r).passStep <= STEP_PRECOMMIT
  {
  }

  /**
   * When the gates are open, in plain arithmetic: the propose gate with proposal and own block; the
   * prevote gate if, besides, three times the weight of the recorded prevotes for the proposal
   * exceeds twice the total; the precommit gate if, besides, that of the precommits does.
   */
  lemma {:induction false} GatesOpenIff(w: seq<nat>, r: Round)
    requires RoundInv(w, r)
    ensures PassProposal(r).passStep >= STEP_PROPOSE <==> r.proposal.Some? && r.ownBlock.Some?
    ensures PassPrevote(w, r).passStep >= STEP_PREVOTE
            <==> && r.proposal.Some? && r.ownBlock.Some?
                 && 3 * Weight(w, Voters(r.prevotes.votes, r.proposal.value)) > 2 * Total(w)
    ensures PassPrecommit(w, r).passStep >= STEP_PRECOMMIT
            <==> && r.proposal.Some? && r.ownBlock.Some?
                 && 3 * Weight(w, Voters(r.prevotes.votes, r.proposal.value)) > 2 * Total(w)
                 && 3 * Weight(w, Voters(r.precommits.votes, r.proposal.value)) > 2 * Total(w)
  {
    TwoThirdsIs(r.prevotes.total, Total(w));
    TwoThirdsIs(r.precommits.total, Total(w));
    if r.proposal.Some? {
      assert r.prevotes.bits == Voters(r.prevotes.votes, r.proposal.value);
      assert r.precommits.bits == Voters(r.precommits.votes, r.proposal.value);
    }
    hide Weight;
    hide Total;
    hide TwoThirds;
  }

  /** Gates change the pass step only, and never lower it. */
  lemma {:induction false} GatesKeepRest(w: seq<nat>, r: Round)
    ensures var q := PassPrecommit(w, r); q == r.(passStep := q.passStep) && q.passStep >= r.passStep
    ensures var q := PassPrevote(w, r); q == r.(passStep := q.passStep) && q.passStep >= r.passStep
    ensures var q := PassProposal(r); q == r.(passStep := q.passStep) && q.passStep >= r.passStep
  {
    hide TwoThirds;
  }

  /** Which votes are recorded: signed ones of this height and round, of a validator that is not counted yet. */
  lemma {:induction false} BallotRecorded(w: seq<nat>, height: int, proposal: Option<Hash>, b: Box, v: Ballot)
    requires BoxInv(w, proposal, b)
    ensures var c := AddBallot(w, height, proposal, b, v);
            if v.height == height && v.round == 0 && 0 <= v.index < |w| && v.signed && !(proposal.Some? && b.votes[v.index] == proposal)
            then c.votes == b.votes[v.index := Some(v.hash)]
            else c == b
  {
    hide Weight;
  }

  /** A proposal that comes after some votes keeps what was recorded, and counts it. */
  lemma {:induction false} ProposalCountsEarly(w: seq<nat>, r: Round, hash: Hash, complete: bool)
    requires RoundInv(w, r) && r.proposal.None?
    ensures var q := TakeProposal(w, r, hash, complete);
            && q.proposal == Some(hash) && q.passStep == r.passStep && q.height == r.height
            && q.ownBlock == (if complete then Some(hash) else r.ownBlock)
            && q.prevotes.votes == r.prevotes.votes && q.precommits.votes == r.precommits.votes
            && q.prevotes.bits == Voters(r.prevotes.votes, hash) && q.precommits.bits == Voters(r.precommits.votes, hash)
  {
    hide Weight;
  }

  // ----- what is delivered is counted -----

  /** The box after a list of votes. */
  function AddBallots(w: seq<nat>, height: int, proposal: Option<Hash>, b: Box, list: seq<Ballot>): (c: Box)
    requires |b.votes| == |b.bits| == |w|
    ensures |c.votes| == |c.bits| == |w|
  {
    if list == [] then b else AddBallot(w, height, proposal, AddBallots(w, height, proposal, b, list[..|list| - 1]), list[|list| - 1])
  }

  /** The list has a good vote of validator k for the hash. */
  ghost predicate GoodVote(list: seq<Ballot>, height: int, k: nat, hash: Hash) {
    exists j :: 0 <= j < |list| && list[j].height == height && list[j].round == 0 && list[j].index == k && list[j].hash == hash && list[j].signed
  }

  /** Whatever else is delivered, and in whatever order, a good vote for the proposal is counted. */
  lemma {:induction false} DeliveredCounts(w: seq<nat>, height: int, hash: Hash, b: Box, list: seq<Ballot>, k: nat)
    requires BoxInv(w, Some(hash), b) && k < |w|
    ensures BoxInv(w, Some(hash), AddBallots(w, height, Some(hash), b, list))
    ensures GoodVote(list, height, k, hash) || b.votes[k] == Some(hash) ==> AddBallots(w, height, Some(hash), b, list).votes[k] == Some(hash)
  {
    hide Weight;
    if list != [] {
      var rest, v := list[..|list| - 1], list[|list| - 1];
      DeliveredCounts(w, height, hash, b, rest, k);
      var c := AddBallots(w, height, Some(hash), b, rest);
      AddBallotKeepsBox(w, height, Some(hash), c, v);
      BallotRecorded(w, height, Some(hash), c, v);
      hide AddBallot;
      hide BoxInv;
      if GoodVote(list, height, k, hash) && !GoodVote(rest, height, k, hash) {
        var j :| 0 <= j < |list| && list[j].height == height && list[j].round == 0 && list[j].index == k && list[j].hash == hash && list[j].signed;
        assert j < |list| - 1 ==> rest[j] == list[j];
      }
    }
  }

  /**
   * A quorum decides. With proposal and own block at hand, any delivery that holds a good prevote
   * and a good precommit for it of each validator of a quorum opens all gates, whatever else was
   * delivered, in whatever order.
   */
  lemma {:induction false} QuorumDecides(w: seq<nat>, r: Round, prevotes: seq<Ballot>, precommits: seq<Ballot>, quorum: seq<bool>)
    requires RoundInv(w, r) && r.proposal.Some? && r.ownBlock.Some?
    requires |quorum| == |w| && 3 * Weight(w, quorum) > 2 * Total(w)
    requires forall k :: 0 <= k < |w| && quorum[k] ==> GoodVote(prevotes, r.height, k, r.proposal.value)
    requires forall k :: 0 <= k < |w| && quorum[k] ==> GoodVote(precommits, r.height, k, r.proposal.value)
    ensures var q := r.(prevotes := AddBallots(w, r.height, r.proposal, r.prevotes, prevotes),
                        precommits := AddBallots(w, r.height, r.proposal, r.precommits, precommits));
            RoundInv(w, q) && PassPrecommit(w, q).passStep >= STEP_PRECOMMIT
  {
    QuorumCounts(w, r.height, r.proposal.value, r.prevotes, prevotes, quorum);
    QuorumCounts(w, r.height, r.proposal.value, r.precommits, precommits, quorum);
    var q := r.(prevotes := AddBallots(w, r.height, r.proposal, r.prevotes, prevotes),
                precommits := AddBallots(w, r.height, r.proposal, r.precommits, precommits));
    TwoThirdsIs(q.prevotes.total, Total(w));
    TwoThirdsIs(q.precommits.total, Total(w));
    hide Weight;
    hide Total;
    hide TwoThirds;
    hide AddBallots;
    hide BoxInv;
    GatesOpenIff(w, q);
  }

  lemma {:induction false} QuorumCounts(w: seq<nat>, height: int, hash: Hash, b: Box, list: seq<Ballot>, quorum: seq<bool>)
    requires BoxInv(w, Some(hash), b)
    requires |quorum| == |w| && 3 * Weight(w, quorum) > 2 * Total(w)
    requires forall k :: 0 <= k < |w| && quorum[k] ==> GoodVote(list, height, k, hash)
    ensures var c := AddBallots(w, height, Some(hash), b, list);
            && BoxInv(w, Some(hash), c) && 3 * c.total > 2 * Total(w)
            && 3 * Weight(w, Voters(c.votes, hash)) > 2 * Total(w)
  {
    var c := AddBallots(w, height, Some(hash), b, list);
    if w == [] {
      assert false;
    }
    DeliveredCounts(w, height, hash, b, list, 0);
    forall k | 0 <= k < |w| && quorum[k]
      ensures Voters(c.votes, hash)[k]
    {
      DeliveredCounts(w, height, hash, b, list, k);
    }
    assert c.bits == Voters(c.votes, hash);
    WeightGrows(w, quorum, Voters(c.votes, hash));
    hide Weight;
    hide Total;
    hide AddBallots;
  }

  lemma {:induction false} RoundBoxes(w: seq<nat>, r: Round)
    requires RoundInv(w, r)
    ensures BoxInv(w, r.proposal, r.prevotes) && BoxInv(w, r.proposal, r.precommits)
  {
  }

  lemma {:induction false} BlockKeepsRound(w: seq<nat>, r: Round, hash: Hash)
    requires RoundInv(w, r)
    ensures RoundInv(w, TakeBlock(r, hash))
  {
  }

  lemma {:induction false} ProposalKeepsRound(w: seq<nat>, r: Round, hash: Hash, complete: bool)
    requires RoundInv(w, r)
    ensures RoundInv(w, TakeProposal(w, r, hash, complete))
  {
    hide Weight;
  }

  /** Every event keeps the round's invariant. */
  lemma {:induction false} EventsKeepRound(w: seq<nat>, r: Round, hash: Hash, complete: bool, v: Ballot)
    requires RoundInv(w, r)
    ensures RoundInv(w, TakeProposal(w, r, hash, complete)) && RoundInv(w, TakeBlock(r, hash))
    ensures RoundInv(w, TakePrevote(w, r, v)) && RoundInv(w, TakePrecommit(w, r, v))
    ensures RoundInv(w, PassProposal(r)) && RoundInv(w, PassPrevote(w, r)) && RoundInv(w, PassPrecommit(w, r))
  {
    AddBallotKeepsBox(w, r.height, r.proposal, r.prevotes, v);
    AddBallotKeepsBox(w, r.height, r.proposal, r.precommits, v);
    TotalsGrow(w, r.height, r.proposal, r.prevotes, v);
    TotalsGrow(w, r.height, r.proposal, r.precommits, v);
    hide Weight;
    hide AddBallot;
  }

  lemma {:induction false} TotalsGrow(w: seq<nat>, height: int, proposal: Option<Hash>, b: Box, v: Ballot)
    requires |b.votes| == |b.bits| == |w|
    ensures AddBallot(w, height, proposal, b, v).total >= b.total
    ensures TwoThirds(b.total, Total(w)) ==> TwoThirds(AddBallot(w, height, proposal, b, v).total, Total(w))
  {
  }

  // ----- a node -----

  /** A node's step, the block hash it votes for, and its round data. */
  datatype Node = Node(step: int, blockHash: Hash, round: Round)

  datatype Event =
    | GotProposal(hash: Hash, complete: bool)
    | MadeProposal(hash: Hash)
    | GotBlock(hash: Hash)
    | GotPrevote(v: Ballot)
    | GotPrecommit(v: Ballot)
    | Advance
    | Later(step: int, passStep: int)
    | FinishHeight(last: Hash)

  /** A fresh round takes the proposer's own block without a recount. */
  function OwnProposal(r: Round, hash: Hash): Round {
    r.(proposal := Some(hash), ownBlock := Some(hash))
  }

  /** A node that leaves the propose step: it prevotes for its block. */
  function Proposed(w: seq<nat>, me: nat, r: Round): Node
    requires |r.prevotes.votes| == |r.prevotes.bits| == |w| && r.ownBlock.Some?
  {
    Node(STEP_PREVOTE, r.ownBlock.value, TakePrevote(w, r, Ballot(r.height, 0, r.ownBlock.value, me, CODE_OK, true)))
  }

  /** A node that leaves the prevote step: it precommits for the same block. */
  function Prevoted(w: seq<nat>, me: nat, blockHash: Hash, r: Round): Node
    requires |r.precommits.votes| == |r.precommits.bits| == |w|
  {
    Node(STEP_PRECOMMIT, blockHash, TakePrecommit(w, r, Ballot(r.height, 0, blockHash, me, CODE_OK, true)))
  }

  /** One iteration of the transition loop, up to the end of the in-shard steps. */
  function Advanced(w: seq<nat>, me: nat, n: Node): Node
    requires |n.round.prevotes.votes| == |n.round.prevotes.bits| == |w|
    requires |n.round.precommits.votes| == |n.round.precommits.bits| == |w|
  {
    if n.step == STEP_PROPOSE then
      var r := PassProposal(n.round);
      if r.passStep < STEP_PROPOSE || r.ownBlock.None? then n.(round := r) else Proposed(w, me, r)
    else if n.step == STEP_PREVOTE then
      var r := PassPrevote(w, n.round);
      if r.passStep < STEP_PREVOTE then n.(round := r) else Prevoted(w, me, n.blockHash, r)
    else if n.step == STEP_PRECOMMIT then
      var r := PassPrecommit(w, n.round);
      if r.passStep < STEP_PRECOMMIT then n.(round := r) else Node(STEP_CROSS_SHARD_ACCEPT, n.blockHash, r)
    else n
  }

  /**
   * When a node moves on, in plain terms. It leaves the propose step exactly with proposal and own
   * block, and then votes for that block; it leaves the prevote step exactly with two thirds of
   * prevotes for the proposal as well; it leaves the precommit step exactly with two thirds of
   * precommits as well.
   */
  lemma {:induction false} AdvancedIff(w: seq<nat>, me: nat, n: Node)
    requires RoundInv(w, n.round) && me < |w|
    ensures var r, m := n.round, Advanced(w, me, n);
            var held := r.proposal.Some? && r.ownBlock.Some?;
            var prevoted := held && 3 * Weight(w, Voters(r.prevotes.votes, r.proposal.value)) > 2 * Total(w);
            var precommitted := prevoted && 3 * Weight(w, Voters(r.precommits.votes, r.proposal.value)) > 2 * Total(w);
            && (n.step == STEP_PROPOSE ==> m.step == if held then STEP_PREVOTE else STEP_PROPOSE)
            && (n.step == STEP_PROPOSE && held ==> m.blockHash == r.ownBlock.value)
            && (n.step == STEP_PREVOTE ==> m.step == (if prevoted then STEP_PRECOMMIT else STEP_PREVOTE) && m.blockHash == n.blockHash)
            && (n.step == STEP_PREVOTE ==> Signs(w, n) == if prevoted then Some(n.blockHash) else None)
            && (n.step == STEP_PRECOMMIT ==> m.step == if precommitted then STEP_CROSS_SHARD_ACCEPT else STEP_PRECOMMIT)
            && (n.step == STEP_PRECOMMIT ==> Decides(w, n) == if precommitted then r.proposal else None)
  {
    GatesOpenIff(w, n.round);
    GatesKeepRest(w, n.round);
    hide RoundInv;
    hide PassProposal;
    hide PassPrevote;
    hide PassPrecommit;
    hide AddBallot;
    hide Weight;
    hide Total;
    hide Voters;
  }

  /** A node's own vote is recorded as it moves on, unless it is counted already. */
  lemma {:induction false} OwnVoteRecorded(w: seq<nat>, me: nat, n: Node)
    requires RoundInv(w, n.round) && me < |w|
    ensures var r, m := n.round, Advanced(w, me, n);
            && (n.step == STEP_PROPOSE && m.step == STEP_PREVOTE && r.prevotes.votes[me] != r.proposal ==> m.round.prevotes.votes[me] == r.ownBlock)
            && (n.step == STEP_PREVOTE && m.step == STEP_PRECOMMIT && r.precommits.votes[me] != r.proposal ==> m.round.precommits.votes[me] == Some(n.blockHash))
  {
    GatesKeepRest(w, n.round);
    hide PassProposal;
    hide PassPrevote;
    hide Weight;
    hide Total;
  }

  /** The precommit a node signs in a step: exactly when it leaves the prevote step. */
  function Signs(w: seq<nat>, n: Node): Option<Hash> {
    if n.step == STEP_PREVOTE && PassPrevote(w, n.round).passStep >= STEP_PREVOTE then Some(n.blockHash) else None
  }

  /** The hash a node decides in a step: its proposal, exactly when it leaves the precommit step. */
  function Decides(w: seq<nat>, n: Node): Option<Hash> {
    if n.step == STEP_PRECOMMIT && PassPrecommit(w, n.round).passStep >= STEP_PRECOMMIT then n.round.proposal else None
  }

  /** A node entering a height; `last` is the hash of the block it just finished. */
  function NewNode(n: nat, height: int, last: Hash): Node {
    Node(STEP_PROPOSE, last, NewRound(n, height))
  }
}
