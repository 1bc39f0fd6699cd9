/** Decisions are made: a run in which every honest validator decides, whatever the faulty ones withhold. */
module Decisions {
  import opened Basics
  import opened Quorum
  import opened HeightStates
  import opened InShard

  lemma {:induction false} WithAction(c: Config, run: seq<Action>, a: Action)
    requires |c.w| == |c.faulty| && Allowed(c, After(c, run), a)
    ensures After(c, run + [a]) == Apply(c, After(c, run), a)
  {
    assert (run + [a])[..|run|] == run;
    hide Allowed;
    hide Apply;
  }

  /** The vote of an honest validator at the first height. */
  function GoodBallot(k: nat, hash: Hash): Ballot {
    Ballot(1, 0, hash, k, CODE_OK, true)
  }

  /** The votes of the first n validators, without the faulty ones. */
  function HonestBallots(c: Config, hash: Hash, n: nat): seq<Ballot>
    requires n <= |c.faulty|
  {
    if n == 0 then [] else HonestBallots(c, hash, n - 1) + if c.faulty[n - 1] then [] else [GoodBallot(n - 1, hash)]
  }

  lemma {:induction false} HonestBallotsAre(c: Config, hash: Hash, n: nat)
    requires n <= |c.faulty|
    ensures forall v :: v in HonestBallots(c, hash, n) ==> 0 <= v.index < n && !c.faulty[v.index] && v == GoodBallot(v.index, hash)
    ensures forall k :: 0 <= k < n && !c.faulty[k] ==> GoodBallot(k, hash) in HonestBallots(c, hash, n)
  {
    if n > 0 {
      HonestBallotsAre(c, hash, n - 1);
    }
  }

  function HonestBits(c: Config): (bits: seq<bool>)
    ensures |bits| == |c.faulty|
  {
    seq(|c.faulty|, i requires 0 <= i < |c.faulty| => !c.faulty[i])
  }

  /** The honest validators alone make more than two thirds. */
  ghost predicate HonestQuorum(c: Config) {
    |c.w| == |c.faulty| && 3 * Weight(c.w, HonestBits(c)) > 2 * Total(c.w)
  }

  lemma {:induction false} HonestBallotsAreGood(c: Config, hash: Hash)
    ensures forall k :: 0 <= k < |c.faulty| && HonestBits(c)[k] ==> GoodVote(HonestBallots(c, hash, |c.faulty|), 1, k, hash)
  {
    var list := HonestBallots(c, hash, |c.faulty|);
    HonestBallotsAre(c, hash, |c.faulty|);
    forall k | 0 <= k < |c.faulty| && HonestBits(c)[k]
      ensures GoodVote(list, 1, k, hash)
    {
      assert GoodBallot(k, hash) in list;
      var j :| 0 <= j < |list| && list[j] == GoodBallot(k, hash);
    }
  }

  /** The round after a delivery of votes. */
  function Filled(w: seq<nat>, r: Round, list: seq<Ballot>, precommit: bool): Round
    requires |r.prevotes.votes| == |r.prevotes.bits| == |r.precommits.votes| == |r.precommits.bits| == |w|
  {
    if precommit then r.(precommits := AddBallots(w, r.height, r.proposal, r.precommits, list))
    else r.(prevotes := AddBallots(w, r.height, r.proposal, r.prevotes, list))
  }

  /** Votes are delivered to one node; a precommit must have been signed. */
  lemma {:induction false} Delivered(c: Config, run: seq<Action>, j: nat, list: seq<Ballot>, precommit: bool) returns (more: seq<Action>)
    requires |c.w| == |c.faulty| && Honest(c, j)
    requires forall k :: 0 <= k < |list| ==> list[k].index >= 0
    requires precommit ==> forall k :: 0 <= k < |list| ==> Signed(list[k].index, list[k].height, list[k].hash) in After(c, run).signed
    ensures var s := After(c, run);
            After(c, more) == s.(nodes := s.nodes[j := s.nodes[j].(round := Filled(c.w, s.nodes[j].round, list, precommit))])
  {
    hide AddBallot;
    hide RoundInv;
    hide NodeInv;
    hide After;
    hide SignsOnce;
    hide DecisionsBacked;
    hide Advanced;
    hide Signs;
    hide Decides;
    hide TakeProposal;
    more := run;
    if list != [] {
      var v := list[|list| - 1];
      var a := Act(j, if precommit then GotPrecommit(v) else GotPrevote(v));
      var rest := Delivered(c, run, j, list[..|list| - 1], precommit);
      WithAction(c, rest, a);
      more := rest + [a];
    }
  }

  /** A node that signed its precommit for the hash and holds enough prevotes to go on. */
  ghost predicate Ready(c: Config, n: Node, hash: Hash)
    requires |n.round.prevotes.votes| == |c.w|
  {
    && n.step == STEP_PRECOMMIT && n.round.height == 1 && n.round.proposal == Some(hash) && n.round.ownBlock.Some?
    && 3 * Weight(c.w, Voters(n.round.prevotes.votes, hash)) > 2 * Total(c.w)
  }

  lemma {:induction false} RoundsOf(c: Config, run: seq<Action>, j: nat)
    requires |c.w| == |c.faulty| && Honest(c, j)
    ensures |After(c, run).nodes| == |c.w| && forall k :: 0 <= k < |c.w| ==> NodeShaped(c.w, After(c, run).nodes[k])
    ensures var r := After(c, run).nodes[j].round; RoundInv(c.w, r) && BoxInv(c.w, r.proposal, r.prevotes) && BoxInv(c.w, r.proposal, r.precommits)
  {
    assert NodeInv(c, j, After(c, run).nodes[j], After(c, run).signed);
  }

  lemma {:induction false} AllShaped(c: Config, run: seq<Action>)
    requires |c.w| == |c.faulty|
    ensures |After(c, run).nodes| == |c.w| && forall k :: 0 <= k < |c.w| ==> NodeShaped(c.w, After(c, run).nodes[k])
  {
  }

  /** Prevoted for the hash, with proposal and block, at the first height. */
  ghost predicate Voting(n: Node, hash: Hash) {
    && n.step == STEP_PREVOTE && n.blockHash == hash && n.round.height == 1
    && n.round.proposal == Some(hash) && n.round.ownBlock == Some(hash)
  }

  /** A fresh node gets the proposal with its block and prevotes. */
  lemma {:induction false} Prevotes(c: Config, run: seq<Action>, j: nat, hash: Hash) returns (more: seq<Action>)
    requires |c.w| == |c.faulty| && Honest(c, j) && After(c, run).nodes[j] == NewNode(|c.w|, 1, [])
    ensures var s, t := After(c, run), After(c, more);
            t == s.(nodes := s.nodes[j := t.nodes[j]]) && Voting(t.nodes[j], hash)
  {
    hide RoundInv;
    hide BoxInv;
    hide AddBallot;
    hide Recount;
    hide Weight;
    hide Total;
    hide PassPrevote;
    hide PassPrecommit;
    var a := Act(j, GotProposal(hash, true));
    WithAction(c, run, a);
    var s := After(c, run + [a]);
    RoundsOf(c, run + [a], j);
    AdvancedIff(c.w, j, s.nodes[j]);
    GatesKeepRest(c.w, s.nodes[j].round);
    WithAction(c, run + [a], Act(j, Advance));
    hide After;
    hide PassProposal;
    more := run + [a] + [Act(j, Advance)];
  }

  /** Then it gets the honest prevotes. */
  lemma {:induction false} GetsPrevotes(c: Config, run: seq<Action>, j: nat, hash: Hash) returns (more: seq<Action>)
    requires HonestQuorum(c) && Honest(c, j) && Voting(After(c, run).nodes[j], hash)
    ensures var s, t := After(c, run), After(c, more);
            && t == s.(nodes := s.nodes[j := t.nodes[j]]) && Voting(t.nodes[j], hash)
            && 3 * Weight(c.w, Voters(t.nodes[j].round.prevotes.votes, hash)) > 2 * Total(c.w)
  {
    hide AddBallots;
    hide BoxInv;
    hide RoundInv;
    hide Weight;
    hide Total;
    hide HonestBallots;
    hide GoodVote;
    hide Inv;
    var list := HonestBallots(c, hash, |c.faulty|);
    HonestBallotsAre(c, hash, |c.faulty|);
    HonestBallotsAreGood(c, hash);
    RoundsOf(c, run, j);
    QuorumCounts(c.w, 1, hash, After(c, run).nodes[j].round.prevotes, list, HonestBits(c));
    more := Delivered(c, run, j, list, false);
  }

  /** And signs its precommit. */
  lemma {:induction false} Precommits(c: Config, run: seq<Action>, j: nat, hash: Hash) returns (more: seq<Action>)
    requires HonestQuorum(c) && Honest(c, j) && Voting(After(c, run).nodes[j], hash)
    requires 3 * Weight(c.w, Voters(After(c, run).nodes[j].round.prevotes.votes, hash)) > 2 * Total(c.w)
    ensures var s, t := After(c, run), After(c, more);
            && t == s.(nodes := s.nodes[j := t.nodes[j]], signed := s.signed + {Signed(j, 1, hash)})
            && Ready(c, t.nodes[j], hash)
  {
    hide AddBallot;
    hide BoxInv;
    hide RoundInv;
    hide Weight;
    hide Total;
    hide PassPrevote;
    hide PassProposal;
    hide PassPrecommit;
    var n := After(c, run).nodes[j];
    RoundsOf(c, run, j);
    AdvancedIff(c.w, j, n);
    GatesKeepRest(c.w, n.round);
    WithAction(c, run, Act(j, Advance));
    more := run + [Act(j, Advance)];
  }

  /** A ready node gets the honest precommits and decides. */
  lemma {:induction false} GetsPrecommits(c: Config, run: seq<Action>, j: nat, hash: Hash) returns (more: seq<Action>)
    requires HonestQuorum(c) && Honest(c, j) && Ready(c, After(c, run).nodes[j], hash)
    requires forall k :: 0 <= k < |c.faulty| && !c.faulty[k] ==> Signed(k, 1, hash) in After(c, run).signed
    ensures var s, t := After(c, run), After(c, more);
            && t == s.(nodes := s.nodes[j := t.nodes[j]]) && Ready(c, t.nodes[j], hash)
            && 3 * Weight(c.w, Voters(t.nodes[j].round.precommits.votes, hash)) > 2 * Total(c.w)
  {
    hide AddBallots;
    hide BoxInv;
    hide RoundInv;
    hide Weight;
    hide Total;
    hide HonestBallots;
    hide GoodVote;
    hide Inv;
    var list := HonestBallots(c, hash, |c.faulty|);
    HonestBallotsAre(c, hash, |c.faulty|);
    HonestBallotsAreGood(c, hash);
    RoundsOf(c, run, j);
    QuorumCounts(c.w, 1, hash, After(c, run).nodes[j].round.precommits, list, HonestBits(c));
    more := Delivered(c, run, j, list, true);
  }

  lemma {:induction false} DecidesNow(c: Config, run: seq<Action>, j: nat, hash: Hash) returns (more: seq<Action>)
    requires HonestQuorum(c) && Honest(c, j) && Ready(c, After(c, run).nodes[j], hash)
    requires 3 * Weight(c.w, Voters(After(c, run).nodes[j].round.precommits.votes, hash)) > 2 * Total(c.w)
    ensures var s, t := After(c, run), After(c, more);
            t == s.(nodes := s.nodes[j := t.nodes[j]], decided := s.decided + {Decision(j, 1, hash)})
  {
    hide AddBallot;
    hide BoxInv;
    hide RoundInv;
    hide Weight;
    hide Total;
    hide PassPrevote;
    hide PassProposal;
    hide PassPrecommit;
    var n := After(c, run).nodes[j];
    RoundsOf(c, run, j);
    AdvancedIff(c.w, j, n);
    WithAction(c, run, Act(j, Advance));
    more := run + [Act(j, Advance)];
  }

  /** The first m honest validators have signed; the others have not moved. */
  lemma {:induction false} AllPrecommit(c: Config, hash: Hash, m: nat) returns (run: seq<Action>)
    requires HonestQuorum(c) && m <= |c.w|
    ensures var s := After(c, run);
            && (forall k :: 0 <= k < m && !c.faulty[k] ==> Ready(c, s.nodes[k], hash) && Signed(k, 1, hash) in s.signed)
            && (forall k :: m <= k < |c.w| ==> s.nodes[k] == NewNode(|c.w|, 1, []))
  {
    hide Weight;
    hide Total;
    hide Inv;
    run := [];
    if m > 0 {
      run := AllPrecommit(c, hash, m - 1);
      AllShaped(c, run);
      if !c.faulty[m - 1] {
        run := Prevotes(c, run, m - 1, hash);
        run := GetsPrevotes(c, run, m - 1, hash);
        run := Precommits(c, run, m - 1, hash);
      }
    }
  }

  lemma {:induction false} AllDecide(c: Config, hash: Hash, m: nat) returns (run: seq<Action>)
    requires HonestQuorum(c) && m <= |c.w|
    ensures var s := After(c, run);
            && (forall k :: 0 <= k < m && !c.faulty[k] ==> Decision(k, 1, hash) in s.decided)
            && (forall k :: m <= k < |c.w| && !c.faulty[k] ==> Ready(c, s.nodes[k], hash))
            && (forall k :: 0 <= k < |c.w| && !c.faulty[k] ==> Signed(k, 1, hash) in s.signed)
  {
    hide Weight;
    hide Total;
    hide Inv;
    if m == 0 {
      run := AllPrecommit(c, hash, |c.w|);
    } else {
      run := AllDecide(c, hash, m - 1);
      AllShaped(c, run);
      if !c.faulty[m - 1] {
        run := GetsPrecommits(c, run, m - 1, hash);
        run := DecidesNow(c, run, m - 1, hash);
      }
    }
  }

  lemma {:induction false} HonestRest(w: seq<nat>, faulty: seq<bool>, honest: seq<bool>)
    requires |w| == |faulty| == |honest| && forall i :: 0 <= i < |w| ==> honest[i] == !faulty[i]
    ensures Weight(w, honest) + Weight(w, faulty) == Total(w)
  {
    if w != [] {
      HonestRest(w[1..], faulty[1..], honest[1..]);
    }
  }

  /**
   * If less than a third of the weight is faulty, there is a run, for every proposed hash, in which
   * every honest validator decides it, though the faulty ones never send a vote.
   */
  lemma {:induction false} EveryoneDecides(c: Config, hash: Hash) returns (run: seq<Action>)
    requires |c.w| == |c.faulty| && 3 * Weight(c.w, c.faulty) < Total(c.w)
    ensures forall k :: 0 <= k < |c.w| && !c.faulty[k] ==> Decision(k, 1, hash) in After(c, run).decided
  {
    HonestRest(c.w, c.faulty, HonestBits(c));
    hide Weight;
    hide Total;
    run := AllDecide(c, hash, |c.w|);
  }
}
