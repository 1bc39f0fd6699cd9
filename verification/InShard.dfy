/** Agreement inside a shard, over every run of honest nodes among faulty ones. */
module InShard {
  import opened Basics
  import opened Quorum
  import opened HeightStates

  /** A precommit signature: validator, height and hash, for round 0 and with any code. */
  datatype Signed = Signed(validator: nat, height: int, hash: Hash)

  /** A node that passed the precommit gate: who, at which height, with which proposal. */
  datatype Decision = Decision(node: nat, height: int, hash: Hash)

  datatype System = System(nodes: seq<Node>, signed: set<Signed>, decided: set<Decision>)

  datatype Config = Config(w: seq<nat>, faulty: seq<bool>)

  ghost predicate ConfigOk(c: Config) {
    |c.w| == |c.faulty| && 3 * Weight(c.w, c.faulty) <= Total(c.w)
  }

  /** A faulty validator signs anything; an honest node takes one step. */
  datatype Action = Forge(validator: nat, height: int, hash: Hash) | Act(node: nat, event: Event)

  ghost predicate Shaped(c: Config, s: System) {
    |s.nodes| == |c.w| == |c.faulty| &&
    forall j :: 0 <= j < |s.nodes| ==> NodeShaped(c.w, s.nodes[j])
  }

  predicate NodeShaped(w: seq<nat>, n: Node) {
    && |n.round.prevotes.votes| == |n.round.prevotes.bits| == |w|
    && |n.round.precommits.votes| == |n.round.precommits.bits| == |w|
  }

  /** The cross-shard steps go on from a passed precommit gate. */
  predicate IsLater(n: Node, e: Event) {
    e.Later? && n.step >= STEP_CROSS_SHARD_ACCEPT && e.step >= STEP_CROSS_SHARD_ACCEPT && e.passStep >= n.round.passStep >= STEP_PRECOMMIT
  }

  /** Signatures cannot be forged; a proposer proposes on a fresh round; a height ends after the precommit step. */
  ghost predicate Allowed(c: Config, s: System, a: Action)
    requires Shaped(c, s)
  {
    match a
    case Forge(i, _, _) => i < |c.faulty| && c.faulty[i]
    case Act(j, e) =>
      && j < |s.nodes| && !c.faulty[j]
      && (e.GotPrecommit? && e.v.signed && 0 <= e.v.index && e.v.round == 0 ==> Signed(e.v.index, e.v.height, e.v.hash) in s.signed)
      && (e.MadeProposal? ==> s.nodes[j] == NewNode(|c.w|, s.nodes[j].round.height, s.nodes[j].blockHash))
      && (e.Later? ==> IsLater(s.nodes[j], e))
      && (e.FinishHeight? ==> s.nodes[j].step >= STEP_CROSS_SHARD_ACCEPT)
  }

  /** The node after an event. */
  function NodeAfter(w: seq<nat>, me: nat, n: Node, e: Event): Node
    requires NodeShaped(w, n)
  {
    match e
    case GotProposal(hash, complete) => n.(round := TakeProposal(w, n.round, hash, complete))
    case MadeProposal(hash) => n.(round := OwnProposal(n.round, hash))
    case GotBlock(hash) => n.(round := TakeBlock(n.round, hash))
    case GotPrevote(v) => n.(round := TakePrevote(w, n.round, v))
    case GotPrecommit(v) => n.(round := TakePrecommit(w, n.round, v))
    case Advance => Advanced(w, me, n)
    case Later(step, passStep) => n.(step := step, round := n.round.(passStep := passStep))
    case FinishHeight(last) => NewNode(|w|, n.round.height + 1, last)
  }

  function Apply(c: Config, s: System, a: Action): System
    requires forall j :: 0 <= j < |s.nodes| ==> NodeShaped(c.w, s.nodes[j])
  {
    match a
    case Forge(i, h, x) => s.(signed := s.signed + {Signed(i, h, x)})
    case Act(j, e) =>
      if j >= |s.nodes| then s else
      var n := s.nodes[j];
      var sign := if e.Advance? then Signs(c.w, n) else None;
      var decide := if e.Advance? then Decides(c.w, n) else None;
      System(s.nodes[j := NodeAfter(c.w, j, n, e)],
             if sign.Some? then s.signed + {Signed(j, n.round.height, sign.value)} else s.signed,
             if decide.Some? then s.decided + {Decision(j, n.round.height, decide.value)} else s.decided)
  }

  // ----- the invariant -----

  /** What holds of an honest node and the signatures that exist. */
  ghost predicate NodeInv(c: Config, j: nat, n: Node, signed: set<Signed>) {
    && NodeShaped(c.w, n) && RoundInv(c.w, n.round)
    && (forall s :: s in signed && s.validator == j ==>
          s.height < n.round.height || (s.height == n.round.height && n.step >= STEP_PRECOMMIT && s.hash == n.blockHash))
    && (forall k :: 0 <= k < |c.w| && n.round.precommits.votes[k].Some? ==>
          Signed(k, n.round.height, n.round.precommits.votes[k].value) in signed)
  }

  predicate Honest(c: Config, i: nat) {
    i < |c.faulty| && !c.faulty[i]
  }

  /** An honest validator signs at most one precommit per height. */
  ghost predicate SignsOnce(c: Config, signed: set<Signed>) {
    forall s, t :: (s in signed && t in signed && Honest(c, s.validator) && s.validator == t.validator && s.height == t.height) ==> s == t
  }

  /** Two thirds of the weight signed a hash at a height. */
  ghost predicate Backed(c: Config, signed: set<Signed>, height: int, hash: Hash, bits: seq<bool>) {
    && |bits| == |c.w| && TwoThirds(Weight(c.w, bits), Total(c.w))
    && forall k :: 0 <= k < |bits| && bits[k] ==> Signed(k, height, hash) in signed
  }

  ghost predicate DecisionsBacked(c: Config, s: System) {
    forall d :: d in s.decided ==> exists bits :: Backed(c, s.signed, d.height, d.hash, bits)
  }

  ghost predicate Inv(c: Config, s: System) {
    && |s.nodes| == |c.w| == |c.faulty|
    && (forall j :: 0 <= j < |s.nodes| ==> NodeShaped(c.w, s.nodes[j]))
    && (forall j :: 0 <= j < |s.nodes| && !c.faulty[j] ==> NodeInv(c, j, s.nodes[j], s.signed))
    && SignsOnce(c, s.signed)
    && DecisionsBacked(c, s)
  }

  function Initial(c: Config): System {
    System(seq(|c.w|, _ => NewNode(|c.w|, 1, [])), {}, {})
  }

  lemma {:induction false} InitialInv(c: Config)
    requires |c.w| == |c.faulty|
    ensures Inv(c, Initial(c))
  {
    EmptyBoxInv(c.w, None);
  }

  /** More signatures of other validators disturb nothing. */
  lemma {:induction false} MoreSigned(c: Config, j: nat, n: Node, signed: set<Signed>, more: Signed)
    requires NodeInv(c, j, n, signed) && more.validator != j
    ensures NodeInv(c, j, n, signed + {more})
  {
    hide RoundInv;
  }

  lemma {:induction false} BackedGrows(c: Config, signed: set<Signed>, more: set<Signed>, height: int, hash: Hash, bits: seq<bool>)
    requires Backed(c, signed, height, hash, bits) && signed <= more
    ensures Backed(c, more, height, hash, bits)
  {
  }

  lemma {:induction false} DecisionsStayBacked(c: Config, s: System, t: System)
    requires DecisionsBacked(c, s) && s.signed <= t.signed && s.decided == t.decided
    ensures DecisionsBacked(c, t)
  {
    forall d | d in t.decided
      ensures exists bits :: Backed(c, t.signed, d.height, d.hash, bits)
    {
      var bits :| Backed(c, s.signed, d.height, d.hash, bits);
      BackedGrows(c, s.signed, t.signed, d.height, d.hash, bits);
    }
  }

  lemma {:induction false} ForgeKeepsInv(c: Config, s: System, a: Action)
    requires Inv(c, s) && a.Forge? && Allowed(c, s, a)
    ensures Inv(c, Apply(c, s, a))
  {
    var t := Apply(c, s, a);
    forall j | 0 <= j < |s.nodes| && !c.faulty[j]
      ensures NodeInv(c, j, s.nodes[j], t.signed)
    {
      MoreSigned(c, j, s.nodes[j], s.signed, Signed(a.validator, a.height, a.hash));
    }
    DecisionsStayBacked(c, s, t);
    hide NodeInv;
  }

  /** Events other than the node's own transition leave its step and its signatures alone. */
  lemma {:induction false} EventKeepsNode(c: Config, j: nat, n: Node, e: Event, signed: set<Signed>)
    requires NodeInv(c, j, n, signed) && j < |c.w|
    requires !e.Advance? && !e.FinishHeight? && (e.Later? ==> IsLater(n, e))
    requires e.GotPrecommit? && e.v.signed && 0 <= e.v.index && e.v.round == 0 ==> Signed(e.v.index, e.v.height, e.v.hash) in signed
    requires e.MadeProposal? ==> n == NewNode(|c.w|, n.round.height, n.blockHash)
    ensures NodeInv(c, j, NodeAfter(c.w, j, n, e), signed)
  {
    var v := if e.GotPrevote? || e.GotPrecommit? then e.v else Ballot(0, 0, [], 0, CODE_OK, false);
    EventsKeepRound(c.w, n.round, if e.GotProposal? || e.GotBlock? then e.hash else [], e.GotProposal? && e.complete, v);
    if e.MadeProposal? {
      EmptyBoxInv(c.w, Some(e.hash));
    }
    hide Weight;
    hide RoundInv;
    if e.MadeProposal? {
      FreshRoundInv(c.w, n.round.height, e.hash);
    }
  }

  lemma {:induction false} FreshRoundInv(w: seq<nat>, height: int, hash: Hash)
    ensures RoundInv(w, NewRound(|w|, height))
    ensures RoundInv(w, OwnProposal(NewRound(|w|, height), hash))
  {
    EmptyBoxInv(w, None);
    EmptyBoxInv(w, Some(hash));
    hide EmptyBox;
  }

  lemma {:induction false} AdvanceKeepsRound(w: seq<nat>, me: nat, n: Node)
    requires NodeShaped(w, n) && RoundInv(w, n.round)
    ensures NodeShaped(w, Advanced(w, me, n)) && RoundInv(w, Advanced(w, me, n).round)
  {
    var none := Ballot(0, 0, [], 0, CODE_OK, false);
    EventsKeepRound(w, n.round, [], false, none);
    if n.step == STEP_PROPOSE {
      var r := PassProposal(n.round);
      EventsKeepRound(w, r, [], false, Ballot(r.height, 0, if r.ownBlock.Some? then r.ownBlock.value else [], me, CODE_OK, true));
    } else if n.step == STEP_PREVOTE {
      var r := PassPrevote(w, n.round);
      EventsKeepRound(w, r, [], false, Ballot(r.height, 0, n.blockHash, me, CODE_OK, true));
    }
    hide Weight;
    hide Total;
    hide TwoThirds;
    hide AddBallot;
    hide PassProposal;
    hide PassPrevote;
    hide PassPrecommit;
  }

  /** Leaving the prevote step signs; what is signed is the block hash the node keeps. */
  lemma {:induction false} PrevoteKeepsNode(c: Config, j: nat, n: Node, signed: set<Signed>)
    requires NodeInv(c, j, n, signed) && j < |c.w| && n.step == STEP_PREVOTE && Signs(c.w, n).Some?
    ensures NodeInv(c, j, Advanced(c.w, j, n), signed + {Signed(j, n.round.height, n.blockHash)})
  {
    AdvanceKeepsRound(c.w, j, n);
    hide RoundInv;
    hide Weight;
    hide Total;
    hide TwoThirds;
  }

  lemma {:induction false} AdvanceUnsigned(c: Config, j: nat, n: Node, signed: set<Signed>)
    requires NodeInv(c, j, n, signed) && j < |c.w| && Signs(c.w, n).None?
    ensures NodeInv(c, j, Advanced(c.w, j, n), signed)
  {
    AdvanceKeepsRound(c.w, j, n);
    hide RoundInv;
    hide Weight;
    hide Total;
    hide TwoThirds;
    hide AddBallot;
  }

  /** The node's own transition: it signs once, for the block hash it keeps. */
  lemma {:induction false} AdvanceKeepsNode(c: Config, j: nat, n: Node, signed: set<Signed>)
    requires NodeInv(c, j, n, signed) && j < |c.w|
    ensures var sign := Signs(c.w, n);
            var after := if sign.Some? then signed + {Signed(j, n.round.height, sign.value)} else signed;
            NodeInv(c, j, Advanced(c.w, j, n), after)
    ensures Signs(c.w, n).Some? ==> forall s :: s in signed && s.validator == j ==> s.height < n.round.height
  {
    if Signs(c.w, n).Some? {
      PrevoteKeepsNode(c, j, n, signed);
    } else {
      AdvanceUnsigned(c, j, n, signed);
    }
    hide RoundInv;
    hide Advanced;
    hide PassPrevote;
  }

  /** A node that passes the precommit gate has two thirds of the weight behind its proposal. */
  lemma {:induction false} DecisionIsBacked(c: Config, j: nat, n: Node, signed: set<Signed>)
    requires NodeInv(c, j, n, signed) && Decides(c.w, n).Some?
    ensures Backed(c, signed, n.round.height, Decides(c.w, n).value, n.round.precommits.bits)
  {
    EventsKeepRound(c.w, n.round, [], false, Ballot(0, 0, [], 0, CODE_OK, false));
    hide Weight;
    hide TwoThirds;
  }

  lemma {:induction false} ActKeepsInv(c: Config, s: System, j: nat, e: Event)
    requires Inv(c, s) && Allowed(c, s, Act(j, e))
    ensures Inv(c, Apply(c, s, Act(j, e)))
  {
    var n, t := s.nodes[j], Apply(c, s, Act(j, e));
    if e.Advance? {
      AdvanceKeepsNode(c, j, n, s.signed);
    } else if e.FinishHeight? {
      FreshRoundInv(c.w, n.round.height + 1, []);
    } else {
      EventKeepsNode(c, j, n, e, s.signed);
    }
    hide RoundInv;
    hide Advanced;
    hide Signs;
    hide Decides;
    assert NodeInv(c, j, t.nodes[j], t.signed);
    forall i | 0 <= i < |s.nodes| && !c.faulty[i]
      ensures NodeInv(c, i, t.nodes[i], t.signed)
    {
      if i != j && t.signed != s.signed {
        MoreSigned(c, i, s.nodes[i], s.signed, Signed(j, n.round.height, Signs(c.w, n).value));
      }
    }
    DecisionsKept(c, s, j, e);
    hide NodeInv;
  }

  lemma {:induction false} DecisionsKept(c: Config, s: System, j: nat, e: Event)
    requires Inv(c, s) && Allowed(c, s, Act(j, e))
    ensures DecisionsBacked(c, Apply(c, s, Act(j, e)))
  {
    var n, t := s.nodes[j], Apply(c, s, Act(j, e));
    DecisionsStayBacked(c, s, t.(decided := s.decided));
    if e.Advance? && Decides(c.w, n).Some? {
      DecisionIsBacked(c, j, n, s.signed);
      BackedGrows(c, s.signed, t.signed, n.round.height, Decides(c.w, n).value, n.round.precommits.bits);
    }
    hide Backed;
    hide Decides;
    hide Signs;
    hide NodeInv;
  }

  // ----- runs -----

  /** The system after a run; a run that leaves the allowed actions stays where it was. */
  ghost function After(c: Config, run: seq<Action>): (s: System)
    requires |c.w| == |c.faulty|
    ensures Inv(c, s)
  {
    InitialInv(c);
    if run == [] then Initial(c)
    else
      var s := After(c, run[..|run| - 1]);
      var a := run[|run| - 1];
      if Allowed(c, s, a) then StepKeepsInv(c, s, a); Apply(c, s, a) else s
  }

  lemma {:induction false} StepKeepsInv(c: Config, s: System, a: Action)
    requires Inv(c, s) && Allowed(c, s, a)
    ensures Inv(c, Apply(c, s, a))
  {
    if a.Forge? {
      ForgeKeepsInv(c, s, a);
    } else {
      ActKeepsInv(c, s, a.node, a.event);
    }
  }

  /**
   * Agreement. In every run, two nodes that pass the precommit gate at the same height hold the
   * same proposal, if at most a third of the weight is faulty.
   */
  lemma {:induction false} Agreement(c: Config, run: seq<Action>, x: Decision, y: Decision)
    requires ConfigOk(c)
    requires x in After(c, run).decided && y in After(c, run).decided && x.height == y.height
    ensures x.hash == y.hash
  {
    var s := After(c, run);
    var p :| Backed(c, s.signed, x.height, x.hash, p);
    var q :| Backed(c, s.signed, y.height, y.hash, q);
    hide Weight;
    var k := QuorumsIntersect(c.w, p, q, c.faulty);
    assert Signed(k, x.height, x.hash) in s.signed && Signed(k, y.height, y.hash) in s.signed;
  }

  /** An honest validator never signs two precommits for one height, in any run. */
  lemma {:induction false} HonestSignsOnce(c: Config, run: seq<Action>, s: Signed, t: Signed)
    requires |c.w| == |c.faulty|
    requires s in After(c, run).signed && t in After(c, run).signed && s.validator == t.validator && s.height == t.height
    requires s.validator < |c.faulty| && !c.faulty[s.validator]
    ensures s.hash == t.hash
  {
    assert SignsOnce(c, After(c, run).signed);
  }
}
