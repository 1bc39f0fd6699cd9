/** Everything a node collects at one height: votes, proposals, accepts, commits and blocks. */
module HeightDatas {
  import opened Basics
  import opened Quorum
  import opened HeightStates
  import opened Signatures
  import opened CrossShardVotes
  import opened Assemblies
  import MerkleTree
  import MerkleProof
  import PartSets
  import Blocks

  /** The place of a shard in the graph of shards. */
  datatype ShardInfo = ShardInfo(layout: Layout, related: set<string>, related2: set<string>, isI: bool)

  /** What the configuration guarantees. */
  ghost predicate InfoOk(me: string, info: ShardInfo) {
    && me in info.layout.peers && me !in info.related && me !in info.related2
    && info.related <= info.layout.peers.Keys && Elements(RelatedOf(info.layout, me)) == info.related
    && forall c :: c in info.layout.peers ==> Total(info.layout.peers[c]) < LIMIT
  }

  datatype Proposal = Proposal(header: PartSets.PartSetHeader, hash: Hash, proposerIndex: int, signed: bool)

  /** What a validator signs when it precommits: everything but its index. */
  datatype PrecommitMsg = PrecommitMsg(height: int, round: int, hash: Hash, code: int)

  /** A recorded precommit; its height and round are the current ones. */
  datatype Precommit = Precommit(hash: Hash, code: int)

  /** Another shard's decided proposal: the aggregate of its precommits over the header's height and round. */
  datatype CrossShardProposal = CrossShardProposal(header: PartSets.PartSetHeader, hash: Hash, code: int, bits: seq<bool>,
                                                   agg: Aggregate<PrecommitMsg>)

  /** The hashes of recorded precommits. */
  function HashesOf(votes: seq<Option<Precommit>>): (l: seq<Option<Hash>>)
    ensures |l| == |votes| && forall i :: 0 <= i < |votes| ==> l[i] == if votes[i].Some? then Some(votes[i].value.hash) else None
  {
    seq(|votes|, i requires 0 <= i < |votes| => if votes[i].Some? then Some(votes[i].value.hash) else None)
  }

  predicate VerifyPrecommits(l: Layout, csp: CrossShardProposal) {
    csp.header.chainID in l.peers &&
    VerifyAggregate(csp.header.chainID, |l.peers[csp.header.chainID]|, csp.agg,
                    PrecommitMsg(csp.header.height, csp.header.round, csp.hash, csp.code), csp.bits)
  }

  // ----- aggregating recorded precommits -----

  /** The signatures of the counted precommits among the first n, each over its own code. */
  function Counted(chain: string, height: int, votes: seq<Option<Precommit>>, bits: seq<bool>, n: nat): Aggregate<PrecommitMsg>
    requires n <= |votes| == |bits| && forall i :: 0 <= i < |bits| && bits[i] ==> votes[i].Some?
  {
    if n == 0 then multiset{}
    else Counted(chain, height, votes, bits, n - 1)
         + if bits[n - 1]
           then multiset{Signature(chain, n - 1, PrecommitMsg(height, 0, votes[n - 1].value.hash, votes[n - 1].value.code))}
           else multiset{}
  }

  /** Every counted precommit among the first n is in favour. */
  predicate AllInFavour(votes: seq<Option<Precommit>>, bits: seq<bool>, n: nat)
    requires n <= |votes| == |bits|
  {
    forall i :: 0 <= i < n && bits[i] ==> votes[i].Some? && votes[i].value.code == CODE_OK
  }

  lemma {:induction false} CountedHas(chain: string, height: int, votes: seq<Option<Precommit>>, bits: seq<bool>, n: nat, i: nat)
    requires n <= |votes| == |bits| && forall j :: 0 <= j < |bits| && bits[j] ==> votes[j].Some?
    requires i < n && bits[i]
    ensures Signature(chain, i, PrecommitMsg(height, 0, votes[i].value.hash, votes[i].value.code)) in Counted(chain, height, votes, bits, n)
  {
    if i < n - 1 {
      CountedHas(chain, height, votes, bits, n - 1, i);
    }
  }

  lemma {:induction false} InFavourIsExpected(chain: string, height: int, hash: Hash, votes: seq<Option<Precommit>>, bits: seq<bool>, n: nat)
    requires n <= |votes| == |bits| && forall i :: 0 <= i < |bits| && bits[i] ==> votes[i].Some? && votes[i].value.hash == hash
    requires AllInFavour(votes, bits, n)
    ensures Counted(chain, height, votes, bits, n) == Expected(chain, PrecommitMsg(height, 0, hash, CODE_OK), bits, n)
  {
    if n > 0 {
      InFavourIsExpected(chain, height, hash, votes, bits, n - 1);
    }
  }

  /**
   * Precommits are counted by hash alone, but each is signed over its code as well. The
   * aggregate of the counted ones verifies as a decision in favour exactly if all of them are.
   */
  lemma {:induction false} CountedVerifiesIff(chain: string, height: int, hash: Hash, votes: seq<Option<Precommit>>, bits: seq<bool>)
    requires |votes| == |bits| && forall i :: 0 <= i < |bits| && bits[i] ==> votes[i].Some? && votes[i].value.hash == hash
    ensures VerifyAggregate(chain, |bits|, Counted(chain, height, votes, bits, |bits|), PrecommitMsg(height, 0, hash, CODE_OK), bits)
            <==> AllInFavour(votes, bits, |bits|)
  {
    var msg := PrecommitMsg(height, 0, hash, CODE_OK);
    if AllInFavour(votes, bits, |bits|) {
      InFavourIsExpected(chain, height, hash, votes, bits, |bits|);
    } else if Counted(chain, height, votes, bits, |bits|) == Expected(chain, msg, bits, |bits|) {
      var i :| 0 <= i < |bits| && bits[i] && votes[i].value.code != CODE_OK;
      CountedHas(chain, height, votes, bits, |bits|, i);
      ExpectedOnly(chain, msg, bits, |bits|, Signature(chain, i, PrecommitMsg(height, 0, votes[i].value.hash, votes[i].value.code)));
      assert false;
    }
  }

  /** One counted precommit against spoils the aggregate of three in favour, which alone are enough. */
  lemma {:induction false} OneAgainstSpoils(chain: string, height: int, hash: Hash)
    ensures var yes, no := Some(Precommit(hash, CODE_OK)), Some(Precommit(hash, CODE_OK + 1));
            var w, votes := [1, 1, 1, 1], [yes, yes, yes, no];
            && TwoThirds(Weight(w, [true, true, true, false]), Total(w))
            && VerifyAggregate(chain, 4, Counted(chain, height, votes, [true, true, true, false], 4), PrecommitMsg(height, 0, hash, CODE_OK),
                               [true, true, true, false])
            && !VerifyAggregate(chain, 4, Counted(chain, height, votes, [true, true, true, true], 4), PrecommitMsg(height, 0, hash, CODE_OK),
                                [true, true, true, true])
  {
    var yes, no := Some(Precommit(hash, CODE_OK)), Some(Precommit(hash, CODE_OK + 1));
    var votes := [yes, yes, yes, no];
    CountedVerifiesIff(chain, height, hash, votes, [true, true, true, false]);
    CountedVerifiesIff(chain, height, hash, votes, [true, true, true, true]);
    hide VerifyAggregate;
    hide Counted;
    assert !AllInFavour(votes, [true, true, true, true], 4) by {
      assert votes[3].value.code != CODE_OK;
    }
    WeighThree();
  }

  lemma {:induction false} WeighThree()
    ensures Weight([1, 1, 1, 1], [true, true, true, false]) == 3 && Total([1, 1, 1, 1]) == 4
  {
    assert [1, 1, 1, 1][1..] == [1, 1, 1] && [1, 1, 1][1..] == [1, 1] && [1, 1][1..] == [1] && [1][1..] == [];
    assert [true, true, true, false][1..] == [true, true, false] && [true, true, false][1..] == [true, false];
    assert [true, false][1..] == [false] && [false][1..] == [];
    assert Weight([1], [false]) == 0 && Total([1]) == 1;
    assert Weight([1, 1], [true, false]) == 1 && Total([1, 1]) == 2;
    assert Weight([1, 1, 1], [true, true, false]) == 2 && Total([1, 1, 1]) == 3;
  }

  datatype ProposalResult = ProposalAdded | ProposalIgnored | WrongProposer | OtherShard | ProposalUnsigned

  /** VoteFails means that the source looks up the bit of a negative index and fails. */
  datatype VoteResult = VoteFails | VoteAdded | VoteIgnored | IndexOutOfRange | VoteUnsigned

  datatype CspResult = CspAdded | CspIgnored | CspUnsigned | CspTooFewVotes

  datatype AcceptResult = AcceptIgnored | OtherUpper | NotRelated | Judged(r: AddResult)

  /** The verdict on a cross-shard proposal that is not known yet. */
  function JudgeProposal(l: Layout, height: int, csp: CrossShardProposal): CspResult {
    if csp.header.height != height then CspIgnored
    else if !VerifyPrecommits(l, csp) then CspUnsigned
    else if !TwoThirds(Weight(PeersOf(l, csp.header.chainID), csp.bits), Total(PeersOf(l, csp.header.chainID))) then CspTooFewVotes
    else CspAdded
  }

  /** The verdict on the parts of a certificate from part i on. */
  function JudgeParts(l: Layout, csc: CrossShardCommit, i: nat): CommitResult
    requires |csc.chains| == |RelatedOf(l, csc.upper)| && i <= |csc.chains|
    decreases |csc.chains| - i
  {
    if i == |csc.chains| then CommitOk
    else if RelatedOf(l, csc.upper)[i] != csc.chains[i] then WrongList
    else
      var r := ValidateVote(csc, PeersOf(l, csc.chains[i]), i);
      if r != CommitOk then r else JudgeParts(l, csc, i + 1)
  }

  /** Passing every part is being certified. */
  lemma {:induction false} JudgedIsCertified(l: Layout, csc: CrossShardCommit)
    requires |csc.chains| == |RelatedOf(l, csc.upper)|
    ensures JudgeParts(l, csc, 0) == CommitOk <==> Certified(l, csc)
  {
    JudgedParts(l, csc, 0);
    if JudgeParts(l, csc, 0) == CommitOk && |csc.chains| > 0 {
      assert ValidateVote(csc, PeersOf(l, csc.chains[|csc.chains| - 1]), |csc.chains| - 1) == CommitOk;
    }
    hide ValidateVote;
    hide RelatedOf;
    hide JudgeParts;
  }

  lemma {:induction false} CertifiedLength(l: Layout, csc: CrossShardCommit)
    requires Certified(l, csc)
    ensures |csc.chains| == |RelatedOf(l, csc.upper)|
  {
  }

  lemma {:induction false} JudgedParts(l: Layout, csc: CrossShardCommit, i: nat)
    requires |csc.chains| == |RelatedOf(l, csc.upper)| && i <= |csc.chains|
    ensures JudgeParts(l, csc, i) == CommitOk
            <==> forall j :: i <= j < |csc.chains| ==>
                   RelatedOf(l, csc.upper)[j] == csc.chains[j] && ValidateVote(csc, PeersOf(l, csc.chains[j]), j) == CommitOk
    decreases |csc.chains| - i
  {
    hide ValidateVote;
    hide RelatedOf;
    if i < |csc.chains| {
      JudgedParts(l, csc, i + 1);
    }
  }

  method CheckParts(l: Layout, csc: CrossShardCommit) returns (r: CommitResult)
    requires |csc.chains| == |RelatedOf(l, csc.upper)|
    ensures r == JudgeParts(l, csc, 0)
  {
    hide ValidateVote;
    var list := RelatedOf(l, csc.upper);
    for i := 0 to |list|
      invariant JudgeParts(l, csc, 0) == JudgeParts(l, csc, i)
    {
      if list[i] != csc.chains[i] {
        return WrongList;
      }
      var v := CheckVote(csc, PeersOf(l, csc.chains[i]), i);
      if v != CommitOk {
        return v;
      }
    }
    r := CommitOk;
  }

  /** The loop over a set that looks every key up. */
  method HasAll(keys: set<string>, held: set<string>) returns (ok: bool)
    ensures ok <==> keys <= held
  {
    var rest := keys;
    while rest != {}
      invariant rest <= keys && keys - rest <= held
      decreases |rest|
    {
      var key :| key in rest;
      if key !in held {
        return false;
      }
      rest := rest - {key};
    }
    return true;
  }

  lemma {:induction false} SubsetSize(a: set<string>, b: set<string>)
    requires a <= b
    ensures |a| <= |b| && (|a| == |b| ==> a == b)
  {
    if a != {} {
      var x :| x in a;
      SubsetSize(a - {x}, b - {x});
    } else if b != {} {
      var x :| x in b;
    }
  }

  /** Counts afresh the recorded votes that name the proposal, on top of empty counts. */
  method Recalculate(w: seq<nat>, hash: Hash, votes: seq<Option<Hash>>, before: seq<bool>, count: int) returns (bits: seq<bool>, total: int)
    requires BoxInv(w, None, Box(votes, before, count))
    ensures Box(votes, bits, total) == Recount(w, hash, Box(votes, before, count))
  {
    WeightNone(w, before);
    hide Weight;
    bits, total := before, count;
    for i := 0 to |votes|
      invariant |bits| == |w| && total == Weight(w, bits)
      invariant forall j :: 0 <= j < |w| ==> bits[j] == (j < i && votes[j] == Some(hash))
    {
      if votes[i].Some? && votes[i].value == hash {
        WeightSet(w, bits, i);
        bits := bits[i := true];
        total := total + w[i];
      }
    }
    assert bits == Voters(votes, hash);
  }

  /** Indices for which the look-up of a bit fails: those from -7 to -1 still lead to the first byte, if there is one. */
  predicate IndexFails(size: nat, index: int) {
    index <= -8 || (index < 0 && size == 0)
  }

  /** What AddPrevote and AddPrecommit answer. */
  function JudgeVote(w: seq<nat>, height: int, bits: seq<bool>, v: Ballot): VoteResult
    requires |bits| == |w|
  {
    if IndexFails(|w|, v.index) then VoteFails
    else if 0 <= v.index < |w| && bits[v.index] then VoteIgnored
    else if v.height != height || v.round != 0 then VoteIgnored
    else if v.index < 0 || v.index >= |w| then IndexOutOfRange
    else if !v.signed then VoteUnsigned
    else VoteAdded
  }

  /** The answers to a vote in plain terms; a vote is answered with "added" exactly if it is recorded. */
  lemma {:induction false} VoteAnswers(w: seq<nat>, height: int, b: Box, v: Ballot)
    requires |b.bits| == |w|
    ensures var r := JudgeVote(w, height, b.bits, v);
            var fails := v.index <= -8 || (v.index < 0 && w == []);
            var inRange := 0 <= v.index < |w|;
            && (r == VoteFails <==> fails)
            && (r == VoteAdded <==> inRange && !b.bits[v.index] && v.height == height && v.round == 0 && v.signed)
            && (r == VoteAdded <==> Records(w, height, b, v))
            && (r == VoteIgnored <==> !fails && ((inRange && b.bits[v.index]) || v.height != height || v.round != 0))
            && (r == IndexOutOfRange <==> !fails && !inRange && v.height == height && v.round == 0)
            && (r == VoteUnsigned <==> inRange && !b.bits[v.index] && v.height == height && v.round == 0 && !v.signed)
  {
  }

  /** The answers to a cross-shard proposal in plain terms. */
  lemma {:induction false} CspAnswers(l: Layout, height: int, csp: CrossShardProposal)
    ensures var chain := csp.header.chainID;
            var signed := chain in l.peers && |csp.bits| == |l.peers[chain]|
                          && csp.agg == Expected(chain, PrecommitMsg(csp.header.height, csp.header.round, csp.hash, csp.code), csp.bits, |csp.bits|);
            && (JudgeProposal(l, height, csp) == CspIgnored <==> csp.header.height != height)
            && (JudgeProposal(l, height, csp) == CspUnsigned <==> csp.header.height == height && !signed)
            && (JudgeProposal(l, height, csp) == CspAdded
                <==> csp.header.height == height && signed && 3 * Weight(l.peers[chain], csp.bits) > 2 * Total(l.peers[chain]))
  {
    if csp.header.chainID in l.peers && |csp.bits| == |l.peers[csp.header.chainID]| {
      TwoThirdsIs(Weight(l.peers[csp.header.chainID], csp.bits), Total(l.peers[csp.header.chainID]));
    }
    hide TwoThirds;
    hide Weight;
    hide Total;
    hide Expected;
  }

  /** The first part of a certificate that is not in order decides the answer. */
  lemma {:induction false} FirstBadPart(l: Layout, csc: CrossShardCommit, i: nat, k: nat)
    requires |csc.chains| == |RelatedOf(l, csc.upper)| && i <= k < |csc.chains|
    requires forall j :: i <= j < k ==> RelatedOf(l, csc.upper)[j] == csc.chains[j] && ValidateVote(csc, PeersOf(l, csc.chains[j]), j) == CommitOk
    requires RelatedOf(l, csc.upper)[k] != csc.chains[k] || ValidateVote(csc, PeersOf(l, csc.chains[k]), k) != CommitOk
    ensures JudgeParts(l, csc, i)
            == if RelatedOf(l, csc.upper)[k] != csc.chains[k] then WrongList else ValidateVote(csc, PeersOf(l, csc.chains[k]), k)
    decreases k - i
  {
    hide ValidateVote;
    hide RelatedOf;
    if i < k {
      FirstBadPart(l, csc, i + 1, k);
    }
  }

  /** Every proposal is the one of its key; a foreign one is for this height and signed by two thirds of its shard's weight. */
  ghost predicate AllBacked(proposals: map<string, CrossShardProposal>, me: string, height: int, l: Layout) {
    forall c :: c in proposals ==> proposals[c].header.chainID == c && (c != me ==> JudgeProposal(l, height, proposals[c]) == CspAdded)
  }

  /** The foreign part sets are those of the proposals, under the proposals' hashes. */
  ghost predicate SetsMatch(sets: map<string, Slots>, proposals: map<string, CrossShardProposal>, me: string) {
    forall c :: c != me ==> (c in sets <==> c in proposals) && (c in sets ==> sets[c].hash == proposals[c].hash)
  }

  /** A part set announced for a proposal fits that proposal. */
  lemma {:induction false} SetsMatchAnnounced(a: Assembly, header: PartSets.PartSetHeader, hash: Hash, proposals: map<string, CrossShardProposal>,
                                              csp: CrossShardProposal, me: string)
    requires SetsMatch(a.sets, proposals, me) && HeaderOk(header)
    ensures csp.hash == hash ==> SetsMatch(Announce(a, header, hash).sets, proposals[header.chainID := csp], me)
    ensures header.chainID == me ==> SetsMatch(Announce(a, header, hash).sets, proposals, me)
  {
  }

  lemma {:induction false} OwnFits(sets: map<string, Slots>, proposals: map<string, CrossShardProposal>, csp: CrossShardProposal,
                                   me: string, height: int, l: Layout)
    requires AllBacked(proposals, me, height, l) && SetsMatch(sets, proposals, me)
    requires csp.header.chainID == me
    ensures AllBacked(proposals[me := csp], me, height, l) && SetsMatch(sets, proposals[me := csp], me)
  {
    hide JudgeProposal;
  }

  lemma {:induction false} SetsMatchGrown(h: MerkleTree.Hasher, a: Assembly, b: Assembly, chain: string, proposals: map<string, CrossShardProposal>, me: string)
    requires SetsMatch(a.sets, proposals, me) && Grown(h, a, b, chain)
    ensures SetsMatch(b.sets, proposals, me)
  {
  }

  /** Every related C-shard's proposal and block are held, and one more of each. */
  predicate Gate(need: set<string>, size: nat, proposals: map<string, CrossShardProposal>, blocks: map<string, Blocks.Block>) {
    |proposals| >= size + 1 && |blocks| >= size + 1 && need <= proposals.Keys && need <= blocks.Keys
  }

  /** More proposals and more blocks keep a gate open. */
  lemma {:induction false} GateGrows(need: set<string>, size: nat, p: map<string, CrossShardProposal>, b: map<string, Blocks.Block>,
                                     q: map<string, CrossShardProposal>, d: map<string, Blocks.Block>)
    requires Gate(need, size, p, b) && p.Keys <= q.Keys && b.Keys <= d.Keys
    ensures Gate(need, size, q, d)
  {
    SubsetSize(p.Keys, q.Keys);
    SubsetSize(b.Keys, d.Keys);
    assert |p.Keys| == |p| && |q.Keys| == |q| && |b.Keys| == |b| && |d.Keys| == |d|;
  }

  /** A valid collector of a chain's accepts for a height. */
  ghost predicate CollectorOk(s: CSAShardSet, c: string, height: int, votes: seq<nat>)
    reads s
  {
    s.Valid() && s.Height == height && s.ChainID == c && s.Votes == votes
  }

  /** One valid collector per chain, no two of them the same object. */
  ghost predicate CollectorsOk(m: map<string, CSAShardSet>, chains: set<string>, height: int, l: Layout)
    reads m.Values
  {
    && m.Keys == chains
    && (forall c :: c in m ==> CollectorOk(m[c], c, height, PeersOf(l, c)))
    && (forall c, d :: c in m && d in m && c != d ==> m[c] != m[d])
  }

  ghost function DecidedIn(m: map<string, CSAShardSet>): (s: set<string>)
    reads m.Values
    ensures s <= m.Keys
  {
    set c | c in m && m[c].HasMaj23Flag
  }

  /** Nothing was recorded yet. */
  ghost predicate NothingRecorded(m: map<string, CSAShardSet>, l: Layout)
    reads m.Values
  {
    forall c :: c in m ==> m[c].rec == seq(|PeersOf(l, c)|, _ => None)
  }

  lemma {:induction false} NothingHeld(me: string, height: int, l: Layout, h: MerkleTree.Hasher)
    ensures AllBacked(map[], me, height, l) && SetsMatch(map[], map[], me) && AssemblyOk(h, Assembly(map[], map[], map[]), me, height)
  {
  }

  lemma {:induction false} NoCollectors(m: map<string, CSAShardSet>, height: int, l: Layout)
    requires m == map[]
    ensures CollectorsOk(m, {}, height, l) && DecidedIn(m) == {} && NothingRecorded(m, l) && m.Values == {}
  {
  }

  method NewCollectors(chains: set<string>, height: int, l: Layout) returns (m: map<string, CSAShardSet>)
    requires forall c :: c in chains ==> Total(PeersOf(l, c)) < LIMIT
    ensures CollectorsOk(m, chains, height, l) && DecidedIn(m) == {} && NothingRecorded(m, l) && fresh(m.Values)
  {
    hide CollectorsOk;
    hide DecidedIn;
    hide NothingRecorded;
    hide Total;
    hide PeersOf;
    m := map[];
    NoCollectors(m, height, l);
    var rest, done := chains, {};
    while rest != {}
      invariant rest + done == chains && rest !! done
      invariant CollectorsOk(m, done, height, l) && DecidedIn(m) == {} && NothingRecorded(m, l) && fresh(m.Values)
      decreases |rest|
    {
      var c :| c in rest;
      m := WithCollector(m, c, done, height, l);
      rest, done := rest - {c}, done + {c};
    }
  }

  /** One more collector beside the others. */
  method WithCollector(m: map<string, CSAShardSet>, c: string, done: set<string>, height: int, l: Layout) returns (n: map<string, CSAShardSet>)
    requires CollectorsOk(m, done, height, l) && DecidedIn(m) == {} && NothingRecorded(m, l) && c !in done && Total(PeersOf(l, c)) < LIMIT
    ensures CollectorsOk(n, done + {c}, height, l) && DecidedIn(n) == {} && NothingRecorded(n, l) && fresh(n.Values - m.Values)
  {
    hide CollectorOk;
    hide Total;
    hide PeersOf;
    var s := NewCollector(c, height, PeersOf(l, c));
    assert forall d :: d in m ==> m[d] in m.Values && m[d] != s;
    n := m[c := s];
  }

  method NewCollector(c: string, height: int, votes: seq<nat>) returns (s: CSAShardSet)
    requires Total(votes) < LIMIT
    ensures fresh(s) && CollectorOk(s, c, height, votes) && !s.HasMaj23Flag && s.rec == seq(|votes|, _ => None)
  {
    hide Total;
    s := new CSAShardSet(height, c, votes);
  }

  class HeightData {
    const hasher: MerkleTree.Hasher
    const decode: Decoder
    const MyChainID: string
    const info: ShardInfo

    var Height: int
    var PassStep: int
    var Proposal: Option<Proposal>
    var Prevotes: seq<Option<Hash>>
    var PrevotesBitVector: seq<bool>
    var PrevotesTotal: int
    var Precommits: seq<Option<Precommit>>
    var PrecommitsBitVector: seq<bool>
    var PrecommitsTotal: int
    var CrossShardProposals: map<string, CrossShardProposal>
    var CrossShardAccepts: map<string, CSAShardSet>
    var CrossShardAcceptFinishCounter: int
    var CrossShardCommits: map<string, CrossShardCommit>
    var CrossShardPartSets: map<string, Slots>
    var CrossShardBlocks: map<string, Blocks.Block>
    var randomHeaderBuffer: map<string, seq<PartSets.Part>>

    // ----- abstraction -----

    function Votes(): (w: seq<nat>) {
      PeersOf(info.layout, MyChainID)
    }

    ghost function PrevoteBox(): Box
      reads this`Prevotes, this`PrevotesBitVector, this`PrevotesTotal
    {
      Box(Prevotes, PrevotesBitVector, PrevotesTotal)
    }

    ghost function PrecommitBox(): Box
      reads this`Precommits, this`PrecommitsBitVector, this`PrecommitsTotal
    {
      Box(HashesOf(Precommits), PrecommitsBitVector, PrecommitsTotal)
    }

    ghost function ProposalHash(): Option<Hash>
      reads this`Proposal
    {
      if Proposal.Some? then Some(Proposal.value.hash) else None
    }

    ghost function OwnBlock(): Option<Hash>
      reads this`CrossShardBlocks
    {
      if MyChainID in CrossShardBlocks then Some(Blocks.HashOf(hasher, CrossShardBlocks[MyChainID])) else None
    }

    /** The in-shard part of the data: one round as in HeightStates. */
    ghost function InShard(): Round
      reads this`Height, this`PassStep, this`Proposal, this`CrossShardBlocks, this`Prevotes, this`PrevotesBitVector, this`PrevotesTotal,
            this`Precommits, this`PrecommitsBitVector, this`PrecommitsTotal
    {
      Round(Height, PassStep, ProposalHash(), OwnBlock(), PrevoteBox(), PrecommitBox())
    }

    ghost function Assembled(): Assembly
      reads this`CrossShardPartSets, this`CrossShardBlocks, this`randomHeaderBuffer
    {
      Assembly(CrossShardPartSets, CrossShardBlocks, randomHeaderBuffer)
    }

    /** The I-shards whose collector has a two-thirds accept. */
    ghost function Decided(): set<string>
      reads this`CrossShardAccepts, CrossShardAccepts.Values
    {
      DecidedIn(CrossShardAccepts)
    }

    ghost predicate AllDecided()
      reads this`CrossShardAccepts, CrossShardAccepts.Values
    {
      Decided() == info.related
    }

    // ----- the invariant -----

    /** One valid collector per related shard, and the counter counts the decided ones. */
    ghost predicate Collecting()
      reads this`Height, this`CrossShardAccepts, this`CrossShardAcceptFinishCounter, CrossShardAccepts.Values
    {
      && CollectorsOk(CrossShardAccepts, info.related, Height, info.layout)
      && CrossShardAcceptFinishCounter == |Decided()|
    }

    /** Every held cross-shard proposal is backed by two thirds of its shard; foreign part sets belong to one. */
    ghost predicate Proposing()
      reads this`Height, this`CrossShardProposals, this`CrossShardPartSets
    {
      && AllBacked(CrossShardProposals, MyChainID, Height, info.layout) && SetsMatch(CrossShardPartSets, CrossShardProposals, MyChainID)
    }

    /** Every held foreign commit is a certificate of a neighbour for this height. */
    ghost predicate Committing()
      reads this`Height, this`CrossShardCommits
    {
      forall c :: c in CrossShardCommits && c != MyChainID ==> c in info.related + info.related2 && CommitHeld(c)
    }

    ghost predicate CommitHeld(c: string)
      requires c in CrossShardCommits
      reads this`Height, this`CrossShardCommits
    {
      CrossShardCommits[c].upper == c && CrossShardCommits[c].height == Height && Certified(info.layout, CrossShardCommits[c])
    }

    /** The accept gate of an I-shard: every related C-shard's proposal and block are here. */
    predicate AcceptGate()
      reads this`CrossShardProposals, this`CrossShardBlocks
    {
      Gate(info.related, |info.related|, CrossShardProposals, CrossShardBlocks)
    }

    /** The commit gate of an I-shard: every related C-shard's certificate is here. */
    predicate CommitGateI()
      reads this`CrossShardCommits
    {
      |CrossShardCommits| >= |info.related| && info.related <= CrossShardCommits.Keys
    }

    /** The commit gate of a C-shard: blocks and proposals of both neighbourhoods, certificates of the other C-shards. */
    predicate CommitGateC()
      reads this`CrossShardProposals, this`CrossShardBlocks, this`CrossShardCommits
    {
      && |CrossShardCommits| >= |info.related2| + 1
      && Gate(info.related + info.related2, |info.related| + |info.related2|, CrossShardProposals, CrossShardBlocks)
      && info.related2 <= CrossShardCommits.Keys
    }

    /** Every passed cross-shard gate's condition holds. */
    ghost predicate Passed()
      reads this`PassStep, this`CrossShardProposals, this`CrossShardBlocks, this`CrossShardCommits, this`CrossShardAccepts, CrossShardAccepts.Values
    {
      && (PassStep >= STEP_CROSS_SHARD_ACCEPT && info.isI ==> AcceptGate())
      && (PassStep >= STEP_CROSS_SHARD_PROPOSE && !info.isI ==> AllDecided())
      && (PassStep >= STEP_CROSS_SHARD_COMMIT ==> info.isI && CommitGateI())
    }

    ghost predicate Voting()
      reads this`Height, this`PassStep, this`Proposal, this`CrossShardBlocks, this`Prevotes, this`PrevotesBitVector, this`PrevotesTotal,
            this`Precommits, this`PrecommitsBitVector, this`PrecommitsTotal
    {
      RoundInv(Votes(), InShard()) && (Proposal.Some? ==> HeaderFits(Proposal.value.header))
    }

    /** A well-formed header of this shard's block for this height. */
    predicate HeaderFits(header: PartSets.PartSetHeader)
      reads this`Height
    {
      HeaderOk(header) && header.chainID == MyChainID && header.height == Height && header.round == 0
    }

    /** The round after the I-shard's accept gate. */
    ghost function PassAccept(r: Round): Round
      requires RoundInv(Votes(), r)
      reads this`CrossShardProposals, this`CrossShardBlocks
    {
      var q := PassPrecommit(Votes(), r);
      if q.passStep == STEP_PRECOMMIT && AcceptGate() then q.(passStep := STEP_CROSS_SHARD_ACCEPT) else q
    }

    /** The round after the C-shard's certifying gate. */
    ghost function PassCertify(r: Round): Round
      requires RoundInv(Votes(), r)
      reads this`CrossShardAccepts, CrossShardAccepts.Values
    {
      var q := PassPrecommit(Votes(), r);
      if q.passStep == STEP_PRECOMMIT && AllDecided() then q.(passStep := STEP_CROSS_SHARD_PROPOSE) else q
    }

    /** The round after the I-shard's commit gate. */
    ghost function PassCommitI(r: Round): Round
      requires RoundInv(Votes(), r)
      reads this`CrossShardProposals, this`CrossShardBlocks, this`CrossShardCommits
    {
      var q := PassAccept(r);
      if q.passStep == STEP_CROSS_SHARD_ACCEPT && CommitGateI() then q.(passStep := STEP_CROSS_SHARD_COMMIT) else q
    }

    /** The part that gates leave alone. */
    ghost predicate Collected()
      reads this`Height, this`CrossShardProposals, this`CrossShardAccepts, this`CrossShardAcceptFinishCounter, this`CrossShardCommits,
            this`CrossShardPartSets, this`CrossShardBlocks, this`randomHeaderBuffer, CrossShardAccepts.Values
    {
      && InfoOk(MyChainID, info)
      && Collecting() && Proposing() && Committing()
      && AssemblyOk(hasher, Assembled(), MyChainID, Height)
    }

    ghost predicate Valid()
      reads this, CrossShardAccepts.Values
    {
      Voting() && Passed() && Collected()
    }

    // ----- a new height -----

    constructor (hasher: MerkleTree.Hasher, decode: Decoder, chain: string, height: int, info: ShardInfo)
      requires InfoOk(chain, info)
      ensures Valid() && fresh(CrossShardAccepts.Values)
      ensures this.hasher == hasher && this.decode == decode && MyChainID == chain && this.info == info
      ensures InShard() == NewRound(|PeersOf(info.layout, chain)|, height)
      ensures CrossShardProposals == map[] && CrossShardCommits == map[] && Assembled() == Assembly(map[], map[], map[])
      ensures NothingRecorded(CrossShardAccepts, info.layout)
    {
      this.hasher, this.decode, MyChainID, this.info := hasher, decode, chain, info;
      Height, PassStep := height, STEP_NEW_HEIGHT;
      CrossShardAccepts := map[];
      new;
      ClearAll();
    }

    method ClearVotes()
      modifies this`Proposal, this`Prevotes, this`PrevotesBitVector, this`PrevotesTotal, this`Precommits, this`PrecommitsBitVector, this`PrecommitsTotal
      ensures Proposal == None && PrevoteBox() == EmptyBox(|Votes()|) && PrecommitBox() == EmptyBox(|Votes()|)
    {
      var size := |Votes()|;
      Proposal := None;
      Prevotes, PrevotesBitVector, PrevotesTotal := seq(size, _ => None), seq(size, _ => false), 0;
      Precommits, PrecommitsBitVector, PrecommitsTotal := seq(size, _ => None), seq(size, _ => false), 0;
    }

    method ClearCrossShardData()
      requires InfoOk(MyChainID, info)
      modifies this`CrossShardProposals, this`CrossShardAccepts, this`CrossShardAcceptFinishCounter, this`CrossShardCommits,
               this`CrossShardPartSets, this`CrossShardBlocks, this`randomHeaderBuffer
      ensures Collected() && fresh(CrossShardAccepts.Values)
      ensures CrossShardProposals == map[] && CrossShardCommits == map[] && Assembled() == Assembly(map[], map[], map[])
      ensures NothingRecorded(CrossShardAccepts, info.layout)
    {
      hide CollectorsOk;
      hide DecidedIn;
      hide NothingRecorded;
      hide CollectorOk;
      hide Total;
      hide AssemblyOk;
      hide AllBacked;
      hide SetsMatch;
      NothingHeld(MyChainID, Height, info.layout, hasher);
      CrossShardProposals, CrossShardCommits := map[], map[];
      CrossShardPartSets, CrossShardBlocks, randomHeaderBuffer := map[], map[], map[];
      CrossShardAccepts := NewCollectors(info.related, Height, info.layout);
      CrossShardAcceptFinishCounter := 0;
    }

    /** Forgets everything but the height. */
    method ClearAll()
      requires InfoOk(MyChainID, info) && PassStep == STEP_NEW_HEIGHT
      modifies this
      ensures Valid() && fresh(CrossShardAccepts.Values)
      ensures InShard() == NewRound(|Votes()|, old(Height)) && Height == old(Height)
      ensures CrossShardProposals == map[] && CrossShardCommits == map[] && Assembled() == Assembly(map[], map[], map[])
      ensures NothingRecorded(CrossShardAccepts, info.layout)
    {
      hide Collected;
      hide Weight;
      hide InfoOk;
      EmptyBoxInv(Votes(), None);
      ClearVotes();
      ClearCrossShardData();
    }

    method NextHeight()
      requires Valid()
      modifies this
      ensures Valid() && fresh(CrossShardAccepts.Values)
      ensures InShard() == NewRound(|Votes()|, old(Height) + 1)
      ensures CrossShardProposals == map[] && CrossShardCommits == map[] && Assembled() == Assembly(map[], map[], map[])
      ensures forall c :: c in CrossShardAccepts ==> CrossShardAccepts[c].rec == seq(|PeersOf(info.layout, c)|, _ => None)
    {
      Height := Height + 1;
      PassStep := STEP_NEW_HEIGHT;
      ClearAll();
    }

    // ----- gates -----

    /** The in-shard gates on the node's data, and that passing them keeps the round's invariant. */
    lemma {:induction false} GatesHere()
      requires Valid()
      ensures RoundInv(Votes(), PassProposal(InShard())) && RoundInv(Votes(), PassPrevote(Votes(), InShard()))
      ensures RoundInv(Votes(), PassPrecommit(Votes(), InShard()))
      ensures PassProposal(InShard()).passStep >= STEP_PROPOSE <==> Proposal.Some? && MyChainID in CrossShardBlocks
      ensures PassPrevote(Votes(), InShard()).passStep >= STEP_PREVOTE
              <==> && Proposal.Some? && MyChainID in CrossShardBlocks
                   && 3 * Weight(Votes(), Voters(Prevotes, Proposal.value.hash)) > 2 * Total(Votes())
      ensures PassPrecommit(Votes(), InShard()).passStep >= STEP_PRECOMMIT
              <==> && Proposal.Some? && MyChainID in CrossShardBlocks
                   && 3 * Weight(Votes(), Voters(Prevotes, Proposal.value.hash)) > 2 * Total(Votes())
                   && 3 * Weight(Votes(), Voters(HashesOf(Precommits), Proposal.value.hash)) > 2 * Total(Votes())
    {
      hide Collected;
      hide Passed;
      hide RoundInv;
      hide PassProposal;
      hide PassPrevote;
      hide PassPrecommit;
      hide Weight;
      hide Total;
      hide Voters;
      GatesOpenIff(Votes(), InShard());
      EventsKeepRound(Votes(), InShard(), [], false, Ballot(0, 0, [], 0, CODE_OK, false));
    }

    /**
     * When the cross-shard gates are open, in plain terms. The accept gate needs the precommit gate,
     * every related C-shard's proposal and block, and one more of each; the commit gate, besides,
     * every related certificate. The certifying gate needs the precommit gate and, of every related
     * I-shard, accepts for one status that weigh more than two thirds.
     */
    lemma {:induction false} CrossGatesOpenIff()
      requires Valid()
      ensures RoundInv(Votes(), InShard())
      ensures info.isI ==>
                (PassAccept(InShard()).passStep >= STEP_CROSS_SHARD_ACCEPT
                 <==> && PassPrecommit(Votes(), InShard()).passStep >= STEP_PRECOMMIT
                      && info.related <= CrossShardProposals.Keys && info.related <= CrossShardBlocks.Keys
                      && |CrossShardProposals| > |info.related| && |CrossShardBlocks| > |info.related|)
      ensures info.isI ==>
                (PassCommitI(InShard()).passStep >= STEP_CROSS_SHARD_COMMIT
                 <==> PassAccept(InShard()).passStep >= STEP_CROSS_SHARD_ACCEPT && info.related <= CrossShardCommits.Keys)
      ensures !info.isI ==>
                (PassCertify(InShard()).passStep >= STEP_CROSS_SHARD_PROPOSE
                 <==> && PassPrecommit(Votes(), InShard()).passStep >= STEP_PRECOMMIT
                      && forall c :: c in info.related ==>
                           c in CrossShardAccepts && exists status ::
                             3 * Tally(CrossShardAccepts[c].Votes, CrossShardAccepts[c].rec, status) > 2 * Total(CrossShardAccepts[c].Votes))
      ensures CommitGateC()
              <==> && info.related <= CrossShardProposals.Keys && info.related2 <= CrossShardProposals.Keys
                   && info.related <= CrossShardBlocks.Keys && info.related2 <= CrossShardBlocks.Keys
                   && |CrossShardProposals| > |info.related| + |info.related2| && |CrossShardBlocks| > |info.related| + |info.related2|
                   && info.related2 <= CrossShardCommits.Keys && |CrossShardCommits| > |info.related2|
    {
      hide RoundInv;
      hide PassPrecommit;
      hide Collected;
      hide Tally;
      hide Total;
      PassedStays(Votes(), InShard());
      if info.isI {
        CommitsCount();
      } else {
        DecidedIff();
      }
    }

    lemma {:induction false} CommitsCount()
      ensures info.related <= CrossShardCommits.Keys ==> |CrossShardCommits| >= |info.related|
    {
      if info.related <= CrossShardCommits.Keys {
        SubsetSize(info.related, CrossShardCommits.Keys);
        assert |CrossShardCommits.Keys| == |CrossShardCommits|;
      }
    }

    /** All collectors are decided exactly if each has a status with more than two thirds. */
    lemma {:induction false} DecidedIff()
      requires Collected()
      ensures AllDecided() <==> forall c :: c in info.related ==>
                c in CrossShardAccepts && exists status ::
                  3 * Tally(CrossShardAccepts[c].Votes, CrossShardAccepts[c].rec, status) > 2 * Total(CrossShardAccepts[c].Votes)
    {
      hide Tally;
      hide Total;
      forall c | c in CrossShardAccepts
        ensures CrossShardAccepts[c].HasMaj23Flag
                <==> exists status :: 3 * Tally(CrossShardAccepts[c].Votes, CrossShardAccepts[c].rec, status) > 2 * Total(CrossShardAccepts[c].Votes)
      {
        assert CollectorOk(CrossShardAccepts[c], c, Height, PeersOf(info.layout, c));
        CrossShardAccepts[c].FlagIff();
      }
    }

    method FinishProposal() returns (ok: bool)
      requires Valid()
      modifies this`PassStep
      ensures Valid() && InShard() == PassProposal(old(InShard()))
      ensures ok <==> PassStep >= STEP_PROPOSE
    {
      hide Collected;
      hide Total;
      hide Weight;
      if PassStep >= STEP_PROPOSE {
        return true;
      }
      if Proposal.None? {
        return false;
      }
      if MyChainID !in CrossShardBlocks {
        return false;
      }
      PassStep := STEP_PROPOSE;
      return true;
    }

    method FinishPrevote() returns (ok: bool)
      requires Valid()
      modifies this`PassStep
      ensures Valid() && InShard() == PassPrevote(Votes(), old(InShard()))
      ensures ok <==> PassStep >= STEP_PREVOTE
    {
      hide Collected;
      hide Total;
      hide Weight;
      if PassStep >= STEP_PREVOTE {
        return true;
      }
      var proposed := FinishProposal();
      if !proposed {
        return false;
      }
      if !TwoThirds(PrevotesTotal, Total(Votes())) {
        return false;
      }
      PassStep := STEP_PREVOTE;
      return true;
    }

    method FinishPrecommit() returns (ok: bool)
      requires Valid()
      modifies this`PassStep
      ensures Valid() && InShard() == PassPrecommit(Votes(), old(InShard()))
      ensures ok <==> PassStep >= STEP_PRECOMMIT
    {
      hide Collected;
      hide Total;
      hide Weight;
      if PassStep >= STEP_PRECOMMIT {
        return true;
      }
      var prevoted := FinishPrevote();
      if !prevoted {
        return false;
      }
      if !TwoThirds(PrecommitsTotal, Total(Votes())) {
        return false;
      }
      PassStep := STEP_PRECOMMIT;
      return true;
    }

    /** The I-shard's gate before it accepts. */
    method FinishCrossShardAccept() returns (ok: bool)
      requires Valid() && info.isI
      modifies this`PassStep
      ensures Valid() && (ok <==> PassStep >= STEP_CROSS_SHARD_ACCEPT)
      ensures InShard() == PassAccept(old(InShard()))
    {
      hide Collected;
      hide Total;
      hide Weight;
      hide TwoThirds;
      hide BoxInv;
      hide AcceptGate;
      hide PassPrecommit;
      PassedStays(Votes(), InShard());
      if PassStep >= STEP_CROSS_SHARD_ACCEPT {
        return true;
      }
      var precommitted := FinishPrecommit();
      if !precommitted {
        return false;
      }
      var related := HasRelated();
      if !related {
        return false;
      }
      PassStep := STEP_CROSS_SHARD_ACCEPT;
      return true;
    }

    /** Whether every related C-shard's proposal and block are here. */
    method HasRelated() returns (ok: bool)
      ensures ok <==> AcceptGate()
    {
      if |CrossShardProposals| < |info.related| + 1 {
        return false;
      }
      if |CrossShardBlocks| < |info.related| + 1 {
        return false;
      }
      var proposals := HasAll(info.related, CrossShardProposals.Keys);
      var blocks := HasAll(info.related, CrossShardBlocks.Keys);
      return proposals && blocks;
    }

    lemma {:induction false} CounterMeans()
      requires Collected()
      ensures CrossShardAcceptFinishCounter >= |info.related| <==> AllDecided()
    {
      SubsetSize(Decided(), info.related);
    }

    /** The C-shard's gate before it certifies: every related I-shard accepted. */
    method FinishCrossShardProposal() returns (ok: bool)
      requires Valid() && !info.isI
      modifies this`PassStep
      ensures Valid() && (ok <==> PassStep >= STEP_CROSS_SHARD_PROPOSE)
      ensures InShard() == PassCertify(old(InShard()))
    {
      hide Collected;
      hide Total;
      hide Weight;
      hide TwoThirds;
      hide BoxInv;
      hide AllDecided;
      hide PassPrecommit;
      PassedStays(Votes(), InShard());
      CounterMeans();
      if PassStep >= STEP_CROSS_SHARD_PROPOSE {
        return true;
      }
      var precommitted := FinishPrecommit();
      if !precommitted {
        return false;
      }
      if CrossShardAcceptFinishCounter < |info.related| {
        return false;
      }
      PassStep := STEP_CROSS_SHARD_PROPOSE;
      return true;
    }

    method FinishCrossShardCommit_I() returns (ok: bool)
      requires Valid() && info.isI
      modifies this`PassStep
      ensures PassStep >= old(PassStep)
      ensures Valid() && (ok <==> PassStep >= STEP_CROSS_SHARD_COMMIT)
      ensures ok ==> AcceptGate() && CommitGateI()
      ensures InShard() == PassCommitI(old(InShard()))
    {
      hide Blocks.HashOf;
      hide Collected;
      hide Total;
      hide Weight;
      hide TwoThirds;
      hide BoxInv;
      if PassStep >= STEP_CROSS_SHARD_COMMIT {
        return true;
      }
      var accepted := FinishCrossShardAccept();
      if !accepted {
        return false;
      }
      if |CrossShardCommits| < |info.related| {
        return false;
      }
      var commits := HasAll(info.related, CrossShardCommits.Keys);
      if !commits {
        return false;
      }
      PassStep := STEP_CROSS_SHARD_COMMIT;
      return true;
    }

    /** The C-shard's last gate leaves no mark of its own. */
    method FinishCrossShardCommit_B() returns (ok: bool)
      requires Valid() && !info.isI
      modifies this`PassStep
      ensures PassStep >= old(PassStep)
      ensures Valid() && (ok <==> PassStep >= STEP_CROSS_SHARD_PROPOSE && CommitGateC())
      ensures ok ==> AllDecided()
      ensures InShard() == PassCertify(old(InShard()))
    {
      hide Collected;
      hide Total;
      hide Weight;
      hide TwoThirds;
      hide BoxInv;
      hide CommitGateC;
      if PassStep >= STEP_CROSS_SHARD_COMMIT {
        return true;
      }
      var certified := FinishCrossShardProposal();
      if !certified {
        return false;
      }
      ok := HasNeighbourhood();
    }

    /** Whether both neighbourhoods' blocks, proposals and certificates are here. */
    method HasNeighbourhood() returns (ok: bool)
      ensures ok <==> CommitGateC()
    {
      if |CrossShardCommits| < |info.related2| + 1 {
        return false;
      }
      if |CrossShardProposals| < |info.related| + |info.related2| + 1 {
        return false;
      }
      if |CrossShardBlocks| < |info.related| + |info.related2| + 1 {
        return false;
      }
      var blocks1 := HasAll(info.related, CrossShardBlocks.Keys);
      var proposals1 := HasAll(info.related, CrossShardProposals.Keys);
      if !blocks1 || !proposals1 {
        return false;
      }
      var blocks2 := HasAll(info.related2, CrossShardBlocks.Keys);
      var proposals2 := HasAll(info.related2, CrossShardProposals.Keys);
      var commits2 := HasAll(info.related2, CrossShardCommits.Keys);
      return blocks2 && proposals2 && commits2;
    }

    // ----- parts and proposals -----

    /** A part is placed in its set, or kept aside; the completed set's block is decoded and stored. */
    method AddInnerPart(p: PartSets.Part) returns (ok: bool)
      requires AssemblyOk(hasher, Assembled(), MyChainID, Height) && MerkleProof.ValidateBasic(p.proof) == MerkleProof.Passed
      modifies this`CrossShardPartSets, this`CrossShardBlocks, this`randomHeaderBuffer
      ensures Assembled() == Take(hasher, decode, Height, old(Assembled()), p)
      ensures AssemblyOk(hasher, Assembled(), MyChainID, Height)
      ensures ok <==> Welcome(hasher, decode, Height, old(Assembled()), p)
    {
      hide PartSets.AllSound;
      hide BlockOk;
      hide MerkleProof.Verify;
      TakeKeepsAssembly(hasher, decode, MyChainID, Height, Assembled(), p);
      hide AllBasic;
      if Height != p.height || p.round != 0 {
        return false;
      }
      if p.chainID !in CrossShardPartSets {
        var early := if p.chainID in randomHeaderBuffer then randomHeaderBuffer[p.chainID] else [];
        randomHeaderBuffer := randomHeaderBuffer[p.chainID := early + [p]];
        return false;
      }
      var s := CrossShardPartSets[p.chainID];
      if PartSets.Judge(hasher, s.header, s.parts, p) != PartSets.Accepted {
        return false;
      }
      var t := Place(hasher, s, p);
      CrossShardPartSets := CrossShardPartSets[p.chainID := t];
      if PartSets.Filled(t.parts) != |t.parts| {
        return true;
      }
      var block := GenBlock(hasher, decode, t);
      if block.Some? {
        CrossShardBlocks := CrossShardBlocks[p.chainID := block.value];
      }
      ok := block.Some?;
    }

    /** Offers the parts that came early to the part set just announced. */
    method AddEarlyParts(chain: string)
      requires AssemblyOk(hasher, Assembled(), MyChainID, Height) && chain in CrossShardPartSets
      modifies this`CrossShardPartSets, this`CrossShardBlocks, this`randomHeaderBuffer
      ensures AssemblyOk(hasher, Assembled(), MyChainID, Height)
      ensures Grown(hasher, old(Assembled()), Assembled(), chain)
      ensures Assembled() == EarlyTaken(hasher, decode, MyChainID, Height, old(Assembled()), chain)
    {
      hide AssemblyOk;
      hide Take;
      hide Welcome;
      hide Grown;
      ghost var before := Assembled();
      EarlyPartsGrow(hasher, decode, MyChainID, Height, before, chain);
      if chain in randomHeaderBuffer {
        var parts := randomHeaderBuffer[chain];
        EarlyPartsOk(hasher, before, MyChainID, Height, chain);
        for i := 0 to |parts|
          invariant AssemblyOk(hasher, Assembled(), MyChainID, Height)
          invariant Assembled() == TakeAll(hasher, decode, MyChainID, Height, before, parts, i)
        {
          assert MerkleProof.ValidateBasic(parts[i].proof) == MerkleProof.Passed;
          var ok := AddInnerPart(parts[i]);
        }
      }
    }

    /** Growth of the assembly keeps everything that rests on it. */
    lemma {:induction false} GrowthKeeps(a: Assembly, chain: string)
      requires Grown(hasher, a, Assembled(), chain) && SetsMatch(a.sets, CrossShardProposals, MyChainID)
      ensures SetsMatch(CrossShardPartSets, CrossShardProposals, MyChainID)
      ensures Gate(info.related, |info.related|, CrossShardProposals, a.blocks) ==> AcceptGate()
      ensures MyChainID in a.blocks ==> OwnBlock().Some?
      ensures OwnBlock().Some? ==> (MyChainID in a.blocks && OwnBlock() == Some(Blocks.HashOf(hasher, a.blocks[MyChainID]))) ||
                                   (MyChainID == chain && OwnBlock() == Some(a.sets[chain].hash))
    {
      SetsMatchGrown(hasher, a, Assembled(), chain, CrossShardProposals, MyChainID);
      GrownBlocks(hasher, a, Assembled(), chain);
      hide Grown;
      hide SetsMatch;
      if Gate(info.related, |info.related|, CrossShardProposals, a.blocks) {
        GateGrows(info.related, |info.related|, CrossShardProposals, a.blocks, CrossShardProposals, CrossShardBlocks);
      }
    }

    /** A part for any chain; a block it completes may become the node's own block. */
    method AddPart(p: PartSets.Part) returns (ok: bool)
      requires Valid() && MerkleProof.ValidateBasic(p.proof) == MerkleProof.Passed
      modifies this`CrossShardPartSets, this`CrossShardBlocks, this`randomHeaderBuffer
      ensures Valid()
      ensures Assembled() == Take(hasher, decode, Height, old(Assembled()), p)
      ensures ok <==> Welcome(hasher, decode, Height, old(Assembled()), p)
      ensures InShard() == old(InShard()) || (OwnBlock().Some? && InShard() == TakeBlock(old(InShard()), OwnBlock().value))
      ensures OwnBlock() == old(OwnBlock()) ||
              (p.chainID == MyChainID && MyChainID in old(CrossShardPartSets) && OwnBlock() == Some(old(CrossShardPartSets)[MyChainID].hash))
    {
      hide AssemblyOk;
      hide Take;
      hide Welcome;
      hide Collecting;
      hide Committing;
      hide AllBacked;
      hide SetsMatch;
      hide Gate;
      hide Grown;
      hide CommitGateI;
      hide AllDecided;
      hide InfoOk;
      hide BoxInv;
      hide Total;
      hide TwoThirds;
      ghost var before := Assembled();
      TakeFits(p);
      ok := AddInnerPart(p);
      if p.chainID in before.sets {
        TakeGrows(hasher, decode, MyChainID, Height, before, p);
        GrowthKeeps(before, p.chainID);
      } else {
        TakeUnknown(hasher, decode, Height, before, p);
      }
    }

    lemma {:induction false} TakeFits(p: PartSets.Part)
      requires AssemblyOk(hasher, Assembled(), MyChainID, Height)
      ensures p.chainID in CrossShardPartSets ==> SlotsOk(hasher, CrossShardPartSets[p.chainID])
    {
    }

    /** Announces a part set and offers it the parts that came early. */
    method AnnouncePartSet(header: PartSets.PartSetHeader, hash: Hash)
      requires AssemblyOk(hasher, Assembled(), MyChainID, Height) && HeaderOk(header) && header.height == Height
      requires header.chainID == MyChainID || header.chainID !in CrossShardPartSets
      modifies this`CrossShardPartSets, this`CrossShardBlocks, this`randomHeaderBuffer
      ensures AssemblyOk(hasher, Assembled(), MyChainID, Height)
      ensures Assembled() == Announced(hasher, decode, MyChainID, Height, old(Assembled()), header, hash)
      ensures Grown(hasher, Announce(old(Assembled()), header, hash), Assembled(), header.chainID)
    {
      hide AssemblyOk;
      hide Grown;
      hide EarlyTaken;
      AnnounceKeepsAssembly(hasher, Assembled(), MyChainID, Height, header, hash);
      CrossShardPartSets := CrossShardPartSets[header.chainID := NewSlots(header, hash)];
      AddEarlyParts(header.chainID);
    }

    /** What AddProposal answers. */
    ghost function Judgement(p: Proposal, index: int): ProposalResult
      reads this`Proposal, this`Height
    {
      if Proposal.Some? || p.header.height != Height || p.header.round != 0 then ProposalIgnored
      else if p.proposerIndex != index then WrongProposer
      else if p.header.chainID != MyChainID then OtherShard
      else if !p.signed then ProposalUnsigned
      else ProposalAdded
    }

    /** The first signed proposal of the proposer, for this shard's height and round. */
    predicate Acceptable(held: Option<Proposal>, p: Proposal, index: int)
      reads this`Height
    {
      && held.None? && p.header.height == Height && p.header.round == 0
      && p.proposerIndex == index && p.header.chainID == MyChainID && p.signed
    }

    /**
     * The round's proposal. Votes that came before it are counted now, and parts that came before
     * it may complete its block.
     */
    method AddProposal(p: Proposal, index: int) returns (r: ProposalResult, ghost complete: bool)
      requires Valid() && HeaderOk(p.header)
      modifies this`Proposal, this`CrossShardPartSets, this`CrossShardBlocks, this`randomHeaderBuffer,
               this`PrevotesBitVector, this`PrevotesTotal, this`PrecommitsBitVector, this`PrecommitsTotal
      ensures Valid()
      ensures r == old(Judgement(p, index))
      ensures r == ProposalIgnored <==> old(Proposal).Some? || p.header.height != Height || p.header.round != 0
      ensures r == ProposalAdded
              <==> && old(Proposal).None? && p.header.height == Height && p.header.round == 0
                   && p.proposerIndex == index && p.header.chainID == MyChainID && p.signed
      ensures r == WrongProposer <==> r != ProposalIgnored && p.proposerIndex != index
      ensures r == OtherShard <==> r != ProposalIgnored && p.proposerIndex == index && p.header.chainID != MyChainID
      ensures r == ProposalAdded ==> Proposal == Some(p) && InShard() == TakeProposal(Votes(), old(InShard()), p.hash, complete)
      ensures r == ProposalAdded ==> Assembled() == Announced(hasher, decode, MyChainID, Height, old(Assembled()), p.header, p.hash)
      ensures r != ProposalAdded ==> Proposal == old(Proposal) && InShard() == old(InShard()) && Assembled() == old(Assembled())
    {
      hide Voting;
      hide Passed;
      hide Collecting;
      hide Committing;
      hide Proposing;
      hide AssemblyOk;
      hide InfoOk;
      hide TakeProposal;
      hide Announced;
      complete := false;
      if Proposal.Some? || Height != p.header.height || p.header.round != 0 {
        return ProposalIgnored, false;
      }
      if p.proposerIndex != index {
        return WrongProposer, false;
      }
      if p.header.chainID != MyChainID {
        return OtherShard, false;
      }
      if !p.signed {
        return ProposalUnsigned, false;
      }
      complete := StartRound(p);
      r := ProposalAdded;
    }

    method StartRound(p: Proposal) returns (ghost complete: bool)
      requires Valid() && Proposal.None? && HeaderFits(p.header)
      modifies this`Proposal, this`CrossShardPartSets, this`CrossShardBlocks, this`randomHeaderBuffer,
               this`PrevotesBitVector, this`PrevotesTotal, this`PrecommitsBitVector, this`PrecommitsTotal
      ensures Valid() && Proposal == Some(p) && InShard() == TakeProposal(Votes(), old(InShard()), p.hash, complete)
      ensures Assembled() == Announced(hasher, decode, MyChainID, Height, old(Assembled()), p.header, p.hash)
    {
      hide Collected;
      hide Passed;
      hide HeaderFits;
      hide RoundInv;
      hide Recount;
      hide BoxInv;
      hide Announced;
      hide Total;
      hide TwoThirds;
      hide Blocks.HashOf;
      ghost var round := InShard();
      RoundBoxes(Votes(), round);
      complete := PlaceProposal(p);
      ProposalKeepsRound(Votes(), round, p.hash, complete);
      RecalculateVotes(p.hash);
    }

    /** Stores a proposal and announces its part set, which early parts may complete. */
    method PlaceProposal(p: Proposal) returns (ghost complete: bool)
      requires Collected() && Passed() && HeaderFits(p.header)
      modifies this`Proposal, this`CrossShardPartSets, this`CrossShardBlocks, this`randomHeaderBuffer
      ensures Collected() && Passed() && HeaderFits(p.header) && Proposal == Some(p)
      ensures Assembled() == Announced(hasher, decode, MyChainID, Height, old(Assembled()), p.header, p.hash)
      ensures OwnBlock() == if complete then Some(p.hash) else old(OwnBlock())
    {
      hide Blocks.HashOf;
      hide Collecting;
      hide Committing;
      hide AssemblyOk;
      hide AllBacked;
      hide SetsMatch;
      hide Gate;
      hide CommitGateI;
      hide AllDecided;
      hide InfoOk;
      hide BoxInv;
      hide Total;
      hide TwoThirds;
      hide Announced;
      hide Recount;
      hide RoundInv;
      Proposal := Some(p);
      AnnounceOwn(p.header, p.hash);
      complete := OwnBlock() == Some(p.hash);
    }

    method RecalculateVotes(hash: Hash)
      requires BoxInv(Votes(), None, PrevoteBox()) && BoxInv(Votes(), None, PrecommitBox())
      modifies this`PrevotesBitVector, this`PrevotesTotal, this`PrecommitsBitVector, this`PrecommitsTotal
      ensures PrevoteBox() == Recount(Votes(), hash, old(PrevoteBox())) && PrecommitBox() == Recount(Votes(), hash, old(PrecommitBox()))
    {
      PrevotesBitVector, PrevotesTotal := Recalculate(Votes(), hash, Prevotes, PrevotesBitVector, PrevotesTotal);
      PrecommitsBitVector, PrecommitsTotal := Recalculate(Votes(), hash, HashesOf(Precommits), PrecommitsBitVector, PrecommitsTotal);
    }

    /** Announces the part set of the round's own proposal. */
    method AnnounceOwn(header: PartSets.PartSetHeader, hash: Hash)
      requires AssemblyOk(hasher, Assembled(), MyChainID, Height) && HeaderOk(header) && header.height == Height && header.chainID == MyChainID
      requires SetsMatch(CrossShardPartSets, CrossShardProposals, MyChainID)
      modifies this`CrossShardPartSets, this`CrossShardBlocks, this`randomHeaderBuffer
      ensures AssemblyOk(hasher, Assembled(), MyChainID, Height)
      ensures Assembled() == Announced(hasher, decode, MyChainID, Height, old(Assembled()), header, hash)
      ensures SetsMatch(CrossShardPartSets, CrossShardProposals, MyChainID)
      ensures old(AcceptGate()) ==> AcceptGate()
      ensures OwnBlock() == old(OwnBlock()) || OwnBlock() == Some(hash)
    {
      hide AssemblyOk;
      hide SetsMatch;
      hide Gate;
      hide Grown;
      hide Announced;
      ghost var before := Assembled();
      AnnouncePartSet(header, hash);
      SetsMatchAnnounced(before, header, hash, CrossShardProposals, CrossShardProposal(header, hash, CODE_OK, [], multiset{}), MyChainID);
      GrowthKeeps(Announce(before, header, hash), MyChainID);
    }

    /** A prevote is recorded; it counts at once if it names the proposal. */
    method AddPrevote(v: Ballot) returns (r: VoteResult)
      requires Valid()
      modifies this`Prevotes, this`PrevotesBitVector, this`PrevotesTotal
      ensures Valid()
      ensures r == old(JudgeVote(Votes(), Height, PrevotesBitVector, v))
      ensures InShard() == TakePrevote(Votes(), old(InShard()), v)
      ensures r == VoteFails <==> v.index <= -8 || (v.index < 0 && Votes() == [])
      ensures r == VoteAdded
              <==> 0 <= v.index < |Votes()| && !old(PrevotesBitVector)[v.index] && v.height == Height && v.round == 0 && v.signed
      ensures Prevotes == if r == VoteAdded then old(Prevotes)[v.index := Some(v.hash)] else old(Prevotes)
      ensures r != VoteAdded ==> InShard() == old(InShard())
    {
      hide Blocks.HashOf;
      hide Passed;
      hide Collected;
      hide Weight;
      hide Total;
      hide TwoThirds;
      ghost var round := InShard();
      EventsKeepRound(Votes(), round, [], false, v);
      if IndexFails(|Votes()|, v.index) {
        return VoteFails;
      }
      if 0 <= v.index < |Votes()| && PrevotesBitVector[v.index] {
        return VoteIgnored;
      }
      if Height != v.height || v.round != 0 {
        return VoteIgnored;
      }
      if v.index < 0 || v.index >= |Votes()| {
        return IndexOutOfRange;
      }
      if !v.signed {
        return VoteUnsigned;
      }
      Prevotes := Prevotes[v.index := Some(v.hash)];
      if Proposal.Some? && Proposal.value.hash == v.hash {
        PrevotesBitVector := PrevotesBitVector[v.index := true];
        PrevotesTotal := PrevotesTotal + Votes()[v.index];
      }
      r := VoteAdded;
    }

    method AddPrecommit(v: Ballot) returns (r: VoteResult)
      requires Valid()
      modifies this`Precommits, this`PrecommitsBitVector, this`PrecommitsTotal
      ensures Valid()
      ensures r == old(JudgeVote(Votes(), Height, PrecommitsBitVector, v))
      ensures InShard() == TakePrecommit(Votes(), old(InShard()), v)
      ensures r == VoteFails <==> v.index <= -8 || (v.index < 0 && Votes() == [])
      ensures r == VoteAdded
              <==> 0 <= v.index < |Votes()| && !old(PrecommitsBitVector)[v.index] && v.height == Height && v.round == 0 && v.signed
      ensures Precommits == if r == VoteAdded then old(Precommits)[v.index := Some(Precommit(v.hash, v.code))] else old(Precommits)
      ensures r != VoteAdded ==> InShard() == old(InShard())
    {
      hide Blocks.HashOf;
      hide Passed;
      hide Collected;
      hide Weight;
      hide Total;
      hide TwoThirds;
      ghost var round := InShard();
      EventsKeepRound(Votes(), round, [], false, v);
      if IndexFails(|Votes()|, v.index) {
        return VoteFails;
      }
      if 0 <= v.index < |Votes()| && PrecommitsBitVector[v.index] {
        return VoteIgnored;
      }
      if Height != v.height || v.round != 0 {
        return VoteIgnored;
      }
      if v.index < 0 || v.index >= |Votes()| {
        return IndexOutOfRange;
      }
      if !v.signed {
        return VoteUnsigned;
      }
      assert HashesOf(Precommits[v.index := Some(Precommit(v.hash, v.code))]) == HashesOf(Precommits)[v.index := Some(v.hash)];
      Precommits := Precommits[v.index := Some(Precommit(v.hash, v.code))];
      if Proposal.Some? && Proposal.value.hash == v.hash {
        PrecommitsBitVector := PrecommitsBitVector[v.index := true];
        PrecommitsTotal := PrecommitsTotal + Votes()[v.index];
      }
      r := VoteAdded;
    }

    // ----- cross-shard messages -----

    /** Another shard's decided proposal, with the signatures of two thirds of its weight. */
    method AddCrossShardProposal(csp: CrossShardProposal) returns (r: CspResult)
      requires Valid() && HeaderOk(csp.header)
      modifies this`CrossShardProposals, this`CrossShardPartSets, this`CrossShardBlocks, this`randomHeaderBuffer
      ensures Valid()
      ensures r == if csp.header.chainID in old(CrossShardProposals) then CspIgnored else JudgeProposal(info.layout, Height, csp)
      ensures CrossShardProposals == if r == CspAdded then old(CrossShardProposals)[csp.header.chainID := csp] else old(CrossShardProposals)
      ensures Assembled() == if r == CspAdded then Announced(hasher, decode, MyChainID, Height, old(Assembled()), csp.header, csp.hash)
                             else old(Assembled())
      ensures InShard() == old(InShard()) || InShard() == TakeBlock(old(InShard()), csp.hash)
    {
      hide Voting;
      hide Passed;
      hide Collecting;
      hide Committing;
      hide Proposing;
      hide AssemblyOk;
      hide InfoOk;
      hide Announced;
      hide VerifyPrecommits;
      hide PeersOf;
      hide Total;
      hide Weight;
      var chain := csp.header.chainID;
      if csp.header.height != Height {
        return CspIgnored;
      }
      if chain in CrossShardProposals {
        return CspIgnored;
      }
      if !VerifyPrecommits(info.layout, csp) {
        return CspUnsigned;
      }
      MarkedPeers(info.layout, csp);
      var voteTotal := SumVotes(PeersOf(info.layout, chain), csp.bits);
      if !TwoThirds(voteTotal, Total(PeersOf(info.layout, chain))) {
        return CspTooFewVotes;
      }
      StoreProposal(csp);
      r := CspAdded;
    }

    method StoreProposal(csp: CrossShardProposal)
      requires Valid() && HeaderOk(csp.header)
      requires csp.header.chainID !in CrossShardProposals && JudgeProposal(info.layout, Height, csp) == CspAdded
      modifies this`CrossShardProposals, this`CrossShardPartSets, this`CrossShardBlocks, this`randomHeaderBuffer
      ensures Valid()
      ensures CrossShardProposals == old(CrossShardProposals)[csp.header.chainID := csp]
      ensures Assembled() == Announced(hasher, decode, MyChainID, Height, old(Assembled()), csp.header, csp.hash)
      ensures InShard() == old(InShard()) || InShard() == TakeBlock(old(InShard()), csp.hash)
    {
      hide AssemblyOk;
      hide Collecting;
      hide Committing;
      hide Gate;
      hide CommitGateI;
      hide AllDecided;
      hide InfoOk;
      hide BoxInv;
      hide Total;
      hide TwoThirds;
      hide Announced;
      hide SetsMatch;
      hide JudgeProposal;
      hide RoundInv;
      hide InfoOk;
      ghost var round := InShard();
      BlockKeepsRound(Votes(), round, csp.hash);
      JudgedHeight(info.layout, Height, csp);
      AnnounceForeign(csp);
    }

    /** Stores a proposal and announces its part set. */
    method AnnounceForeign(csp: CrossShardProposal)
      requires AssemblyOk(hasher, Assembled(), MyChainID, Height) && HeaderOk(csp.header) && csp.header.height == Height
      requires SetsMatch(CrossShardPartSets, CrossShardProposals, MyChainID) && csp.header.chainID !in CrossShardProposals
      modifies this`CrossShardProposals, this`CrossShardPartSets, this`CrossShardBlocks, this`randomHeaderBuffer
      ensures AssemblyOk(hasher, Assembled(), MyChainID, Height)
      ensures CrossShardProposals == old(CrossShardProposals)[csp.header.chainID := csp]
      ensures Assembled() == Announced(hasher, decode, MyChainID, Height, old(Assembled()), csp.header, csp.hash)
      ensures SetsMatch(CrossShardPartSets, CrossShardProposals, MyChainID)
      ensures old(AcceptGate()) ==> AcceptGate()
      ensures OwnBlock() == old(OwnBlock()) || OwnBlock() == Some(csp.hash)
    {
      hide AssemblyOk;
      hide SetsMatch;
      hide Gate;
      hide Grown;
      hide Announced;
      var chain := csp.header.chainID;
      ghost var before, proposals := Assembled(), CrossShardProposals;
      UnknownSet(chain);
      CrossShardProposals := CrossShardProposals[chain := csp];
      AnnouncePartSet(csp.header, csp.hash);
      SetsMatchAnnounced(before, csp.header, csp.hash, proposals, csp, MyChainID);
      GrowthKeeps(Announce(before, csp.header, csp.hash), chain);
      if Gate(info.related, |info.related|, proposals, before.blocks) {
        GateGrows(info.related, |info.related|, proposals, before.blocks, CrossShardProposals, before.blocks);
      }
    }

    lemma {:induction false} UnknownSet(chain: string)
      requires SetsMatch(CrossShardPartSets, CrossShardProposals, MyChainID) && chain !in CrossShardProposals
      ensures chain == MyChainID || chain !in CrossShardPartSets
    {
    }

    /** An I-shard validator's accept; the counter moves when its chain reaches two thirds. */
    method AddCrossShardAccept(csa: CrossShardAccept) returns (r: AcceptResult)
      requires Valid()
      modifies this`CrossShardAcceptFinishCounter, CrossShardAccepts.Values
      ensures Valid()
      ensures r == old(JudgeAccept(csa))
      ensures r == AcceptIgnored <==> csa.msg.height != Height
      ensures r == OtherUpper <==> csa.msg.height == Height && csa.msg.upper != MyChainID
      ensures r == NotRelated <==> csa.msg.height == Height && csa.msg.upper == MyChainID && csa.msg.chain !in info.related
      ensures r == Judged(Added) <==> old(Counts(csa))
      ensures forall c :: c in CrossShardAccepts ==>
                CrossShardAccepts[c].rec == if r == Judged(Added) && c == csa.msg.chain
                                            then old(CrossShardAccepts[c].rec)[csa.validatorIndex := Some(csa.msg.status)]
                                            else old(CrossShardAccepts[c].rec)
      ensures InShard() == old(InShard()) && old(Decided()) <= Decided()
    {
      hide Voting;
      hide Proposing;
      hide Committing;
      hide AssemblyOk;
      hide InfoOk;
      hide Collecting;
      hide AllDecided;
      hide Decided;
      hide AcceptGate;
      hide CommitGateI;
      CollectorKeys();
      if csa.msg.height != Height {
        return AcceptIgnored;
      }
      if csa.msg.upper != MyChainID {
        return OtherUpper;
      }
      if csa.msg.chain !in info.related {
        return NotRelated;
      }
      CountedIsAdded(csa);
      hide Counts;
      var v := CountAccept(csa);
      r := Judged(v);
    }

    /** Adds an accept of a related shard and keeps the counter right. */
    method CountAccept(csa: CrossShardAccept) returns (v: AddResult)
      requires Collecting() && csa.msg.chain in info.related
      modifies this`CrossShardAcceptFinishCounter, CrossShardAccepts.Values
      ensures Collecting()
      ensures v == old(CrossShardAccepts[csa.msg.chain].Check(csa))
      ensures forall c :: c in CrossShardAccepts ==>
                CrossShardAccepts[c].rec == if v == Added && c == csa.msg.chain
                                            then old(CrossShardAccepts[c].rec)[csa.validatorIndex := Some(csa.msg.status)]
                                            else old(CrossShardAccepts[c].rec)
      ensures old(Decided()) <= Decided() && (old(AllDecided()) ==> AllDecided())
    {
      hide CollectorsOk;
      hide DecidedIn;
      hide CollectorOk;
      hide CSAShardSet.Check;
      CollectorKeys();
      var moved;
      v, moved := AddTo(CrossShardAccepts, csa, info.related, Height, info.layout);
      if moved {
        CrossShardAcceptFinishCounter := CrossShardAcceptFinishCounter + 1;
      }
    }

    lemma {:induction false} CountedIsAdded(csa: CrossShardAccept)
      requires Collecting() && csa.msg.chain in info.related && csa.msg.height == Height && csa.msg.upper == MyChainID
      ensures CrossShardAccepts.Keys == info.related
      ensures CrossShardAccepts[csa.msg.chain].Check(csa) == Added <==> Counts(csa)
    {
      assert CollectorOk(CrossShardAccepts[csa.msg.chain], csa.msg.chain, Height, PeersOf(info.layout, csa.msg.chain));
      CrossShardAccepts[csa.msg.chain].CheckAnswers(csa);
      hide Tally;
    }

    lemma {:induction false} CollectorKeys()
      requires Collecting()
      ensures CrossShardAccepts.Keys == info.related
    {
    }

    /** An accept that is counted: the first one of a known validator of a related I-shard for this shard's height, signed. */
    ghost predicate Counts(csa: CrossShardAccept)
      requires CrossShardAccepts.Keys == info.related
      reads this`Height, this`CrossShardAccepts, CrossShardAccepts.Values
    {
      && csa.msg.height == Height && csa.msg.upper == MyChainID && csa.msg.chain in info.related
      && 0 <= csa.validatorIndex < |CrossShardAccepts[csa.msg.chain].rec| && CrossShardAccepts[csa.msg.chain].rec[csa.validatorIndex].None?
      && csa.signature == Signature(csa.msg.chain, csa.validatorIndex, csa.msg)
    }

    /** What AddCrossShardAccept answers. */
    ghost function JudgeAccept(csa: CrossShardAccept): AcceptResult
      requires CrossShardAccepts.Keys == info.related
      reads this`Height, this`CrossShardAccepts, CrossShardAccepts.Values
    {
      if csa.msg.height != Height then AcceptIgnored
      else if csa.msg.upper != MyChainID then OtherUpper
      else if csa.msg.chain !in info.related then NotRelated
      else Judged(CrossShardAccepts[csa.msg.chain].Check(csa))
    }

    /** What AddCrossShardCommit answers. */
    ghost function JudgeCommit(csc: CrossShardCommit): CommitResult
      reads this`Height, this`CrossShardCommits
    {
      if csc.height != Height then OtherHeight
      else if csc.upper in CrossShardCommits then Known
      else if csc.upper !in info.related && csc.upper !in info.related2 then NotNeighbour
      else if |csc.chains| != |RelatedOf(info.layout, csc.upper)| then WrongList
      else JudgeParts(info.layout, csc, 0)
    }

    /** Another C-shard's certificate: it is kept exactly when every part of it is valid. */
    method AddCrossShardCommit(csc: CrossShardCommit) returns (r: CommitResult)
      requires Valid()
      modifies this`CrossShardCommits
      ensures Valid()
      ensures r == old(JudgeCommit(csc))
      ensures csc.height != Height ==> r == OtherHeight
      ensures csc.height == Height && csc.upper in old(CrossShardCommits) ==> r == Known
      ensures csc.height == Height && csc.upper !in old(CrossShardCommits) ==>
                && (csc.upper !in info.related + info.related2 ==> r == NotNeighbour)
                && (csc.upper in info.related + info.related2 && |csc.chains| != |RelatedOf(info.layout, csc.upper)| ==> r == WrongList)
      ensures r == CommitOk <==> csc.height == Height && csc.upper !in old(CrossShardCommits)
                                 && csc.upper in info.related + info.related2 && Certified(info.layout, csc)
      ensures CrossShardCommits == if r == CommitOk then old(CrossShardCommits)[csc.upper := csc] else old(CrossShardCommits)
      ensures InShard() == old(InShard())
    {
      hide Voting;
      hide Passed;
      hide Collected;
      hide ValidateVote;
      hide RelatedOf;
      hide Certified;
      if csc.height != Height {
        return OtherHeight;
      }
      if csc.upper in CrossShardCommits {
        return Known;
      }
      if csc.upper !in info.related && csc.upper !in info.related2 {
        return NotNeighbour;
      }
      var list := RelatedOf(info.layout, csc.upper);
      if Certified(info.layout, csc) {
        CertifiedLength(info.layout, csc);
      }
      if |csc.chains| != |list| {
        return WrongList;
      }
      var v := CheckParts(info.layout, csc);
      JudgedIsCertified(info.layout, csc);
      if v != CommitOk {
        return v;
      }
      KeepCommit(csc);
      r := CommitOk;
    }

    method KeepCommit(csc: CrossShardCommit)
      requires Valid() && csc.upper !in CrossShardCommits && csc.height == Height
      requires csc.upper in info.related + info.related2 && Certified(info.layout, csc)
      modifies this`CrossShardCommits
      ensures Valid() && InShard() == old(InShard())
      ensures CrossShardCommits == old(CrossShardCommits)[csc.upper := csc]
    {
      hide Voting;
      hide Proposing;
      hide Collecting;
      hide AssemblyOk;
      hide InfoOk;
      hide AllDecided;
      hide AcceptGate;
      hide Certified;
      CommitsGrow(info.related, CrossShardCommits, CrossShardCommits[csc.upper := csc]);
      CrossShardCommits := CrossShardCommits[csc.upper := csc];
    }

    // ----- what the node makes itself -----

    /** The proposer keeps its own proposal, block and part set, on a fresh round. */
    method Propose(p: Proposal, slots: Slots, block: Blocks.Block)
      requires Valid() && InShard() == NewRound(|Votes()|, Height)
      requires HeaderFits(p.header) && SlotsOk(hasher, slots) && slots.header == p.header
      requires p.hash == slots.hash == Blocks.HashOf(hasher, block) && block.header.chainID == MyChainID && block.header.height == Height
      modifies this`Proposal, this`CrossShardPartSets, this`CrossShardBlocks
      ensures Valid() && InShard() == OwnProposal(old(InShard()), p.hash) && Proposal == Some(p)
      ensures CrossShardPartSets == old(CrossShardPartSets)[MyChainID := slots]
      ensures CrossShardBlocks == old(CrossShardBlocks)[MyChainID := block]
    {
      hide Blocks.HashOf;
      hide Collecting;
      hide Committing;
      hide AllBacked;
      hide SlotsOk;
      hide AssemblyOk;
      hide CommitGateI;
      hide AcceptGate;
      hide AllDecided;
      hide InfoOk;
      hide BoxInv;
      hide Total;
      hide TwoThirds;
      EmptyBoxInv(Votes(), Some(p.hash));
      OwnBlockFits(hasher, Assembled(), MyChainID, Height, slots, block);
      Proposal := Some(p);
      CrossShardPartSets := CrossShardPartSets[MyChainID := slots];
      CrossShardBlocks := CrossShardBlocks[MyChainID := block];
    }

    /** The aggregate of the counted precommits: every counted one is there and names the proposal. */
    method GenerateAggregatePrecommitSignature() returns (csp: CrossShardProposal)
      requires Valid() && Proposal.Some?
      ensures forall i :: 0 <= i < |PrecommitsBitVector| && PrecommitsBitVector[i] ==>
                i < |Precommits| && Precommits[i].Some? && Precommits[i].value.hash == Proposal.value.hash
      ensures csp.header == Proposal.value.header && csp.hash == Proposal.value.hash && csp.code == CODE_OK
      ensures csp.bits == PrecommitsBitVector && |csp.bits| == |Precommits|
      ensures csp.agg == Counted(MyChainID, Height, Precommits, PrecommitsBitVector, |PrecommitsBitVector|)
    {
      hide Valid;
      hide HashesOf;
      hide VerifyAggregate;
      CountedHeld();
      var aggSigs: Aggregate<PrecommitMsg> := multiset{};
      for i := 0 to |PrecommitsBitVector|
        invariant aggSigs == Counted(MyChainID, Height, Precommits, PrecommitsBitVector, i)
      {
        if PrecommitsBitVector[i] {
          var vote := Precommits[i].value;
          aggSigs := aggSigs + multiset{Signature(MyChainID, i, PrecommitMsg(Height, 0, vote.hash, vote.code))};
        }
      }
      csp := CrossShardProposal(Proposal.value.header, Proposal.value.hash, CODE_OK, PrecommitsBitVector, aggSigs);
    }

    lemma {:induction false} CountedHeld()
      requires Valid() && Proposal.Some?
      ensures |PrecommitsBitVector| == |Precommits| == |Votes()|
      ensures forall i :: 0 <= i < |PrecommitsBitVector| && PrecommitsBitVector[i] ==>
                Precommits[i].Some? && Precommits[i].value.hash == Proposal.value.hash
    {
      hide Passed;
      hide Collected;
      hide Weight;
      hide Total;
      forall i | 0 <= i < |PrecommitsBitVector| && PrecommitsBitVector[i]
        ensures Precommits[i].Some? && Precommits[i].value.hash == Proposal.value.hash
      {
        assert HashesOf(Precommits)[i] == Some(Proposal.value.hash);
      }
    }

    /**
     * The shard's decided proposal, kept under its own name. A C-shard puts the header of its
     * block without inner transactions there. Every shard at this height accepts it exactly if
     * all counted precommits are in favour; otherwise its aggregate does not verify.
     */
    method FinishPrecommits(header: PartSets.PartSetHeader) returns (csp: CrossShardProposal)
      requires Valid() && PassStep >= STEP_PRECOMMIT && HeaderFits(header)
      modifies this`CrossShardProposals
      ensures Valid() && InShard() == old(InShard())
      ensures CrossShardProposals == old(CrossShardProposals)[MyChainID := csp]
      ensures Proposal.Some? && csp.header == header && csp.hash == Proposal.value.hash && |PrecommitsBitVector| == |Precommits|
      ensures JudgeProposal(info.layout, Height, csp)
              == if AllInFavour(Precommits, PrecommitsBitVector, |Precommits|) then CspAdded else CspUnsigned
    {
      hide AllBacked;
      hide SetsMatch;
      hide InShard;
      hide Assembled;
      hide Voting;
      hide Collecting;
      hide Committing;
      hide AssemblyOk;
      hide InfoOk;
      hide JudgeProposal;
      hide AllInFavour;
      hide CommitGateI;
      hide AllDecided;
      hide Gate;
      csp := OwnAggregate(header);
      ghost var before := CrossShardProposals;
      OwnFits(CrossShardPartSets, before, csp, MyChainID, Height, info.layout);
      CrossShardProposals := CrossShardProposals[MyChainID := csp];
      if Gate(info.related, |info.related|, before, CrossShardBlocks) {
        GateGrows(info.related, |info.related|, before, CrossShardBlocks, CrossShardProposals, CrossShardBlocks);
      }
    }

    method OwnAggregate(header: PartSets.PartSetHeader) returns (csp: CrossShardProposal)
      requires Valid() && PassStep >= STEP_PRECOMMIT && HeaderFits(header)
      ensures Proposal.Some? && csp.header == header && csp.hash == Proposal.value.hash && |PrecommitsBitVector| == |Precommits|
      ensures JudgeProposal(info.layout, Height, csp)
              == if AllInFavour(Precommits, PrecommitsBitVector, |Precommits|) then CspAdded else CspUnsigned
    {
      hide AllInFavour;
      hide Counted;
      PrecommitsPassed();
      CountedHeld();
      hide Valid;
      hide Weight;
      hide Total;
      hide TwoThirds;
      csp := GenerateAggregatePrecommitSignature();
      csp := csp.(header := header);
      CountedVerifiesIff(MyChainID, Height, csp.hash, Precommits, PrecommitsBitVector);
      hide VerifyAggregate;
    }

    lemma {:induction false} PrecommitsPassed()
      requires Valid() && PassStep >= STEP_PRECOMMIT
      ensures Proposal.Some? && MyChainID in info.layout.peers && |PrecommitsBitVector| == |Votes()|
      ensures TwoThirds(Weight(Votes(), PrecommitsBitVector), Total(Votes()))
    {
      hide Passed;
      hide Collecting;
      hide Proposing;
      hide Committing;
      hide AssemblyOk;
      hide Weight;
      hide Total;
      hide TwoThirds;
    }

    /** The collected accepts of one related shard. */
    ghost function AcceptsOf(c: string): seq<CrossShardAccept>
      requires c in CrossShardAccepts
      reads this`CrossShardAccepts, CrossShardAccepts.Values
    {
      CrossShardAccepts[c].Listed(CrossShardAccepts[c].Maj23Key)
    }

    /** A status, its marked validators and its aggregate, as the collector of a chain holds them. */
    ghost predicate Gathered(c: string, status: Status, bits: seq<bool>, agg: Aggregate<AcceptMsg>)
      reads this`CrossShardAccepts, CrossShardAccepts.Values
    {
      && c in CrossShardAccepts && status == CrossShardAccepts[c].Maj23Key
      && bits == Marked(AcceptsOf(c), |PeersOf(info.layout, c)|) && agg == Aggregated(AcceptsOf(c))
    }

    /** After the certifying gate every listed collector exists and is decided. */
    lemma {:induction false} ListedDecided(c: string)
      requires Valid() && !info.isI && PassStep >= STEP_CROSS_SHARD_PROPOSE && c in RelatedOf(info.layout, MyChainID)
      ensures c in CrossShardAccepts && CollectorOk(CrossShardAccepts[c], c, Height, PeersOf(info.layout, c)) && CrossShardAccepts[c].HasMaj23Flag
    {
      hide Voting;
      hide Proposing;
      hide Committing;
      hide AssemblyOk;
      hide CollectorOk;
      assert c in Elements(RelatedOf(info.layout, MyChainID));
      assert c in DecidedIn(CrossShardAccepts);
    }

    /** The gathered status has accepts of more than two thirds of the chain's weight, and the bits mark who recorded it. */
    lemma {:induction false} GatheredMeans(c: string, status: Status, bits: seq<bool>, agg: Aggregate<AcceptMsg>)
      requires Valid() && !info.isI && PassStep >= STEP_CROSS_SHARD_PROPOSE && c in RelatedOf(info.layout, MyChainID)
      requires Gathered(c, status, bits, agg)
      ensures c in CrossShardAccepts && |bits| == |CrossShardAccepts[c].rec| == |CrossShardAccepts[c].Votes|
      ensures forall i :: 0 <= i < |bits| ==> (bits[i] <==> CrossShardAccepts[c].rec[i] == Some(status))
      ensures 3 * Weight(CrossShardAccepts[c].Votes, bits) > 2 * Total(CrossShardAccepts[c].Votes)
    {
      ListedDecided(c);
      hide Valid;
      hide RelatedOf;
      hide Aggregated;
      hide Lists;
      var s := CrossShardAccepts[c];
      MarkedAreVoters(AcceptsOf(c), s.rec, s.ChainID, s.Height, status);
      TwoThirdsIs(Tally(s.Votes, s.rec, status), Total(s.Votes));
    }

    method Gather(c: string) returns (status: Status, bits: seq<bool>, agg: Aggregate<AcceptMsg>)
      requires c in CrossShardAccepts && CollectorOk(CrossShardAccepts[c], c, Height, PeersOf(info.layout, c)) && CrossShardAccepts[c].HasMaj23Flag
      ensures Gathered(c, status, bits, agg)
    {
      var st, votes := CrossShardAccepts[c].GetMaj23();
      hide Aggregated;
      hide Tally;
      status := st.value;
      bits, agg := Bundle(votes, |PeersOf(info.layout, c)|);
    }

    /**
     * The C-shard's certificate. No collector it asks is missing or undecided. The neighbours
     * accept it exactly when every collected accept is for this shard's own block.
     */
    method GenerateCrossShardCommit() returns (csc: CrossShardCommit)
      requires Valid() && !info.isI && PassStep >= STEP_CROSS_SHARD_PROPOSE
      ensures Proposal.Some? && csc.upper == MyChainID && csc.height == Height && csc.hash == Proposal.value.hash
      ensures csc.Long() && csc.chains == RelatedOf(info.layout, MyChainID) && Extra(csc) == []
      ensures forall i :: 0 <= i < |csc.chains| ==> Gathered(csc.chains[i], csc.statuses[i], csc.bits[i], csc.aggregates[i])
      ensures Certified(info.layout, csc) <==> forall i :: 0 <= i < |csc.chains| ==> AllFor(csc.chains[i], AcceptOf(csc, i))
    {
      hide Passed;
      hide Collected;
      hide Weight;
      hide Certified;
      hide Gathered;
      hide AllFor;
      hide CollectorOk;
      hide RelatedOf;
      var chainList := RelatedOf(info.layout, MyChainID);
      var aggregates, bits, statuses := [], [], [];
      for i := 0 to |chainList|
        invariant |aggregates| == |bits| == |statuses| == i
        invariant forall j :: 0 <= j < i ==> Gathered(chainList[j], statuses[j], bits[j], aggregates[j])
      {
        ListedDecided(chainList[i]);
        var status, bv, agg := Gather(chainList[i]);
        aggregates, bits, statuses := aggregates + [agg], bits + [bv], statuses + [status];
      }
      csc := CrossShardCommit(MyChainID, Height, Proposal.value.hash, chainList, aggregates, bits, statuses);
      GatheredIsCertifiedIff(csc);
    }

    /** The C-shard makes its certificate and keeps it among the commits. */
    method Certify() returns (csc: CrossShardCommit)
      requires Valid() && !info.isI && PassStep >= STEP_CROSS_SHARD_PROPOSE
      modifies this`CrossShardCommits
      ensures Valid() && InShard() == old(InShard())
      ensures CrossShardCommits == old(CrossShardCommits)[MyChainID := csc]
      ensures Proposal.Some? && csc.upper == MyChainID && csc.height == Height && csc.hash == Proposal.value.hash
      ensures csc.Long() && csc.chains == RelatedOf(info.layout, MyChainID) && Extra(csc) == []
      ensures forall i :: 0 <= i < |csc.chains| ==> Gathered(csc.chains[i], csc.statuses[i], csc.bits[i], csc.aggregates[i])
      ensures Certified(info.layout, csc) <==> forall i :: 0 <= i < |csc.chains| ==> AllFor(csc.chains[i], AcceptOf(csc, i))
    {
      hide Gathered;
      hide RelatedOf;
      hide Voting;
      hide Collecting;
      hide Proposing;
      hide AssemblyOk;
      hide InfoOk;
      hide Certified;
      hide AllFor;
      hide AllDecided;
      csc := GenerateCrossShardCommit();
      CrossShardCommits := CrossShardCommits[MyChainID := csc];
    }

    /** After the accept gate each related shard's block is here, and it is the one that shard decided. */
    lemma {:induction false} RelatedBlock(c: string)
      requires Valid() && info.isI && PassStep >= STEP_CROSS_SHARD_ACCEPT && c in info.related
      ensures c in CrossShardBlocks && CrossShardBlocks[c].header.chainID == c
      ensures c in CrossShardProposals && Blocks.HashOf(hasher, CrossShardBlocks[c]) == CrossShardProposals[c].hash
      ensures JudgeProposal(info.layout, Height, CrossShardProposals[c]) == CspAdded
    {
      hide Voting;
      hide Collecting;
      hide Committing;
      hide SlotsOk;
      hide JudgeProposal;
      assert BlockOk(hasher, Assembled(), MyChainID, Height, c);
    }

    /** The node's own block is here once its propose gate was passed. */
    lemma {:induction false} OwnBlockHeld()
      requires Valid() && PassStep >= STEP_PROPOSE
      ensures MyChainID in CrossShardBlocks
    {
      hide Collected;
      hide Passed;
      hide BoxInv;
    }

    /** Every accept the collector of a chain counts is the given one. */
    ghost predicate AllFor(c: string, msg: AcceptMsg)
      reads this`CrossShardAccepts, CrossShardAccepts.Values
    {
      c in CrossShardAccepts && forall k :: 0 <= k < |AcceptsOf(c)| ==> AcceptsOf(c)[k].msg == msg
    }

    lemma {:induction false} GatheredIsCertifiedIff(csc: CrossShardCommit)
      requires Valid() && !info.isI && PassStep >= STEP_CROSS_SHARD_PROPOSE
      requires csc.Long() && csc.upper == MyChainID && csc.height == Height && csc.chains == RelatedOf(info.layout, MyChainID)
      requires forall i :: 0 <= i < |csc.chains| ==> Gathered(csc.chains[i], csc.statuses[i], csc.bits[i], csc.aggregates[i])
      ensures Certified(info.layout, csc) <==> forall i :: 0 <= i < |csc.chains| ==> AllFor(csc.chains[i], AcceptOf(csc, i))
    {
      hide Valid;
      hide ValidateVote;
      hide AllFor;
      hide Gathered;
      hide RelatedOf;
      forall i | 0 <= i < |csc.chains|
        ensures ValidateVote(csc, PeersOf(info.layout, csc.chains[i]), i) == CommitOk <==> AllFor(csc.chains[i], AcceptOf(csc, i))
      {
        PartValidIff(csc, i);
      }
    }

    lemma {:induction false} PartValidIff(csc: CrossShardCommit, i: nat)
      requires Valid() && !info.isI && PassStep >= STEP_CROSS_SHARD_PROPOSE
      requires csc.Long() && csc.upper == MyChainID && csc.height == Height && csc.chains == RelatedOf(info.layout, MyChainID)
      requires i < |csc.chains| && Gathered(csc.chains[i], csc.statuses[i], csc.bits[i], csc.aggregates[i])
      ensures ValidateVote(csc, PeersOf(info.layout, csc.chains[i]), i) == CommitOk <==> AllFor(csc.chains[i], AcceptOf(csc, i))
    {
      hide Valid;
      hide ValidateVote;
      hide RelatedOf;
      hide Tally;
      hide Lists;
      hide Aggregated;
      ListedDecided(csc.chains[i]);
      CollectedPartValidIff(CrossShardAccepts[csc.chains[i]], csc, i);
    }
  }

  lemma {:induction false} CommitsGrow(need: set<string>, c: map<string, CrossShardCommit>, d: map<string, CrossShardCommit>)
    requires c.Keys <= d.Keys
    ensures |c| <= |d|
    ensures need <= c.Keys ==> need <= d.Keys
  {
    SubsetSize(c.Keys, d.Keys);
    assert |c.Keys| == |c| && |d.Keys| == |d|;
  }

  /** Adds an accept to its chain's collector; tells whether that chain is decided by it. */
  method AddTo(m: map<string, CSAShardSet>, csa: CrossShardAccept, chains: set<string>, height: int, l: Layout)
    returns (r: AddResult, moved: bool)
    requires CollectorsOk(m, chains, height, l) && csa.msg.chain in m
    modifies m.Values
    ensures CollectorsOk(m, chains, height, l)
    ensures r == old(m[csa.msg.chain].Check(csa))
    ensures forall c :: c in m ==>
              m[c].rec == if r == Added && c == csa.msg.chain then old(m[c].rec)[csa.validatorIndex := Some(csa.msg.status)] else old(m[c].rec)
    ensures moved ==> csa.msg.chain !in old(DecidedIn(m))
    ensures DecidedIn(m) == old(DecidedIn(m)) + if moved then {csa.msg.chain} else {}
  {
    hide CSAShardSet.Check;
    hide CSAShardSet.Valid;
    var acid := m[csa.msg.chain];
    var startFlag := acid.HasMaj23();
    r := AddOne(acid, csa, height, PeersOf(l, csa.msg.chain));
    var endFlag := acid.HasMaj23();
    moved := !startFlag && endFlag;
    hide CollectorOk;
    assert forall c :: c in m && c != csa.msg.chain ==> m[c] != acid;
  }

  method AddOne(s: CSAShardSet, csa: CrossShardAccept, height: int, votes: seq<nat>) returns (r: AddResult)
    requires CollectorOk(s, csa.msg.chain, height, votes)
    modifies s
    ensures CollectorOk(s, csa.msg.chain, height, votes)
    ensures r == old(s.Check(csa)) && (old(s.HasMaj23Flag) ==> s.HasMaj23Flag)
    ensures s.rec == if r == Added then old(s.rec)[csa.validatorIndex := Some(csa.msg.status)] else old(s.rec)
  {
    r := s.AddCSA(csa);
  }

  lemma {:induction false} JudgedHeight(l: Layout, height: int, csp: CrossShardProposal)
    requires JudgeProposal(l, height, csp) == CspAdded
    ensures csp.header.height == height
  {
  }

  lemma {:induction false} MarkedPeers(l: Layout, csp: CrossShardProposal)
    requires VerifyPrecommits(l, csp)
    ensures |csp.bits| == |PeersOf(l, csp.header.chainID)|
  {
  }
}
