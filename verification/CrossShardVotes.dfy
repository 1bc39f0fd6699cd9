/** Accepts of an I-shard for a C-shard's block, their collector, and commit certificates. */
module CrossShardVotes {
  import opened Basics
  import opened Quorum
  import opened Signatures
  import BitVectors

  /** A commit vote in its byte form. */
  type Status = BitVectors.Bytes

  const VOTE_TYPE_ACCEPT := 6

  /** What a validator signs when it accepts: everything but its index. */
  datatype AcceptMsg = AcceptMsg(voteType: int, upper: string, chain: string, height: int, hash: Hash, status: Status)

  datatype CrossShardAccept = CrossShardAccept(msg: AcceptMsg, signature: Signature<AcceptMsg>, validatorIndex: int)

  // ----- the collector -----

  datatype AddResult = Added | Repeated | Equivocation | WrongHeight | WrongChain | BadIndex | BadSignature | TwoMajorities

  /** The indices of a list of accepts. */
  function Indices(list: seq<CrossShardAccept>): (s: seq<int>)
    ensures |s| == |list| && forall i :: 0 <= i < |list| ==> s[i] == list[i].validatorIndex
  {
    seq(|list|, i requires 0 <= i < |list| => list[i].validatorIndex)
  }

  /** The accepts listed under a status are the recorded voters of that status, each once. */
  ghost predicate Lists(list: seq<CrossShardAccept>, rec: seq<Option<Status>>, chain: string, height: int, status: Status) {
    && (forall k :: 0 <= k < |list| ==>
          && 0 <= list[k].validatorIndex < |rec| && rec[list[k].validatorIndex] == Some(status)
          && list[k].msg.status == status && list[k].msg.chain == chain && list[k].msg.height == height
          && Verify(chain, list[k].signature, list[k].msg, list[k].validatorIndex))
    && (forall j, k :: 0 <= j < k < |list| ==> list[j].validatorIndex != list[k].validatorIndex)
    && (forall i :: 0 <= i < |rec| && rec[i] == Some(status) ==> i in Indices(list))
  }

  class CSAShardSet {
    const Votes: seq<nat>
    const TotalVotingPower: int
    const Height: int
    const ChainID: string
    var SigMap: map<Status, seq<CrossShardAccept>>
    var KeyVotePower: map<Status, int>
    var IndexSeen: map<int, Hash>
    var HasMaj23Flag: bool
    var Maj23Key: Status
    var Maj23CommitStatus: Status
    ghost var rec: seq<Option<Status>>

    ghost function Power(status: Status): int
      reads this`KeyVotePower
    {
      if status in KeyVotePower then KeyVotePower[status] else 0
    }

    ghost function Listed(status: Status): seq<CrossShardAccept>
      reads this`SigMap
    {
      if status in SigMap then SigMap[status] else []
    }

    /** Tallies weigh the distinct recorded voters, and the lists hold exactly them. */
    ghost predicate Counting()
      reads this`SigMap, this`KeyVotePower, this`IndexSeen, this`rec
    {
      && |rec| == |Votes| && TotalVotingPower == Total(Votes) < LIMIT
      && (forall i :: i in IndexSeen <==> 0 <= i < |rec| && rec[i].Some?)
      && (forall s :: Power(s) == Tally(Votes, rec, s))
      && (forall s :: Lists(Listed(s), rec, ChainID, Height, s))
    }

    /** The flag is set exactly when some status exceeds two thirds, and that status is stored. */
    ghost predicate Valid()
      reads this
    {
      && Counting()
      && (if HasMaj23Flag then TwoThirds(Tally(Votes, rec, Maj23Key), TotalVotingPower) && Maj23CommitStatus == Maj23Key
          else forall s :: !TwoThirds(Tally(Votes, rec, s), TotalVotingPower))
    }

    constructor (h: int, chain_id: string, votes: seq<nat>)
      requires Total(votes) < LIMIT
      ensures Valid() && Votes == votes && Height == h && ChainID == chain_id
      ensures !HasMaj23Flag && rec == seq(|votes|, _ => None)
    {
      Votes, TotalVotingPower, Height, ChainID := votes, Total(votes), h, chain_id;
      SigMap, KeyVotePower, IndexSeen := map[], map[], map[];
      HasMaj23Flag, Maj23Key, Maj23CommitStatus := false, [], [];
      rec := seq(|votes|, _ => None);
      new;
      forall s
        ensures Tally(Votes, rec, s) == 0
      {
        TallyEmpty(Votes, rec, s);
      }
    }

    /** The flag tells whether the recorded accepts for some status weigh more than two thirds. */
    lemma {:induction false} FlagIff()
      requires Valid()
      ensures HasMaj23Flag <==> exists status :: 3 * Tally(Votes, rec, status) > 2 * Total(Votes)
      ensures HasMaj23Flag ==> 3 * Tally(Votes, rec, Maj23Key) > 2 * Total(Votes)
    {
      hide Tally;
      hide Total;
      hide Lists;
      forall status
        ensures TwoThirds(Tally(Votes, rec, status), TotalVotingPower) <==> 3 * Tally(Votes, rec, status) > 2 * TotalVotingPower
      {
        TwoThirdsIs(Tally(Votes, rec, status), TotalVotingPower);
      }
      hide TwoThirds;
    }

    predicate HasMaj23()
      reads this
    {
      HasMaj23Flag
    }

    /** The checks AddCSA makes before it records anything. */
    ghost function Check(csa: CrossShardAccept): AddResult
      reads this
    {
      if csa.validatorIndex in IndexSeen then
        if IndexSeen[csa.validatorIndex] == csa.msg.hash then Repeated else Equivocation
      else if csa.msg.height != Height then WrongHeight
      else if csa.msg.chain != ChainID then WrongChain
      else if csa.validatorIndex < 0 || csa.validatorIndex >= |Votes| then BadIndex
      else if !Verify(ChainID, csa.signature, csa.msg, csa.validatorIndex) then BadSignature
      else Added
    }

    /**
     * The answers in plain terms: a validator's second accept is told apart by its block hash; a
     * first one is added exactly if it is of this height and chain, of a known validator, and signed.
     */
    lemma {:induction false} CheckAnswers(csa: CrossShardAccept)
      requires Counting()
      ensures Check(csa) == Added
              <==> && 0 <= csa.validatorIndex < |Votes| && rec[csa.validatorIndex].None?
                   && csa.msg.height == Height && csa.msg.chain == ChainID
                   && csa.signature == Signature(ChainID, csa.validatorIndex, csa.msg)
      ensures Check(csa) == Repeated <==> csa.validatorIndex in IndexSeen && IndexSeen[csa.validatorIndex] == csa.msg.hash
      ensures Check(csa) == Equivocation <==> csa.validatorIndex in IndexSeen && IndexSeen[csa.validatorIndex] != csa.msg.hash
      ensures Check(csa) == WrongHeight <==> csa.validatorIndex !in IndexSeen && csa.msg.height != Height
      ensures Check(csa) == WrongChain <==> csa.validatorIndex !in IndexSeen && csa.msg.height == Height && csa.msg.chain != ChainID
      ensures Check(csa) == BadIndex
              <==> csa.msg.height == Height && csa.msg.chain == ChainID && !(0 <= csa.validatorIndex < |Votes|)
    {
      hide Tally;
      hide Lists;
      hide Total;
    }

    /** Adds an accept. The error about two majorities cannot arise. */
    method AddCSA(csa: CrossShardAccept) returns (r: AddResult)
      requires Valid()
      modifies this
      ensures Valid()
      ensures r == old(Check(csa)) && r != TwoMajorities
      ensures rec == if r == Added then old(rec)[csa.validatorIndex := Some(csa.msg.status)] else old(rec)
      ensures r == Added ==> Listed(csa.msg.status) == old(Listed(csa.msg.status)) + [csa]
      ensures IndexSeen == if r == Added then old(IndexSeen)[csa.validatorIndex := csa.msg.hash] else old(IndexSeen)
      ensures r == Added
              <==> && 0 <= csa.validatorIndex < |Votes| && old(rec)[csa.validatorIndex].None?
                   && csa.msg.height == Height && csa.msg.chain == ChainID
                   && csa.signature == Signature(ChainID, csa.validatorIndex, csa.msg)
      ensures old(HasMaj23Flag) ==> HasMaj23Flag && Maj23Key == old(Maj23Key)
    {
      CheckAnswers(csa);
      hide Tally;
      hide Lists;
      hide Total;
      hide Verify;
      if csa.validatorIndex in IndexSeen {
        return if IndexSeen[csa.validatorIndex] == csa.msg.hash then Repeated else Equivocation;
      }
      if csa.msg.height != Height {
        return WrongHeight;
      }
      if csa.msg.chain != ChainID {
        return WrongChain;
      }
      if csa.validatorIndex < 0 || csa.validatorIndex >= |Votes| {
        return BadIndex;
      }
      if !Verify(ChainID, csa.signature, csa.msg, csa.validatorIndex) {
        return BadSignature;
      }
      var csaKey := csa.msg.status;
      RecordedTallies(csa.validatorIndex, csaKey);
      Record(csa);
      r := Added;
      forall s | s != csaKey
        ensures Tally(Votes, rec, s) == old(Tally(Votes, rec, s))
      {
      }
      Decide(csaKey);
    }

    /** Once the accepts for a status exceed two thirds, that status is the decided one. */
    method Decide(csaKey: Status)
      requires Counting() && csaKey in KeyVotePower
      requires HasMaj23Flag ==> TwoThirds(Tally(Votes, rec, Maj23Key), TotalVotingPower) && Maj23CommitStatus == Maj23Key
      requires !HasMaj23Flag ==> forall s :: s != csaKey ==> !TwoThirds(Tally(Votes, rec, s), TotalVotingPower)
      modifies this`HasMaj23Flag, this`Maj23Key, this`Maj23CommitStatus
      ensures Valid()
      ensures old(HasMaj23Flag) ==> HasMaj23Flag && Maj23Key == old(Maj23Key)
    {
      hide Tally;
      hide Lists;
      hide Total;
      var power := KeyVotePower[csaKey];
      assert power == Power(csaKey) == Tally(Votes, rec, csaKey);
      Exceeds32IsTwoThirds(power, TotalVotingPower);
      if Exceeds32(power, TotalVotingPower) {
        if HasMaj23() && Maj23Key != csaKey {
          OneMajority(Votes, rec, Maj23Key, csaKey);
          assert false;
        }
        HasMaj23Flag, Maj23Key, Maj23CommitStatus := true, csaKey, csaKey;
      }
    }

    lemma {:induction false} RecordedTallies(i: nat, status: Status)
      requires Counting() && i < |rec| && rec[i].None?
      ensures forall s :: Tally(Votes, rec[i := Some(status)], s) == Tally(Votes, rec, s) + if s == status then Votes[i] else 0
    {
      hide Tally;
      forall s
        ensures Tally(Votes, rec[i := Some(status)], s) == Tally(Votes, rec, s) + if s == status then Votes[i] else 0
      {
        TallyRecord(Votes, rec, i, status, s);
      }
    }

    /** Lists, counts and marks a checked accept. */
    method Record(csa: CrossShardAccept)
      requires Counting() && Check(csa) == Added
      modifies this`SigMap, this`KeyVotePower, this`IndexSeen, this`rec
      ensures Counting() && rec == old(rec)[csa.validatorIndex := Some(csa.msg.status)]
      ensures Listed(csa.msg.status) == old(Listed(csa.msg.status)) + [csa]
      ensures csa.msg.status in KeyVotePower && IndexSeen == old(IndexSeen)[csa.validatorIndex := csa.msg.hash]
    {
      hide Tally;
      var csaKey, index := csa.msg.status, csa.validatorIndex;
      RecordedTallies(index, csaKey);
      RecordedLists(csa);
      SigMap := SigMap[csaKey := (if csaKey in SigMap then SigMap[csaKey] else []) + [csa]];
      IndexSeen := IndexSeen[index := csa.msg.hash];
      KeyVotePower := KeyVotePower[csaKey := (if csaKey in KeyVotePower then KeyVotePower[csaKey] else 0) + Votes[index]];
      rec := rec[index := Some(csaKey)];
      forall s
        ensures Power(s) == Tally(Votes, rec, s)
      {
        assert old(Power(s)) == Tally(Votes, old(rec), s);
      }
      forall s
        ensures Lists(Listed(s), rec, ChainID, Height, s)
      {
        assert Listed(s) == old(Listed(s)) + if s == csaKey then [csa] else [];
      }
    }

    lemma {:induction false} RecordedLists(csa: CrossShardAccept)
      requires Counting() && Check(csa) == Added
      ensures forall s :: Lists(Listed(s) + if s == csa.msg.status then [csa] else [],
                                rec[csa.validatorIndex := Some(csa.msg.status)], ChainID, Height, s)
    {
      forall s
        ensures Lists(Listed(s) + if s == csa.msg.status then [csa] else [],
                      rec[csa.validatorIndex := Some(csa.msg.status)], ChainID, Height, s)
      {
        assert Lists(Listed(s), rec, ChainID, Height, s);
        ListsMore(Listed(s), rec, ChainID, Height, s, csa);
      }
    }

    method GetMaj23() returns (status: Option<Status>, votes: seq<CrossShardAccept>)
      requires Valid()
      ensures status == if HasMaj23Flag then Some(Maj23Key) else None
      ensures HasMaj23Flag ==> votes == Listed(Maj23Key) && Lists(votes, rec, ChainID, Height, Maj23Key)
    {
      if !HasMaj23() {
        return None, [];
      }
      return Some(Maj23CommitStatus), if Maj23Key in SigMap then SigMap[Maj23Key] else [];
    }
  }

  lemma {:induction false} ListsMore(list: seq<CrossShardAccept>, rec: seq<Option<Status>>, chain: string, height: int, status: Status,
                                     csa: CrossShardAccept)
    requires Lists(list, rec, chain, height, status)
    requires 0 <= csa.validatorIndex < |rec| && rec[csa.validatorIndex].None?
    requires csa.msg.chain == chain && csa.msg.height == height && Verify(chain, csa.signature, csa.msg, csa.validatorIndex)
    ensures Lists(list + if status == csa.msg.status then [csa] else [], rec[csa.validatorIndex := Some(csa.msg.status)], chain, height, status)
  {
    var more := list + if status == csa.msg.status then [csa] else [];
    var after := rec[csa.validatorIndex := Some(csa.msg.status)];
    forall i | 0 <= i < |after| && after[i] == Some(status)
      ensures i in Indices(more)
    {
      if i == csa.validatorIndex {
        assert Indices(more)[|list|] == i;
      } else {
        assert i in Indices(list);
        var k :| 0 <= k < |list| && Indices(list)[k] == i;
        assert Indices(more)[k] == i;
      }
    }
  }

  // ----- commit certificates -----

  function Aggregated(list: seq<CrossShardAccept>): Aggregate<AcceptMsg> {
    if list == [] then multiset{} else multiset{list[0].signature} + Aggregated(list[1..])
  }

  datatype CrossShardCommit = CrossShardCommit(upper: string, height: int, hash: Hash, chains: seq<string>,
                                               aggregates: seq<Aggregate<AcceptMsg>>, bits: seq<seq<bool>>, statuses: seq<Status>)
  {
    /** The lists have an entry for every chain; nothing keeps them from having more. */
    predicate Long() {
      |chains| <= |aggregates| && |chains| <= |bits| && |chains| <= |statuses|
    }
  }

  /** The accept that the certificate claims for its i-th chain. */
  function AcceptOf(c: CrossShardCommit, i: nat): AcceptMsg
    requires i < |c.chains| && i < |c.statuses|
  {
    AcceptMsg(VOTE_TYPE_ACCEPT, c.upper, c.chains[i], c.height, c.hash, c.statuses[i])
  }

  /** ShortList means that the source reads past the end of a list and fails. */
  datatype CommitResult = CommitOk | NoPeers | SizeMismatch | TooFewVotes | BadAggregate | OtherHeight | Known | NotNeighbour | WrongList | ShortList

  /** The vote total of the marked peers, summed in peer order. */
  method SumVotes(votes: seq<nat>, bits: seq<bool>) returns (total: nat)
    requires |votes| == |bits|
    ensures total == Weight(votes, bits)
  {
    total := 0;
    for i := 0 to |votes|
      invariant total + Weight(votes[i..], bits[i..]) == Weight(votes, bits)
    {
      assert votes[i..][1..] == votes[i + 1..] && bits[i..][1..] == bits[i + 1..];
      if bits[i] {
        total := total + votes[i];
      }
    }
  }

  /** The check of one chain's part of a certificate. */
  function ValidateVote(c: CrossShardCommit, votes: seq<nat>, i: nat): CommitResult
    requires i < |c.chains|
  {
    if i >= |c.bits| then ShortList
    else if |votes| == 0 then NoPeers
    else if |votes| != |c.bits[i]| then SizeMismatch
    else if !Exceeds32(Weight(votes, c.bits[i]), Total(votes)) then TooFewVotes
    else if i >= |c.statuses| || i >= |c.aggregates| then ShortList
    else if !VerifyAggregate(c.chains[i], |votes|, c.aggregates[i], AcceptOf(c, i), c.bits[i]) then BadAggregate
    else CommitOk
  }

  /** The verdict in plain terms, for a chain whose total weight is below 2^30. */
  lemma {:induction false} PartValidIff(c: CrossShardCommit, votes: seq<nat>, i: nat)
    requires i < |c.chains| && Total(votes) < LIMIT
    ensures ValidateVote(c, votes, i) == CommitOk
            <==> && i < |c.bits| && i < |c.statuses| && i < |c.aggregates|
                 && 0 < |votes| == |c.bits[i]| && 3 * Weight(votes, c.bits[i]) > 2 * Total(votes)
                 && c.aggregates[i] == Expected(c.chains[i], AcceptOf(c, i), c.bits[i], |votes|)
    ensures ValidateVote(c, votes, i) == NoPeers <==> i < |c.bits| && votes == []
    ensures ValidateVote(c, votes, i) == SizeMismatch <==> i < |c.bits| && votes != [] && |votes| != |c.bits[i]|
    ensures ValidateVote(c, votes, i) == TooFewVotes
            <==> i < |c.bits| && 0 < |votes| == |c.bits[i]| && 3 * Weight(votes, c.bits[i]) <= 2 * Total(votes)
    ensures ValidateVote(c, votes, i) == ShortList
            <==> || i >= |c.bits|
                 || (0 < |votes| == |c.bits[i]| && 3 * Weight(votes, c.bits[i]) > 2 * Total(votes)
                     && (i >= |c.statuses| || i >= |c.aggregates|))
  {
    if i < |c.bits| && |votes| == |c.bits[i]| {
      Exceeds32IsTwoThirds(Weight(votes, c.bits[i]), Total(votes));
      TwoThirdsIs(Weight(votes, c.bits[i]), Total(votes));
    }
    hide Exceeds32;
    hide TwoThirds;
    hide Weight;
    hide Total;
    hide Expected;
  }

  method CheckVote(c: CrossShardCommit, votes: seq<nat>, i: nat) returns (r: CommitResult)
    requires i < |c.chains|
    ensures r == ValidateVote(c, votes, i)
  {
    if i >= |c.bits| {
      return ShortList;
    }
    if |votes| == 0 {
      return NoPeers;
    }
    if |votes| != |c.bits[i]| {
      return SizeMismatch;
    }
    var total := SumVotes(votes, c.bits[i]);
    if !Exceeds32(total, Total(votes)) {
      return TooFewVotes;
    }
    if i >= |c.statuses| || i >= |c.aggregates| {
      return ShortList;
    }
    r := if VerifyAggregate(c.chains[i], |votes|, c.aggregates[i], AcceptOf(c, i), c.bits[i]) then CommitOk else BadAggregate;
  }

  /** The shard layout every node knows: validator weights, and for each C-shard its I-shards in order. */
  datatype Layout = Layout(peers: map<string, seq<nat>>, relatedOf: map<string, seq<string>>)

  function PeersOf(l: Layout, chain: string): seq<nat> {
    if chain in l.peers then l.peers[chain] else []
  }

  function RelatedOf(l: Layout, chain: string): seq<string> {
    if chain in l.relatedOf then l.relatedOf[chain] else []
  }

  /** A certificate lists the C-shard's I-shards and every part of it is valid. */
  ghost predicate Certified(l: Layout, c: CrossShardCommit) {
    c.Long() && c.chains == RelatedOf(l, c.upper) &&
    forall i :: 0 <= i < |c.chains| ==> ValidateVote(c, PeersOf(l, c.chains[i]), i) == CommitOk
  }

  /** The statuses that the signatures of a certificate cover, and the ones beyond them. */
  function Certain(c: CrossShardCommit): (s: seq<Status>)
    requires c.Long()
  {
    c.statuses[..|c.chains|]
  }

  function Extra(c: CrossShardCommit): (s: seq<Status>)
    requires c.Long()
  {
    c.statuses[|c.chains|..]
  }

  /** Signatures that exist. The ones in an accepted certificate do, because they cannot be forged. */
  ghost predicate Existing(c: CrossShardCommit, signed: iset<Signature<AcceptMsg>>) {
    c.Long() && forall i, s :: 0 <= i < |c.chains| && s in c.aggregates[i] ==> s in signed
  }

  /** Validator i of a chain signed two different accepts for a C-shard's height. */
  ghost predicate Equivocates(signed: iset<Signature<AcceptMsg>>, chain: string, upper: string, height: int, i: int) {
    exists x, y :: Signature(chain, i, x) in signed && Signature(chain, i, y) in signed && x != y &&
      x.upper == y.upper == upper && x.height == y.height == height
  }

  /** At most a third of a chain's weight equivocates; `faulty` marks at least those. */
  ghost predicate FewEquivocate(l: Layout, signed: iset<Signature<AcceptMsg>>, chain: string, upper: string, height: int, faulty: seq<bool>) {
    && |faulty| == |PeersOf(l, chain)|
    && 3 * Weight(PeersOf(l, chain), faulty) <= Total(PeersOf(l, chain))
    && forall i :: 0 <= i < |faulty| && Equivocates(signed, chain, upper, height, i) ==> faulty[i]
  }

  lemma {:induction false} PartsAgree(l: Layout, signed: iset<Signature<AcceptMsg>>, c: CrossShardCommit, d: CrossShardCommit, i: nat, faulty: seq<bool>)
    requires Certified(l, c) && Certified(l, d) && c.upper == d.upper && c.height == d.height
    requires Existing(c, signed) && Existing(d, signed)
    requires i < |c.chains| && Total(PeersOf(l, c.chains[i])) < LIMIT
    requires FewEquivocate(l, signed, c.chains[i], c.upper, c.height, faulty)
    ensures i < |d.chains| && AcceptOf(c, i) == AcceptOf(d, i)
  {
    hide Equivocates;
    hide Exceeds32;
    hide Weight;
    hide Total;
    var w := PeersOf(l, c.chains[i]);
    assert ValidateVote(c, w, i) == CommitOk && ValidateVote(d, w, i) == CommitOk;
    Exceeds32IsTwoThirds(Weight(w, c.bits[i]), Total(w));
    Exceeds32IsTwoThirds(Weight(w, d.bits[i]), Total(w));
    var k := QuorumsIntersect(w, c.bits[i], d.bits[i], faulty);
    ExpectedHas(c.chains[i], AcceptOf(c, i), c.bits[i], |c.bits[i]|, k);
    ExpectedHas(c.chains[i], AcceptOf(d, i), d.bits[i], |d.bits[i]|, k);
    SignedOnce(signed, c.chains[i], c.upper, c.height, k, AcceptOf(c, i), AcceptOf(d, i));
  }

  lemma {:induction false} SignedOnce(signed: iset<Signature<AcceptMsg>>, chain: string, upper: string, height: int, k: int, x: AcceptMsg, y: AcceptMsg)
    requires !Equivocates(signed, chain, upper, height, k)
    requires Signature(chain, k, x) in signed && Signature(chain, k, y) in signed
    requires x.upper == y.upper == upper && x.height == y.height == height
    ensures x == y
  {
  }

  /**
   * Cross-shard agreement. Two valid certificates for the same C-shard and height agree on the
   * block hash and on the certified status of every I-shard, if in each I-shard at most a third of
   * the weight signs more than one accept, and the C-shard has an I-shard at all. Their whole
   * status lists agree exactly if the entries beyond the certified ones do.
   */
  lemma {:induction false} CertificatesAgree(l: Layout, signed: iset<Signature<AcceptMsg>>, c: CrossShardCommit, d: CrossShardCommit, faulty: map<string, seq<bool>>)
    requires Certified(l, c) && Certified(l, d) && c.upper == d.upper && c.height == d.height
    requires Existing(c, signed) && Existing(d, signed)
    requires |c.chains| > 0
    requires forall i :: 0 <= i < |c.chains| ==> Total(PeersOf(l, c.chains[i])) < LIMIT
    requires forall i :: 0 <= i < |c.chains| ==>
               c.chains[i] in faulty && FewEquivocate(l, signed, c.chains[i], c.upper, c.height, faulty[c.chains[i]])
    ensures c.hash == d.hash && c.chains == d.chains && Certain(c) == Certain(d)
    ensures c.statuses == d.statuses <==> Extra(c) == Extra(d)
  {
    hide FewEquivocate;
    hide Existing;
    hide ValidateVote;
    forall i | 0 <= i < |c.chains|
      ensures c.statuses[i] == d.statuses[i] && c.hash == d.hash
    {
      PartsAgree(l, signed, c, d, i, faulty[c.chains[i]]);
    }
    assert c.hash == d.hash by {
      PartsAgree(l, signed, c, d, 0, faulty[c.chains[0]]);
    }
    assert c.statuses == Certain(c) + Extra(c) && d.statuses == Certain(d) + Extra(d);
  }

  /** No signature covers the list as a whole: a valid certificate with one more status is valid, too. */
  lemma {:induction false} LongerIsCertified(l: Layout, c: CrossShardCommit, more: seq<Status>)
    requires Certified(l, c)
    ensures var d := c.(statuses := c.statuses + more);
            Certified(l, d) && Certain(d) == Certain(c) && Extra(d) == Extra(c) + more && (more != [] ==> d.statuses != c.statuses)
  {
    var d := c.(statuses := c.statuses + more);
    hide VerifyAggregate;
    hide PeersOf;
    forall i | 0 <= i < |d.chains|
      ensures ValidateVote(d, PeersOf(l, d.chains[i]), i) == CommitOk
    {
      assert ValidateVote(c, PeersOf(l, c.chains[i]), i) == CommitOk;
    }
  }

  /** Without any I-shard the block is not pinned down: two empty certificates pass and differ. */
  lemma {:induction false} EmptyCertificatesDiffer(l: Layout, upper: string, height: int, x: Hash, y: Hash)
    requires RelatedOf(l, upper) == [] && x != y
    ensures var c, d := CrossShardCommit(upper, height, x, [], [], [], []), CrossShardCommit(upper, height, y, [], [], [], []);
            Certified(l, c) && Certified(l, d) && c.hash != d.hash
  {
  }

  // ----- building a certificate from collected accepts -----

  /** The bits of the validators in a list of accepts. */
  function Marked(list: seq<CrossShardAccept>, size: nat): (bits: seq<bool>)
    ensures |bits| == size && forall i :: 0 <= i < size ==> bits[i] == (i in Indices(list))
  {
    seq(size, i requires 0 <= i < size => i in Indices(list))
  }

  lemma {:induction false} AggregatedHas(list: seq<CrossShardAccept>, k: nat)
    requires k < |list|
    ensures list[k].signature in Aggregated(list)
  {
    if k > 0 {
      AggregatedHas(list[1..], k - 1);
    }
  }

  /** Accepts of distinct validators over one message aggregate to what verification expects. */
  lemma {:induction false} AggregateIsExpected(chain: string, msg: AcceptMsg, list: seq<CrossShardAccept>, size: nat)
    requires forall k :: 0 <= k < |list| ==> 0 <= list[k].validatorIndex < size && list[k].signature == Signature(chain, list[k].validatorIndex, msg)
    requires forall j, k :: 0 <= j < k < |list| ==> list[j].validatorIndex != list[k].validatorIndex
    ensures Aggregated(list) == Expected(chain, msg, Marked(list, size), size)
  {
    if list == [] {
      NoneExpected(chain, msg, Marked(list, size), size);
    } else {
      AggregateIsExpected(chain, msg, list[1..], size);
      MarkOne(list, size);
      hide Marked;
      OneMoreExpected(chain, msg, Marked(list[1..], size), list[0].validatorIndex, size);
      hide Expected;
    }
  }

  lemma {:induction false} MarkOne(list: seq<CrossShardAccept>, size: nat)
    requires list != [] && 0 <= list[0].validatorIndex < size
    requires forall j, k :: 0 <= j < k < |list| ==> list[j].validatorIndex != list[k].validatorIndex
    ensures !Marked(list[1..], size)[list[0].validatorIndex]
    ensures Marked(list, size) == Marked(list[1..], size)[list[0].validatorIndex := true]
  {
    var i := list[0].validatorIndex;
    assert Indices(list) == [i] + Indices(list[1..]);
    assert i !in Indices(list[1..]);
  }

  /**
   * The collector counts by status alone, so its winning list may hold accepts of other blocks.
   * The certificate built from the list is valid exactly when every listed accept is the one the
   * certificate claims.
   */
  lemma {:induction false} BuiltAggregateVerifiesIff(chain: string, msg: AcceptMsg, list: seq<CrossShardAccept>, rec: seq<Option<Status>>,
                                                     height: int, status: Status)
    requires Lists(list, rec, chain, height, status)
    ensures VerifyAggregate(chain, |rec|, Aggregated(list), msg, Marked(list, |rec|))
            <==> forall k :: 0 <= k < |list| ==> list[k].msg == msg
  {
    if forall k :: 0 <= k < |list| ==> list[k].msg == msg {
      AggregateIsExpected(chain, msg, list, |rec|);
    }
    if VerifyAggregate(chain, |rec|, Aggregated(list), msg, Marked(list, |rec|)) {
      forall k | 0 <= k < |list|
        ensures list[k].msg == msg
      {
        AggregatedHas(list, k);
        ExpectedOnly(chain, msg, Marked(list, |rec|), |rec|, list[k].signature);
      }
    }
  }

  /** The marked bits and the aggregate of a list of accepts. */
  method Bundle(list: seq<CrossShardAccept>, size: nat) returns (bits: seq<bool>, agg: Aggregate<AcceptMsg>)
    requires forall k :: 0 <= k < |list| ==> 0 <= list[k].validatorIndex < size
    ensures bits == Marked(list, size) && agg == Aggregated(list)
  {
    bits, agg := seq(size, _ => false), multiset{};
    for k := 0 to |list|
      invariant bits == Marked(list[..k], size)
      invariant agg + Aggregated(list[k..]) == Aggregated(list)
    {
      assert Indices(list[..k + 1]) == Indices(list[..k]) + [list[k].validatorIndex];
      assert list[k..][1..] == list[k + 1..];
      agg := agg + multiset{list[k].signature};
      bits := bits[list[k].validatorIndex := true];
    }
    assert list[..|list|] == list;
  }

  /**
   * The part of a certificate that repeats a decided collector is valid exactly when every
   * collected accept is the one the certificate claims.
   */
  lemma {:induction false} CollectedPartValidIff(s: CSAShardSet, c: CrossShardCommit, i: nat)
    requires s.Valid() && s.HasMaj23Flag
    requires c.Long() && i < |c.chains| && c.chains[i] == s.ChainID && c.height == s.Height && c.statuses[i] == s.Maj23Key
    requires c.bits[i] == Marked(s.Listed(s.Maj23Key), |s.Votes|) && c.aggregates[i] == Aggregated(s.Listed(s.Maj23Key))
    ensures ValidateVote(c, s.Votes, i) == CommitOk
            <==> forall k :: 0 <= k < |s.Listed(s.Maj23Key)| ==> s.Listed(s.Maj23Key)[k].msg == AcceptOf(c, i)
  {
    var list := s.Listed(s.Maj23Key);
    assert Lists(list, s.rec, s.ChainID, s.Height, s.Maj23Key);
    BuiltAggregateVerifiesIff(s.ChainID, AcceptOf(c, i), list, s.rec, s.Height, s.Maj23Key);
    assert Marked(list, |s.rec|) == Voters(s.rec, s.Maj23Key) by {
      MarkedAreVoters(list, s.rec, s.ChainID, s.Height, s.Maj23Key);
    }
    Exceeds32IsTwoThirds(Tally(s.Votes, s.rec, s.Maj23Key), s.TotalVotingPower);
    hide Lists;
    hide Aggregated;
    hide VerifyAggregate;
    hide Weight;
  }

  lemma {:induction false} MarkedAreVoters(list: seq<CrossShardAccept>, rec: seq<Option<Status>>, chain: string, height: int, status: Status)
    requires Lists(list, rec, chain, height, status)
    ensures Marked(list, |rec|) == Voters(rec, status)
  {
    forall i | 0 <= i < |rec|
      ensures Marked(list, |rec|)[i] == Voters(rec, status)[i]
    {
      if i in Indices(list) {
        var k :| 0 <= k < |list| && Indices(list)[k] == i;
      }
    }
  }
}
