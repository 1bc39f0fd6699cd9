/** What an accepted certificate makes a shard execute, and for which block. */
module Certificates {
  import opened Basics
  import opened Quorum
  import opened BitVectors
  import opened Rounds
  import opened Signatures
  import opened CrossShardVotes
  import opened HeightDatas

  // ----- the executed vector -----

  /** The second vector is as long as the first and sets every bit that it sets. */
  predicate Above(a: seq<bool>, x: seq<bool>) {
    |a| <= |x| && forall i :: 0 <= i < |a| && a[i] ==> x[i]
  }

  /** The statuses from n up to m decode to vectors above a. */
  predicate AllAbove(list: seq<Status>, n: nat, m: nat, a: seq<bool>)
    requires n <= m <= |list|
  {
    forall i :: n <= i < m ==> Decodable(list[i]) && Above(a, DecodedBits(list[i]))
  }

  /** Intersecting with one more vector lowers a total, and leaves it as it is exactly if the vector is above it. */
  lemma {:induction false} AndLowers(t: seq<bool>, x: seq<bool>, a: seq<bool>)
    requires Above(t, a)
    ensures Above(AndBits(t, x), a)
    ensures AndBits(t, x) == a <==> t == a && Above(a, x)
  {
    if AndBits(t, x) == a {
      assert t == a;
    }
    if t == a && Above(a, x) {
      assert AndBits(t, x) == a;
    }
  }

  /** Folding on from a total lowers it, and leaves it as it is exactly if every further vector is above it. */
  lemma {:induction false} FoldOn(list: seq<Status>, n: nat, m: nat, a: seq<bool>)
    requires n <= m <= |list| && Readable(list) && forall i :: n <= i < m ==> !Nil(list[i])
    requires Folded(list, n) == Some(a)
    ensures Folded(list, m).Some? && Above(Folded(list, m).value, a)
    ensures Folded(list, m) == Some(a) <==> AllAbove(list, n, m, a)
    decreases m
  {
    hide DecodedBits;
    hide Decodable;
    if n < m {
      FoldOn(list, n, m - 1, a);
      AndLowers(Folded(list, m - 1).value, DecodedBits(list[m - 1]), a);
      hide AndBits;
      hide Above;
    }
  }

  lemma {:induction false} ReadableInParts(list: seq<Status>, n: nat)
    requires n <= |list|
    ensures Readable(list) <==> Readable(list[..n]) && Readable(list[n..])
  {
    hide Decodable;
    hide Nil;
    if Readable(list[..n]) && Readable(list[n..]) {
      forall i | 0 <= i < |list|
        ensures Decodable(list[i]) || Nil(list[i])
      {
        assert list[i] == if i < n then list[..n][i] else list[n..][i - n];
      }
    }
  }

  /** When a list of statuses combines to what its first n do. */
  lemma {:induction false} PrefixKeptIff(list: seq<Status>, n: nat)
    requires n <= |list| && Readable(list)
    ensures var k, a := LastReset(list), Combined(list[..n]);
            Combined(list) == a <==> if k < n then AllAbove(list, n, |list|, a) else Combined(list[k..]) == a
  {
    hide DecodedBits;
    hide Decodable;
    hide Nil;
    hide AllAbove;
    hide Above;
    CombinedSinceReset(list);
    FoldedLocal(list[..n], list, n);
    if LastReset(list) < n {
      FoldOn(list, n, |list|, Combined(list[..n]));
    }
  }

  /**
   * When a certificate makes a shard execute the intersection of its certified votes, whatever
   * else it carries. Its statuses can be read exactly if the further ones can. If no further one
   * is missing, they must all be above the intersection; if one is, those after the last missing
   * one must combine to it.
   */
  lemma {:induction false} ExtrasHarmlessIff(c: CrossShardCommit)
    requires c.Long() && Readable(Certain(c))
    ensures Readable(c.statuses) <==> Readable(Extra(c))
    ensures var n, k, a := |c.chains|, LastReset(c.statuses), Combined(Certain(c));
            Readable(Extra(c)) ==>
              (Combined(c.statuses) == a
               <==> if k < n then AllAbove(c.statuses, n, |c.statuses|, a) else Combined(c.statuses[k..]) == a)
  {
    hide Readable;
    hide LastReset;
    hide Combined;
    hide AllAbove;
    ReadableInParts(c.statuses, |c.chains|);
    if Readable(Extra(c)) {
      PrefixKeptIff(c.statuses, |c.chains|);
    }
  }

  /** The faulty weight of a chain is below two thirds. */
  ghost predicate NoFaultyQuorum(l: Layout, chain: string, faulty: seq<bool>) {
    && |faulty| == |PeersOf(l, chain)| && Total(PeersOf(l, chain)) < LIMIT
    && !TwoThirds(Weight(PeersOf(l, chain), faulty), Total(PeersOf(l, chain)))
  }

  /** Behind every part of a valid certificate there is a signature of an honest validator. */
  lemma {:induction false} HonestSigner(l: Layout, signed: iset<Signature<AcceptMsg>>, c: CrossShardCommit, i: nat, faulty: seq<bool>) returns (k: nat)
    requires Certified(l, c) && Existing(c, signed) && i < |c.chains| && NoFaultyQuorum(l, c.chains[i], faulty)
    ensures c.Long() && k < |faulty| && !faulty[k] && Signature(c.chains[i], k, AcceptOf(c, i)) in signed
  {
    var chain, w := c.chains[i], PeersOf(l, c.chains[i]);
    hide Total;
    hide Expected;
    assert ValidateVote(c, w, i) == CommitOk;
    Exceeds32IsTwoThirds(Weight(w, c.bits[i]), Total(w));
    hide Exceeds32;
    k := SomeoneElse(w, c.bits[i], faulty);
    hide Weight;
    ExpectedHas(chain, AcceptOf(c, i), c.bits[i], |c.bits[i]|, k);
  }

  /** Honest validators of a chain sign statuses that decode. */
  ghost predicate HonestStatuses(signed: iset<Signature<AcceptMsg>>, chain: string, faulty: seq<bool>) {
    forall i, msg :: 0 <= i < |faulty| && !faulty[i] && Signature(chain, i, msg) in signed ==> Decodable(msg.status)
  }

  /** So the certified part of a certificate can always be read, and none of it is missing. */
  lemma {:induction false} CertifiedPartDecodes(l: Layout, signed: iset<Signature<AcceptMsg>>, c: CrossShardCommit, faulty: map<string, seq<bool>>)
    requires Certified(l, c) && Existing(c, signed)
    requires forall i :: 0 <= i < |c.chains| ==> c.chains[i] in faulty && NoFaultyQuorum(l, c.chains[i], faulty[c.chains[i]])
    requires forall i :: 0 <= i < |c.chains| ==> HonestStatuses(signed, c.chains[i], faulty[c.chains[i]])
    ensures Readable(Certain(c)) && forall i :: 0 <= i < |c.chains| ==> Decodable(Certain(c)[i])
  {
    forall i | 0 <= i < |c.chains|
      ensures Decodable(c.statuses[i])
    {
      var k := HonestSigner(l, signed, c, i, faulty[c.chains[i]]);
      assert AcceptOf(c, i).status == c.statuses[i];
    }
  }

  /** A status that decoding fails on: it counts all its bits as unused, but holds a byte. */
  const UNREADABLE: Status := [8, 0]

  /** One such status makes execution fail, and the certificate stays valid. */
  lemma {:induction false} OneMoreFails(l: Layout, c: CrossShardCommit)
    requires Certified(l, c)
    ensures var d := c.(statuses := c.statuses + [UNREADABLE]);
            Certified(l, d) && Certain(d) == Certain(c) && !Readable(d.statuses)
  {
    LongerIsCertified(l, c, [UNREADABLE]);
    hide Certified;
    assert (c.statuses + [UNREADABLE])[|c.statuses|] == UNREADABLE;
    assert !Decodable(UNREADABLE) && !Nil(UNREADABLE);
  }

  /** Without further statuses, two valid certificates for a C-shard and height execute the same vector. */
  lemma {:induction false} SameVector(l: Layout, signed: iset<Signature<AcceptMsg>>, c: CrossShardCommit, d: CrossShardCommit,
                                      faulty: map<string, seq<bool>>)
    requires Certified(l, c) && Certified(l, d) && c.upper == d.upper && c.height == d.height
    requires Existing(c, signed) && Existing(d, signed) && |c.chains| > 0
    requires forall i :: 0 <= i < |c.chains| ==> Total(PeersOf(l, c.chains[i])) < LIMIT
    requires forall i :: 0 <= i < |c.chains| ==>
               c.chains[i] in faulty && FewEquivocate(l, signed, c.chains[i], c.upper, c.height, faulty[c.chains[i]])
    requires Extra(c) == Extra(d) == [] && Readable(c.statuses) && Readable(d.statuses)
    ensures Combined(c.statuses) == Combined(d.statuses)
  {
    CertificatesAgree(l, signed, c, d, faulty);
    hide Certified;
    hide Existing;
    hide FewEquivocate;
    hide Readable;
  }

  /** One more status without any bit clears the executed vector of a certificate that stays valid. */
  lemma {:induction false} OneMoreClears(l: Layout, c: CrossShardCommit, x: Status, i: nat)
    requires Certified(l, c) && Readable(c.statuses) && Decodable(x) && forall j :: 0 <= j < |DecodedBits(x)| ==> !DecodedBits(x)[j]
    ensures var d := c.(statuses := c.statuses + [x]);
            Certified(l, d) && Readable(d.statuses) && (i < |Combined(d.statuses)| ==> !Combined(d.statuses)[i])
  {
    LongerIsCertified(l, c, [x]);
    hide Certified;
    hide DecodedBits;
    FoldedLocal(c.statuses, c.statuses + [x], |c.statuses|);
  }

  /** The status that decodes to no vector. */
  const NO_VECTOR: Status := [1]

  /** After a missing vector the intersection starts afresh: a valid certificate can carry any vector at all. */
  lemma {:induction false} MissingVectorResets(l: Layout, c: CrossShardCommit, x: Status)
    requires Certified(l, c) && Readable(c.statuses) && Decodable(x) && !Nil(x)
    ensures var d := c.(statuses := c.statuses + [NO_VECTOR, x]);
            Certified(l, d) && Readable(d.statuses) && Combined(d.statuses) == DecodedBits(x)
  {
    LongerIsCertified(l, c, [NO_VECTOR, x]);
    hide Certified;
    hide DecodedBits;
    var d := c.(statuses := c.statuses + [NO_VECTOR, x]);
    assert Nil(NO_VECTOR);
    assert d.statuses[|c.statuses|] == NO_VECTOR && d.statuses[|c.statuses| + 1] == x;
    assert Folded(d.statuses, |c.statuses| + 1) == None;
  }

  // ----- the executed block -----

  /** Precommit signatures that exist. */
  ghost predicate ProposalExists(csp: CrossShardProposal, precommits: iset<Signature<PrecommitMsg>>) {
    forall s :: s in csp.agg ==> s in precommits
  }

  /** Validator i of a chain signed precommits for two block hashes at one height. */
  ghost predicate PrecommitsTwice(precommits: iset<Signature<PrecommitMsg>>, chain: string, height: int, i: int) {
    exists x, y :: Signature(chain, i, x) in precommits && Signature(chain, i, y) in precommits && x.height == y.height == height && x.hash != y.hash
  }

  /** At most a third of a C-shard's weight does so; `faulty` marks at least those. */
  ghost predicate FewPrecommitTwice(l: Layout, precommits: iset<Signature<PrecommitMsg>>, chain: string, height: int, faulty: seq<bool>) {
    && |faulty| == |PeersOf(l, chain)|
    && 3 * Weight(PeersOf(l, chain), faulty) <= Total(PeersOf(l, chain))
    && forall i :: 0 <= i < |faulty| && PrecommitsTwice(precommits, chain, height, i) ==> faulty[i]
  }

  /** Two decided proposals of a C-shard for one height carry the same block hash. */
  lemma {:induction false} DecidedOnce(l: Layout, precommits: iset<Signature<PrecommitMsg>>, x: CrossShardProposal, y: CrossShardProposal,
                                       height: int, faulty: seq<bool>)
    requires JudgeProposal(l, height, x) == CspAdded && JudgeProposal(l, height, y) == CspAdded && x.header.chainID == y.header.chainID
    requires ProposalExists(x, precommits) && ProposalExists(y, precommits)
    requires FewPrecommitTwice(l, precommits, x.header.chainID, height, faulty)
    ensures x.hash == y.hash
  {
    hide Weight;
    hide Total;
    hide Expected;
    var chain, w := x.header.chainID, PeersOf(l, x.header.chainID);
    var k := QuorumsIntersect(w, x.bits, y.bits, faulty);
    var mx, my := PrecommitMsg(height, x.header.round, x.hash, x.code), PrecommitMsg(height, y.header.round, y.hash, y.code);
    ExpectedHas(chain, mx, x.bits, |x.bits|, k);
    ExpectedHas(chain, my, y.bits, |y.bits|, k);
    assert Signature(chain, k, mx) in precommits && Signature(chain, k, my) in precommits;
    assert !PrecommitsTwice(precommits, chain, height, k);
  }

  /**
   * What an honest I-shard validator signs: an accept for the hash of a decided proposal it holds.
   * `seen` is the proposal it held.
   */
  ghost predicate AcceptsDecided(l: Layout, precommits: iset<Signature<PrecommitMsg>>, msg: AcceptMsg, seen: CrossShardProposal) {
    && JudgeProposal(l, msg.height, seen) == CspAdded && ProposalExists(seen, precommits)
    && seen.header.chainID == msg.upper && seen.hash == msg.hash
  }

  ghost predicate HonestAccepts(l: Layout, precommits: iset<Signature<PrecommitMsg>>, signed: iset<Signature<AcceptMsg>>, chain: string,
                                faulty: seq<bool>)
  {
    forall i, msg :: 0 <= i < |faulty| && !faulty[i] && Signature(chain, i, msg) in signed ==>
      exists seen :: AcceptsDecided(l, precommits, msg, seen)
  }

  /**
   * The certificate and the block that a shard holds for a C-shard carry the same hash, although
   * they are never compared: honest validators of an I-shard accept decided hashes only, and a
   * C-shard decides one hash per height. In the I-shard the faulty weight is below two thirds.
   */
  lemma {:induction false} HeldBlockIsCertified(l: Layout, precommits: iset<Signature<PrecommitMsg>>, signed: iset<Signature<AcceptMsg>>,
                                                csc: CrossShardCommit, csp: CrossShardProposal, cFaulty: seq<bool>, iFaulty: seq<bool>)
    requires Certified(l, csc) && Existing(csc, signed) && |csc.chains| > 0
    requires csp.header.chainID == csc.upper && JudgeProposal(l, csc.height, csp) == CspAdded && ProposalExists(csp, precommits)
    requires FewPrecommitTwice(l, precommits, csc.upper, csc.height, cFaulty)
    requires NoFaultyQuorum(l, csc.chains[0], iFaulty)
    requires HonestAccepts(l, precommits, signed, csc.chains[0], iFaulty)
    ensures csc.hash == csp.hash
  {
    hide Certified;
    hide Existing;
    hide NoFaultyQuorum;
    hide JudgeProposal;
    hide FewPrecommitTwice;
    var k := HonestSigner(l, signed, csc, 0, iFaulty);
    var seen :| AcceptsDecided(l, precommits, AcceptOf(csc, 0), seen);
    DecidedOnce(l, precommits, csp, seen, csc.height, cFaulty);
  }

  /** A quorum has a member outside any set that is no quorum. */
  lemma {:induction false} SomeoneElse(w: seq<nat>, bits: seq<bool>, f: seq<bool>) returns (k: nat)
    requires |w| == |bits| == |f| && TwoThirds(Weight(w, bits), Total(w)) && !TwoThirds(Weight(w, f), Total(w))
    ensures k < |w| && bits[k] && !f[k]
  {
    if j :| 0 <= j < |w| && bits[j] && !f[j] {
      k := j;
    } else {
      WeightGrows(w, bits, f);
      assert false;
    }
  }
}
