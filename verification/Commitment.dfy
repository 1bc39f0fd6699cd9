/** From the votes that I-shards sign to the vector that every shard executes. */
module Commitments {
  import opened Basics
  import opened BitVectors
  import opened Rounds
  import opened Networks
  import opened Signatures
  import opened CrossShardVotes
  import opened Certificates

  /** The certificate is for C-shard k, and lists the names of its I-shards. */
  ghost predicate NamesShards(net: Net, names: seq<string>, c: CrossShardCommit, k: nat, order: seq<nat>) {
    && net.Shaped() && |names| == |net.home| && k < |net.home| && c.upper == names[k]
    && Elements(order) == net.related[k] && |order| == |c.chains|
    && forall i :: 0 <= i < |order| ==> order[i] < |names| && c.chains[i] == names[order[i]]
  }

  /** Honest validators of I-shard s sign, for C-shard k, the vote that their application computes. */
  ghost predicate SignsVote(net: Net, st: State, x: Input, names: seq<string>, height: int, s: nat, k: nat,
                            signed: iset<Signature<AcceptMsg>>, faulty: seq<bool>)
    requires NetOk(net) && Fits(net, st, x) && s < |names| == |net.home| && k < |net.home| && !net.isI[k] && s in net.related[k]
  {
    forall i, msg :: 0 <= i < |faulty| && !faulty[i] && Signature(names[s], i, msg) in signed && msg.upper == names[k] && msg.height == height ==>
      Decodable(msg.status) && DecodedBits(msg.status) == VoteOf(net, st, x, s, k)
  }

  /** What ties a held certificate for C-shard k to a round of the network. */
  ghost predicate Tied(net: Net, st: State, x: Input, names: seq<string>, l: Layout, signed: iset<Signature<AcceptMsg>>, c: CrossShardCommit,
                       k: nat, order: seq<nat>, faulty: map<string, seq<bool>>)
  {
    && NetOk(net) && Fits(net, st, x) && NamesShards(net, names, c, k, order) && !net.isI[k]
    && Certified(l, c) && Existing(c, signed)
    && forall i :: 0 <= i < |order| ==> c.chains[i] in faulty && SignedPart(net, st, x, names, l, signed, c, k, order[i], faulty[c.chains[i]])
  }

  ghost predicate SignedPart(net: Net, st: State, x: Input, names: seq<string>, l: Layout, signed: iset<Signature<AcceptMsg>>, c: CrossShardCommit,
                             k: nat, s: nat, faulty: seq<bool>)
    requires NetOk(net) && Fits(net, st, x) && s < |names| == |net.home| && k < |net.home| && !net.isI[k]
  {
    && NoFaultyQuorum(l, names[s], faulty)
    && (s in net.related[k] ==> SignsVote(net, st, x, names, c.height, s, k, signed, faulty))
  }

  /** The certified part of a held certificate combines to the commit vector of the round. */
  lemma {:induction false} CertifiedIsKeep(net: Net, st: State, x: Input, names: seq<string>, l: Layout, signed: iset<Signature<AcceptMsg>>,
                                           c: CrossShardCommit, k: nat, order: seq<nat>, faulty: map<string, seq<bool>>)
    requires Tied(net, st, x, names, l, signed, c, k, order, faulty)
    ensures c.Long() && Readable(Certain(c)) && Combined(Certain(c)) == Keep(net, st, x, k)
  {
    hide Certified;
    hide Existing;
    hide NoFaultyQuorum;
    hide VoteOf;
    hide Fits;
    hide DecodedBits;
    hide Decodable;
    hide NetOk;
    hide Keep;
    hide Combined;
    hide Readable;
    forall i | 0 <= i < |order|
      ensures c.Long() && order[i] in net.related[k]
      ensures Decodable(c.statuses[i]) && DecodedBits(c.statuses[i]) == VoteOf(net, st, x, order[i], k)
    {
      assert order[i] in Elements(order);
      var j := HonestSigner(l, signed, c, i, faulty[c.chains[i]]);
      assert AcceptOf(c, i).status == c.statuses[i];
    }
    SomeRelated(net, k, order);
    assert order[0] in Elements(order);
    StatusesKeep(net, st, x, k, order, Certain(c));
  }

  /**
   * The consensus half and the execution half together. What a shard executes for a C-shard is the
   * commit vector of the round, the intersection of the votes of all its I-shards, exactly if the
   * further statuses of the certificate can be read and do no harm.
   */
  lemma {:induction false} ExecutesKeepIff(net: Net, st: State, x: Input, names: seq<string>, l: Layout, signed: iset<Signature<AcceptMsg>>,
                                           c: CrossShardCommit, k: nat, order: seq<nat>, faulty: map<string, seq<bool>>)
    requires Tied(net, st, x, names, l, signed, c, k, order, faulty)
    ensures var n, r := |c.chains|, LastReset(c.statuses);
            Readable(c.statuses) && Combined(c.statuses) == Keep(net, st, x, k)
            <==> Readable(Extra(c)) && if r < n then AllAbove(c.statuses, n, |c.statuses|, Keep(net, st, x, k)) else Combined(c.statuses[r..]) == Keep(net, st, x, k)
  {
    CertifiedIsKeep(net, st, x, names, l, signed, c, k, order, faulty);
    hide Tied;
    hide Keep;
    ExtrasHarmlessIff(c);
  }
}
