/** Rounds of the whole network: every shard's store follows one serial history. */
module Networks {
  import opened Basics
  import opened Transfers
  import opened BitVectors
  import opened CrossShard
  import opened Effects
  import opened Rounds

  // ----- the graph of shards -----

  /**
   * Shards are numbered in the order of their names. Each has a home range of accounts; I-shards
   * and C-shards are related to each other.
   */
  datatype Net = Net(home: seq<Account -> bool>, isI: seq<bool>, related: seq<set<nat>>)
  {
    predicate Shaped() {
      |home| == |isI| == |related|
    }
  }

  /** Home ranges are apart, relations run both ways between the two kinds, and every C-shard has an I-shard. */
  ghost predicate NetOk(net: Net) {
    && net.Shaped()
    && (forall p, q, a :: 0 <= p < |net.home| && 0 <= q < |net.home| && p != q ==> !(net.home[p](a) && net.home[q](a)))
    && (forall p, q :: 0 <= p < |net.home| && q in net.related[p] ==>
          q < |net.home| && net.isI[q] != net.isI[p] && p in net.related[q])
    && (forall p :: 0 <= p < |net.home| && !net.isI[p] ==> net.related[p] != {})
  }

  /** A C-shard's range is its home range and those of its I-shards. */
  predicate InRange(net: Net, p: nat, a: Account)
    requires net.Shaped() && p < |net.home|
  {
    net.home[p](a) || (!net.isI[p] && exists q :: q in net.related[p] && q < |net.home| && net.home[q](a))
  }

  function RangeOf(net: Net, p: nat): Account -> bool
    requires net.Shaped() && p < |net.home|
  {
    a => InRange(net, p, a)
  }

  function Ranges(net: Net): (r: seq<Account -> bool>)
    requires net.Shaped()
    ensures |r| == |net.home| && forall p :: 0 <= p < |r| ==> r[p] == RangeOf(net, p)
  {
    seq(|net.home|, p requires 0 <= p < |net.home| => RangeOf(net, p))
  }

  /** Shard p executes the cross-shard transactions of C-shard k: its own, its C-shards', or its second-level neighbours'. */
  predicate Executes(net: Net, p: nat, k: nat)
    requires net.Shaped() && p < |net.home| && k < |net.home|
  {
    !net.isI[k] && if net.isI[p] then k in net.related[p]
                   else k == p || exists q :: q in net.related[p] && q < |net.home| && k in net.related[q]
  }

  /** Shard p executes the intra-shard transactions of shard q: its own, or those of its I-shards. */
  predicate ExecutesInner(net: Net, p: nat, q: nat)
    requires net.Shaped() && p < |net.home| && q < |net.home|
  {
    q == p || (!net.isI[p] && q in net.related[p])
  }

  lemma {:induction false} RelatedBothWays(net: Net, k: nat, s: nat)
    requires NetOk(net) && k < |net.home| && s in net.related[k]
    ensures s < |net.home| && net.isI[s] != net.isI[k] && k in net.related[s]
  {
  }

  /** A block that meets the range of a shard is executed there. */
  lemma {:induction false} MetIsExecuted(net: Net, p: nat, k: nat, a: Account)
    requires NetOk(net) && p < |net.home| && k < |net.home| && !net.isI[k] && InRange(net, p, a) && InRange(net, k, a)
    ensures Executes(net, p, k)
  {
    if k != p && !net.home[k](a) {
      var s :| s in net.related[k] && s < |net.home| && net.home[s](a);
      assert k in net.related[s];
      if !net.home[p](a) {
        var q :| q in net.related[p] && q < |net.home| && net.home[q](a);
        assert q == s;
      }
    }
  }

  /** Two C-shards meet only in an I-shard that is related to both. */
  lemma {:induction false} MeetingShard(net: Net, k: nat, c: nat, a: Account) returns (s: nat)
    requires NetOk(net) && k < |net.home| && c < |net.home| && k != c && !net.isI[k] && !net.isI[c]
    requires InRange(net, k, a) && InRange(net, c, a)
    ensures s < |net.home| && net.isI[s] && s in net.related[k] && s in net.related[c]
    ensures k in net.related[s] && c in net.related[s]
  {
    s :| s in net.related[k] && s < |net.home| && net.home[s](a);
    var t :| t in net.related[c] && t < |net.home| && net.home[t](a);
    assert s == t;
  }

  // ----- lists of shards, in name order -----

  /** The C-shards below n whose blocks shard p executes. */
  function Listing(net: Net, p: nat, n: nat): (l: seq<nat>)
    requires net.Shaped() && p < |net.home| && n <= |net.home|
    ensures forall i :: 0 <= i < |l| ==> l[i] < n && Executes(net, p, l[i])
    ensures forall i, j :: 0 <= i < j < |l| ==> l[i] < l[j]
    ensures forall k :: 0 <= k < n && Executes(net, p, k) ==> k in l
  {
    if n == 0 then [] else Listing(net, p, n - 1) + if Executes(net, p, n - 1) then [n - 1] else []
  }

  function ListOf(net: Net, p: nat): (l: seq<nat>)
    requires net.Shaped() && p < |net.home|
    ensures forall i :: 0 <= i < |l| ==> l[i] < |net.home| && Executes(net, p, l[i])
    ensures forall i, j :: 0 <= i < j < |l| ==> l[i] < l[j]
    ensures forall k :: 0 <= k < |net.home| && Executes(net, p, k) ==> k in l
  {
    Listing(net, p, |net.home|)
  }

  /** The I-shards below n that are related to C-shard k. */
  function Voters(net: Net, k: nat, n: nat): (l: seq<nat>)
    requires net.Shaped() && k < |net.home| && n <= |net.home|
    ensures forall i :: 0 <= i < |l| ==> l[i] < n && l[i] in net.related[k]
    ensures forall s :: 0 <= s < n && s in net.related[k] ==> s in l
  {
    if n == 0 then [] else Voters(net, k, n - 1) + if n - 1 in net.related[k] then [n - 1] else []
  }

  lemma {:induction false} VotersNotEmpty(net: Net, k: nat)
    requires NetOk(net) && k < |net.home| && !net.isI[k]
    ensures |Voters(net, k, |net.home|)| > 0
  {
    var s :| s in net.related[k];
    RelatedBothWays(net, k, s);
    assert s in Voters(net, k, |net.home|);
  }

  function IndexIn(l: seq<nat>, k: nat): (i: nat)
    requires k in l
    ensures i < |l| && l[i] == k
  {
    if l[0] == k then 0 else 1 + IndexIn(l[1..], k)
  }

  // ----- one round -----

  /**
   * What a round starts from besides the stores: a cross-shard block per shard (without
   * transactions for an I-shard), intra-shard transactions per shard, the recorded writes each
   * shard has by block hash, and the order in which each shard happens to write its overlays.
   */
  datatype Input = Input(cross: seq<Block>, inner: seq<seq<Tx>>, outs: seq<map<string, seq<Balances>>>, order: seq<seq<nat>>)

  datatype State = State(stores: seq<Balances>, global: Balances)

  ghost predicate Fits(net: Net, st: State, x: Input) {
    && net.Shaped()
    && |st.stores| == |x.cross| == |x.inner| == |x.outs| == |x.order| == |net.home|
    && (forall p :: 0 <= p < |net.home| ==> x.cross[p].WellFormed() && (net.isI[p] ==> x.cross[p].txs == []))
    && (forall p :: 0 <= p < |net.home| ==> CrossShard.Covers(x.order[p], |ListOf(net, p)|))
  }

  function Pick<T>(all: seq<T>, l: seq<nat>): (s: seq<T>)
    requires forall i :: 0 <= i < |l| ==> l[i] < |all|
    ensures |s| == |l| && forall i :: 0 <= i < |l| ==> s[i] == all[l[i]]
  {
    seq(|l|, i requires 0 <= i < |l| => all[l[i]])
  }

  /** I-shard s's vote on the block of C-shard k, in its own list and against its own store. */
  ghost function VoteOf(net: Net, st: State, x: Input, s: nat, k: nat): (v: seq<bool>)
    requires NetOk(net) && Fits(net, st, x) && k < |net.home| && !net.isI[k] && s in net.related[k]
    ensures |v| == |x.cross[k].txs|
  {
    RelatedBothWays(net, k, s);
    var l := ListOf(net, s);
    FinalVote(Pick(x.cross, l), IndexIn(l, k), st.stores[s], RangeOf(net, s))
  }

  ghost function VotesOn(net: Net, st: State, x: Input, k: nat): (v: seq<seq<bool>>)
    requires NetOk(net) && Fits(net, st, x) && k < |net.home| && !net.isI[k]
    ensures |v| == |Voters(net, k, |net.home|)| > 0
    ensures forall i :: 0 <= i < |v| ==> v[i] == VoteOf(net, st, x, Voters(net, k, |net.home|)[i], k)
  {
    var l := Voters(net, k, |net.home|);
    VotersNotEmpty(net, k);
    seq(|l|, i requires 0 <= i < |l| => VoteOf(net, st, x, l[i], k))
  }

  /** The commit vector of C-shard k: the intersection of its I-shards' votes. */
  ghost function Keep(net: Net, st: State, x: Input, k: nat): (v: seq<bool>)
    requires NetOk(net) && Fits(net, st, x) && k < |net.home|
    ensures |v| == |x.cross[k].txs|
  {
    if net.isI[k] then []
    else
      var votes := VotesOn(net, st, x, k);
      AndAllSize(votes, |votes|, |x.cross[k].txs|);
      AndAll(votes, |votes|)
  }

  ghost function Keeps(net: Net, st: State, x: Input): (v: seq<seq<bool>>)
    requires NetOk(net) && Fits(net, st, x)
    ensures |v| == |net.home| && forall k :: 0 <= k < |v| ==> v[k] == Keep(net, st, x, k)
  {
    seq(|net.home|, k requires 0 <= k < |net.home| => Keep(net, st, x, k))
  }

  /** Intra-shard transactions of the listed shards, each on its home range, one after the other. */
  function InnerRun(net: Net, inner: seq<seq<Tx>>, l: seq<nat>, n: nat, base: Balances): Balances
    requires n <= |l| && |inner| == |net.home| && forall i :: 0 <= i < |l| ==> l[i] < |net.home|
  {
    if n == 0 then base
    else Serial(inner[l[n - 1]], All(|inner[l[n - 1]]|), |inner[l[n - 1]]|, InnerRun(net, inner, l, n - 1, base), net.home[l[n - 1]])
  }

  /** The shards below n whose intra-shard transactions shard p executes. */
  function InnerListing(net: Net, p: nat, n: nat): (l: seq<nat>)
    requires net.Shaped() && p < |net.home| && n <= |net.home|
    ensures forall i :: 0 <= i < |l| ==> l[i] < n
    ensures forall i, j :: 0 <= i < j < |l| ==> l[i] < l[j]
    ensures forall q :: 0 <= q < n && ExecutesInner(net, p, q) ==> q in l
  {
    if n == 0 then [] else InnerListing(net, p, n - 1) + if ExecutesInner(net, p, n - 1) then [n - 1] else []
  }

  /** The global state after the committed transfers of all blocks ran one by one. */
  ghost function CrossGlobal(net: Net, st: State, x: Input): Balances
    requires NetOk(net) && Fits(net, st, x)
  {
    SerialBlocks(x.cross, Keeps(net, st, x), Ranges(net), |net.home|, st.global)
  }

  /** A shard's store after it executed the cross-shard blocks it knows, in parallel, and wrote their overlays. */
  ghost function CrossStore(net: Net, st: State, x: Input, p: nat): Balances
    requires NetOk(net) && Fits(net, st, x) && p < |net.home|
  {
    var l := ListOf(net, p);
    WriteInOrder(st.stores[p], RestrictAll(OverlayList(Pick(x.cross, l), Pick(Keeps(net, st, x), l), x.outs[p]), RangeOf(net, p)),
                 x.order[p], |x.order[p]|)
  }

  /** The round: what every shard stores, and the global serial history. */
  ghost function Next(net: Net, st: State, x: Input): (t: State)
    requires NetOk(net) && Fits(net, st, x)
    ensures |t.stores| == |st.stores|
  {
    State(seq(|net.home|, p requires 0 <= p < |net.home| =>
            InnerRun(net, x.inner, InnerListing(net, p, |net.home|), |InnerListing(net, p, |net.home|)|, CrossStore(net, st, x, p))),
          InnerRun(net, x.inner, InOrder(|net.home|), |net.home|, CrossGlobal(net, st, x)))
  }

  /** Every C-shard ships what it recorded from its own store, and recorded writes match. */
  ghost predicate HonestInput(net: Net, st: State, x: Input)
    requires Fits(net, st, x)
  {
    forall k :: 0 <= k < |net.home| ==>
      && ShipsRecorded(x.cross[k], st.stores[k], RangeOf(net, k))
      && forall p :: 0 <= p < |net.home| ==> RecordedOutputs(x.cross[k], OutputsFor(x.outs[p], x.cross[k].hash), st.stores[k], RangeOf(net, k))
  }

  /** Every shard holds, on its range, what the global history holds. */
  ghost predicate InStep(net: Net, st: State)
    requires net.Shaped()
  {
    |st.stores| == |net.home| && forall p :: 0 <= p < |net.home| ==> Agree(st.stores[p], st.global, RangeOf(net, p))
  }

  // ----- the votes -----

  lemma {:induction false} AgreeWithin(net: Net, st: State, s: nat, k: nat)
    requires NetOk(net) && InStep(net, st) && k < |net.home| && !net.isI[k] && s in net.related[k]
    ensures s < |net.home| && Agree(st.stores[s], st.stores[k], RangeOf(net, s))
  {
    RelatedBothWays(net, k, s);
    forall a | InRange(net, s, a)
      ensures Lookup(st.stores[s], a) == Lookup(st.stores[k], a)
    {
      assert InRange(net, k, a);
      assert RangeOf(net, s)(a) && RangeOf(net, k)(a);
      assert Agree(st.stores[s], st.global, RangeOf(net, s)) && Agree(st.stores[k], st.global, RangeOf(net, k));
    }
  }

  /** Each I-shard's vote is dependency-closed. */
  lemma {:induction false} VoteClosed(net: Net, st: State, x: Input, s: nat, k: nat)
    requires NetOk(net) && Fits(net, st, x) && InStep(net, st) && HonestInput(net, st, x)
    requires k < |net.home| && !net.isI[k] && s in net.related[k]
    ensures Closed(x.cross[k].txs, VoteOf(net, st, x, s, k))
  {
    AgreeWithin(net, st, s, k);
    RelatedBothWays(net, k, s);
    assert ShipsRecorded(x.cross[k], st.stores[k], RangeOf(net, k));
    var l := ListOf(net, s);
    hide Closed;
    hide FinalVote;
    hide Recorded;
    hide RangeOf;
    hide ListOf;
    FinalVoteIsFilterVote(Pick(x.cross, l), IndexIn(l, k), st.stores[s], RangeOf(net, s), st.stores[k], RangeOf(net, k));
  }

  /** So is the commit vector of every C-shard. */
  lemma {:induction false} KeepClosed(net: Net, st: State, x: Input, k: nat)
    requires NetOk(net) && Fits(net, st, x) && InStep(net, st) && HonestInput(net, st, x) && k < |net.home|
    ensures Closed(x.cross[k].txs, Keep(net, st, x, k))
  {
    if !net.isI[k] {
      var votes, l := VotesOn(net, st, x, k), Voters(net, k, |net.home|);
      forall i | 0 <= i < |votes|
        ensures |votes[i]| == |x.cross[k].txs| && Closed(x.cross[k].txs, votes[i])
      {
        VoteClosed(net, st, x, l[i], k);
      }
      AndAllClosed(x.cross[k].txs, votes);
    }
  }

  /** A kept transaction has the vote of every related I-shard. */
  lemma {:induction false} KeptByAll(net: Net, st: State, x: Input, k: nat, s: nat, i: nat)
    requires NetOk(net) && Fits(net, st, x) && k < |net.home| && !net.isI[k] && s in net.related[k]
    requires i < |x.cross[k].txs| && Keep(net, st, x, k)[i]
    ensures VoteOf(net, st, x, s, k)[i]
  {
    RelatedBothWays(net, k, s);
    var votes, l := VotesOn(net, st, x, k), Voters(net, k, |net.home|);
    hide VoteOf;
    hide Voters;
    AndAllAt(votes, |votes|, |x.cross[k].txs|, i);
    var j := IndexIn(l, s);
    assert votes[j][i];
  }

  /** Status bytes of the related I-shards, in whatever order, combine to the commit vector if they decode to their votes. */
  lemma {:induction false} StatusesKeep(net: Net, st: State, x: Input, k: nat, order: seq<nat>, statuses: seq<Bytes>)
    requires NetOk(net) && Fits(net, st, x) && k < |net.home| && !net.isI[k]
    requires Elements(order) == net.related[k] && |statuses| == |order|
    requires forall i :: 0 <= i < |order| ==>
               order[i] in net.related[k] && Decodable(statuses[i]) && DecodedBits(statuses[i]) == VoteOf(net, st, x, order[i], k)
    ensures Readable(statuses) && Combined(statuses) == Keep(net, st, x, k)
  {
    hide VoteOf;
    hide DecodedBits;
    hide Decodable;
    hide Keep;
    hide AndAll;
    hide Combined;
    hide Folded;
    var others, size := Decoded(statuses), |x.cross[k].txs|;
    SomeRelated(net, k, order);
    hide NetOk;
    CombinedIsAnd(statuses, |statuses|);
    AndAllSize(others, |others|, size);
    forall i | 0 <= i < size
      ensures AndAll(others, |others|)[i] == Keep(net, st, x, k)[i]
    {
      SameVotes(net, st, x, k, order, others, i);
    }
  }

  lemma {:induction false} SomeRelated(net: Net, k: nat, order: seq<nat>)
    requires NetOk(net) && k < |net.home| && !net.isI[k] && Elements(order) == net.related[k]
    ensures order != []
  {
    var s :| s in net.related[k];
    assert s in Elements(order);
  }

  lemma {:induction false} SameVotes(net: Net, st: State, x: Input, k: nat, order: seq<nat>, others: seq<seq<bool>>, i: nat)
    requires NetOk(net) && Fits(net, st, x) && k < |net.home| && !net.isI[k] && i < |x.cross[k].txs|
    requires Elements(order) == net.related[k] && |others| == |order| > 0
    requires forall j :: 0 <= j < |order| ==> order[j] in net.related[k] && others[j] == VoteOf(net, st, x, order[j], k)
    ensures |AndAll(others, |others|)| == |x.cross[k].txs| && AndAll(others, |others|)[i] == Keep(net, st, x, k)[i]
  {
    var votes, l, size := VotesOn(net, st, x, k), Voters(net, k, |net.home|), |x.cross[k].txs|;
    hide VoteOf;
    hide Voters;
    AndAllAt(votes, |votes|, size, i);
    AndAllAt(others, |others|, size, i);
    if Keep(net, st, x, k)[i] {
      forall j | 0 <= j < |others|
        ensures others[j][i]
      {
        KeptByAll(net, st, x, k, order[j], i);
      }
    } else {
      var j :| 0 <= j < |votes| && !votes[j][i];
      assert l[j] in Elements(order);
      assert others[IndexIn(order, l[j])] == votes[j];
    }
  }

  /** Whatever a C-shard ships, no replay of its committed transfers panics anywhere: its I-shards have tried each of them. */
  lemma {:induction false} KeepNeverPanics(net: Net, st: State, x: Input, k: nat, outputs: seq<Balances>)
    requires NetOk(net) && Fits(net, st, x) && k < |net.home|
    ensures NoPanic(x.cross[k], Keep(net, st, x, k), outputs)
  {
    if !net.isI[k] {
      var s :| s in net.related[k];
      RelatedBothWays(net, k, s);
      var keep, l := Keep(net, st, x, k), ListOf(net, s);
      forall i | 0 <= i < |keep| && keep[i]
        ensures VoteOf(net, st, x, s, k)[i]
      {
        KeptByAll(net, st, x, k, s, i);
      }
      hide Keep;
      hide FinalVote;
      hide NoPanic;
      hide ListOf;
      BelowNeverPanics(Pick(x.cross, l), IndexIn(l, k), st.stores[s], RangeOf(net, s), keep, outputs);
    }
  }

  lemma {:induction false} IndexOrder(l: seq<nat>, c: nat, k: nat)
    requires c in l && k in l && c < k && forall i, j :: 0 <= i < j < |l| ==> l[i] < l[j]
    ensures IndexIn(l, c) < IndexIn(l, k)
  {
  }

  /** The commit vectors keep the blocks of the whole network apart. */
  lemma {:induction false} KeepsDisjoint(net: Net, st: State, x: Input)
    requires NetOk(net) && Fits(net, st, x)
    ensures Disjoint(x.cross, Keeps(net, st, x), Ranges(net))
  {
    var keeps := Keeps(net, st, x);
    forall b, c, i, j | 0 <= c < b < |x.cross| && 0 <= i < |x.cross[b].txs| && 0 <= j < |x.cross[c].txs| && keeps[b][i]
      ensures !Clash(x.cross[b].txs[i], Ranges(net)[b], x.cross[c].txs[j], Ranges(net)[c])
    {
      KeptApart(net, st, x, b, c, i, j);
    }
  }

  lemma {:induction false} KeptApart(net: Net, st: State, x: Input, b: nat, c: nat, i: nat, j: nat)
    requires NetOk(net) && Fits(net, st, x) && c < b < |net.home|
    requires i < |x.cross[b].txs| && j < |x.cross[c].txs| && Keep(net, st, x, b)[i]
    ensures !Clash(x.cross[b].txs[i], RangeOf(net, b), x.cross[c].txs[j], RangeOf(net, c))
  {
    if Clash(x.cross[b].txs[i], RangeOf(net, b), x.cross[c].txs[j], RangeOf(net, c)) {
      var a :| a in Accounts(x.cross[b].txs[i]) * Accounts(x.cross[c].txs[j]) && RangeOf(net, b)(a) && RangeOf(net, c)(a);
      var s := MeetingShard(net, b, c, a);
      KeptByAll(net, st, x, b, s, i);
      var l := ListOf(net, s);
      assert Executes(net, s, b) && Executes(net, s, c);
      IndexOrder(l, c, b);
      hide FinalVote;
      hide Accounts;
      FinalVoteIsDisjoint(Pick(x.cross, l), IndexIn(l, b), st.stores[s], RangeOf(net, s), i, IndexIn(l, c), j);
      assert false;
    }
  }

  // ----- the stores -----

  /** The overlays that the global state gives rise to. */
  ghost function GlobalOverlays(net: Net, st: State, x: Input): (o: seq<Balances>)
    requires NetOk(net) && Fits(net, st, x)
    ensures |o| == |net.home|
  {
    Overlays(x.cross, Keeps(net, st, x), Ranges(net), st.global)
  }

  /** What shard p writes for the j-th block of its list: the global overlay of that block, limited to its range. */
  ghost function LocalOverlays(net: Net, st: State, x: Input, p: nat): (o: seq<Balances>)
    requires NetOk(net) && Fits(net, st, x) && p < |net.home|
    ensures |o| == |ListOf(net, p)|
  {
    var l := ListOf(net, p);
    RestrictAll(OverlayList(Pick(x.cross, l), Pick(Keeps(net, st, x), l), x.outs[p]), RangeOf(net, p))
  }

  /** Whatever path it takes, a shard computes that overlay, and its replay cannot fail. */
  lemma {:induction false} OverlayIsGlobal(net: Net, st: State, x: Input, p: nat, k: nat)
    requires NetOk(net) && Fits(net, st, x) && InStep(net, st) && HonestInput(net, st, x) && p < |net.home| && k < |net.home|
    ensures Overlay(x.cross[k], Keep(net, st, x, k), OutputsFor(x.outs[p], x.cross[k].hash), |x.cross[k].txs|) == GlobalOverlays(net, st, x)[k]
    ensures NoPanic(x.cross[k], Keep(net, st, x, k), OutputsFor(x.outs[p], x.cross[k].hash))
  {
    var b, keep, outs := x.cross[k], Keep(net, st, x, k), OutputsFor(x.outs[p], x.cross[k].hash);
    assert ShipsRecorded(b, st.stores[k], RangeOf(net, k)) && RecordedOutputs(b, outs, st.stores[k], RangeOf(net, k));
    assert Agree(st.stores[k], st.global, RangeOf(net, k));
    hide ShipsRecorded;
    hide RecordedOutputs;
    hide Agree;
    hide Applied;
    hide Overlay;
    hide NoPanic;
    OverlayIsApplied(b, keep, outs, |b.txs|, st.stores[k], RangeOf(net, k));
    AppliedWithinRange(b.txs, keep, |b.txs|, st.stores[k], st.global, RangeOf(net, k));
  }

  lemma {:induction false} LocalOverlayAt(net: Net, st: State, x: Input, p: nat, j: nat)
    requires NetOk(net) && Fits(net, st, x) && InStep(net, st) && HonestInput(net, st, x) && p < |net.home| && j < |ListOf(net, p)|
    ensures LocalOverlays(net, st, x, p)[j] == Restrict(GlobalOverlays(net, st, x)[ListOf(net, p)[j]], RangeOf(net, p))
  {
    OverlayIsGlobal(net, st, x, p, ListOf(net, p)[j]);
    hide GlobalOverlays;
    hide Overlay;
    hide NoPanic;
    hide InStep;
    hide HonestInput;
    hide ListOf;
    hide Restrict;
  }

  /** An overlay that meets a shard's range belongs to a block which that shard executes. */
  lemma {:induction false} OverlayMeets(net: Net, st: State, x: Input, p: nat, k: nat, a: Account)
    requires NetOk(net) && Fits(net, st, x) && p < |net.home| && k < |net.home| && InRange(net, p, a)
    requires a in GlobalOverlays(net, st, x)[k]
    ensures k in ListOf(net, p)
  {
    AppliedKeys(x.cross[k].txs, Keep(net, st, x, k), |x.cross[k].txs|, st.global, RangeOf(net, k), a);
    hide Applied;
    assert x.cross[k].txs != [];
    MetIsExecuted(net, p, k, a);
  }

  lemma {:induction false} LocalOverlaysDisjoint(net: Net, st: State, x: Input, p: nat)
    requires NetOk(net) && Fits(net, st, x) && InStep(net, st) && HonestInput(net, st, x) && p < |net.home|
    requires PairwiseDisjoint(GlobalOverlays(net, st, x))
    ensures PairwiseDisjoint(LocalOverlays(net, st, x, p))
  {
    var l, o, r := ListOf(net, p), GlobalOverlays(net, st, x), LocalOverlays(net, st, x, p);
    forall b, c | 0 <= c < b < |r|
      ensures r[b].Keys !! r[c].Keys
    {
      LocalOverlayAt(net, st, x, p, b);
      LocalOverlayAt(net, st, x, p, c);
      assert o[l[b]].Keys !! o[l[c]].Keys;
    }
  }

  lemma {:induction false} SameWritten(x: Balances, o: seq<Balances>, p: seq<nat>, b: nat, y: Balances, r: seq<Balances>, q: seq<nat>, c: nat, a: Account)
    requires CrossShard.Covers(p, |o|) && PairwiseDisjoint(o) && b < |o| && a in o[b]
    requires CrossShard.Covers(q, |r|) && PairwiseDisjoint(r) && c < |r| && a in r[c] && r[c][a] == o[b][a]
    ensures Lookup(WriteInOrder(x, o, p, |p|), a) == Lookup(WriteInOrder(y, r, q, |q|), a)
  {
    assert p[..|p|] == p && q[..|q|] == q;
    WrittenValue(x, o, p, |p|, b, a);
    WrittenValue(y, r, q, |q|, c, a);
  }

  lemma {:induction false} LineCovers(n: nat)
    ensures CrossShard.Covers(InOrder(n), n)
  {
    forall b | 0 <= b < n
      ensures b in InOrder(n)
    {
      assert InOrder(n)[b] == b;
    }
  }

  /** An account that some block changes ends up with the same balance in the shard's store and in the history. */
  lemma {:induction false} MetAgrees(net: Net, st: State, x: Input, p: nat, k: nat, a: Account)
    requires NetOk(net) && Fits(net, st, x) && InStep(net, st) && HonestInput(net, st, x) && p < |net.home| && InRange(net, p, a)
    requires PairwiseDisjoint(GlobalOverlays(net, st, x)) && k < |net.home| && a in GlobalOverlays(net, st, x)[k]
    ensures Lookup(CrossStore(net, st, x, p), a)
            == Lookup(WriteInOrder(st.global, GlobalOverlays(net, st, x), InOrder(|net.home|), |net.home|), a)
  {
    hide NetOk;
    hide InStep;
    hide HonestInput;
    hide GlobalOverlays;
    hide PairwiseDisjoint;
    hide CrossShard.Covers;
    hide ListOf;
    hide InOrder;
    hide WriteInOrder;
    hide RestrictAll;
    hide Lookup;
    OverlayMeets(net, st, x, p, k, a);
    LocalOverlaysDisjoint(net, st, x, p);
    LineCovers(|net.home|);
    var j := IndexIn(ListOf(net, p), k);
    LocalOverlayAt(net, st, x, p, j);
    SameWritten(st.global, GlobalOverlays(net, st, x), InOrder(|net.home|), k,
                st.stores[p], LocalOverlays(net, st, x, p), x.order[p], j, a);
  }

  /** An account that no block changes keeps its balance in both. */
  lemma {:induction false} UnmetAgrees(net: Net, st: State, x: Input, p: nat, a: Account)
    requires NetOk(net) && Fits(net, st, x) && InStep(net, st) && HonestInput(net, st, x) && p < |net.home| && InRange(net, p, a)
    requires forall k :: 0 <= k < |net.home| ==> a !in GlobalOverlays(net, st, x)[k]
    ensures Lookup(CrossStore(net, st, x, p), a)
            == Lookup(WriteInOrder(st.global, GlobalOverlays(net, st, x), InOrder(|net.home|), |net.home|), a)
  {
    var o, r, line, order := GlobalOverlays(net, st, x), LocalOverlays(net, st, x, p), InOrder(|net.home|), x.order[p];
    forall j | 0 <= j < |r|
      ensures a !in r[j]
    {
      LocalOverlayAt(net, st, x, p, j);
    }
    assert RangeOf(net, p)(a);
    UnwrittenValue(st.global, o, line, |line|, a);
    UnwrittenValue(st.stores[p], r, order, |order|, a);
  }

  /** On its range, a shard stores what the serial run of the committed transfers leaves. */
  lemma {:induction false} CrossAgrees(net: Net, st: State, x: Input, p: nat, a: Account)
    requires NetOk(net) && Fits(net, st, x) && InStep(net, st) && HonestInput(net, st, x) && p < |net.home| && InRange(net, p, a)
    requires PairwiseDisjoint(GlobalOverlays(net, st, x))
    requires CrossGlobal(net, st, x) == WriteInOrder(st.global, GlobalOverlays(net, st, x), InOrder(|net.home|), |net.home|)
    ensures Lookup(CrossStore(net, st, x, p), a) == Lookup(CrossGlobal(net, st, x), a)
  {
    hide *;
    if k :| 0 <= k < |net.home| && a in GlobalOverlays(net, st, x)[k] {
      MetAgrees(net, st, x, p, k, a);
    } else {
      UnmetAgrees(net, st, x, p, a);
    }
  }

  /** The cross-shard part of a round keeps every shard in step with the serial run. */
  lemma {:induction false} CrossInStep(net: Net, st: State, x: Input, p: nat)
    requires NetOk(net) && Fits(net, st, x) && InStep(net, st) && HonestInput(net, st, x) && p < |net.home|
    ensures Agree(CrossStore(net, st, x, p), CrossGlobal(net, st, x), RangeOf(net, p))
  {
    var keeps, ranges := Keeps(net, st, x), Ranges(net);
    KeepsDisjoint(net, st, x);
    forall k | 0 <= k < |net.home|
      ensures |keeps[k]| == |x.cross[k].txs| && Closed(x.cross[k].txs, keeps[k])
    {
      KeepClosed(net, st, x, k);
    }
    hide Closed;
    hide Disjoint;
    hide Keep;
    OverlaysDisjoint(x.cross, keeps, ranges, st.global);
    BlocksInOrder(x.cross, keeps, ranges, |net.home|, st.global);
    forall a | RangeOf(net, p)(a)
      ensures Lookup(CrossStore(net, st, x, p), a) == Lookup(CrossGlobal(net, st, x), a)
    {
      CrossAgrees(net, st, x, p, a);
    }
  }

  // ----- intra-shard blocks -----

  lemma {:induction false} InnerStep(net: Net, inner: seq<seq<Tx>>, q: nat, x: Balances, y: Balances, r: nat)
    requires NetOk(net) && |inner| == |net.home| && q < |net.home| && r < |net.home| && Agree(x, y, net.home[q])
    ensures var sx := Serial(inner[r], All(|inner[r]|), |inner[r]|, x, net.home[r]);
            && Agree(sx, Serial(inner[r], All(|inner[r]|), |inner[r]|, y, net.home[r]), net.home[q])
            && (r != q ==> Agree(sx, x, net.home[q]))
  {
    var txs := inner[r];
    if r == q {
      SerialWithinRange(txs, |txs|, x, y, net.home[q]);
    } else {
      hide Serial;
      forall a | net.home[q](a)
        ensures Lookup(Serial(txs, All(|txs|), |txs|, x, net.home[r]), a) == Lookup(x, a)
        ensures Lookup(Serial(txs, All(|txs|), |txs|, y, net.home[r]), a) == Lookup(y, a)
      {
        assert !net.home[r](a);
        SerialOutside(txs, All(|txs|), |txs|, x, net.home[r], a);
        SerialOutside(txs, All(|txs|), |txs|, y, net.home[r], a);
      }
    }
  }

  /** A list of intra-shard blocks changes a home range by that shard's block only, if the list has it. */
  lemma {:induction false} InnerOnHome(net: Net, inner: seq<seq<Tx>>, l: seq<nat>, n: nat, base: Balances, q: nat)
    requires NetOk(net) && |inner| == |net.home| && n <= |l| && q < |net.home|
    requires (forall i :: 0 <= i < |l| ==> l[i] < |net.home|) && forall i, j :: 0 <= i < j < |l| ==> l[i] < l[j]
    ensures Agree(InnerRun(net, inner, l, n, base),
                  if q in l[..n] then Serial(inner[q], All(|inner[q]|), |inner[q]|, base, net.home[q]) else base, net.home[q])
  {
    hide Serial;
    hide Agree;
    if n == 0 {
      AgreeSelf(base, net.home[q]);
    } else {
      InnerOnHome(net, inner, l, n - 1, base, q);
      assert l[..n] == l[..n - 1] + [l[n - 1]];
      var before, r := InnerRun(net, inner, l, n - 1, base), l[n - 1];
      if r == q {
        assert q !in l[..n - 1];
        InnerStep(net, inner, q, before, base, r);
      } else {
        InnerStep(net, inner, q, before, before, r) by {
          AgreeSelf(before, net.home[q]);
        }
        AgreeThrough(InnerRun(net, inner, l, n, base), before,
                     if q in l[..n] then Serial(inner[q], All(|inner[q]|), |inner[q]|, base, net.home[q]) else base, net.home[q]);
      }
    }
  }

  lemma {:induction false} AgreeThrough(x: Balances, y: Balances, z: Balances, range: Account -> bool)
    requires Agree(x, y, range) && Agree(y, z, range)
    ensures Agree(x, z, range)
  {
  }

  /** A home range inside a shard's range is one whose intra-shard block the shard executes. */
  lemma {:induction false} InnerInStep(net: Net, inner: seq<seq<Tx>>, p: nat, store: Balances, global: Balances)
    requires NetOk(net) && |inner| == |net.home| && p < |net.home| && Agree(store, global, RangeOf(net, p))
    ensures var l := InnerListing(net, p, |net.home|);
            Agree(InnerRun(net, inner, l, |l|, store), InnerRun(net, inner, InOrder(|net.home|), |net.home|, global), RangeOf(net, p))
  {
    var l, all := InnerListing(net, p, |net.home|), InOrder(|net.home|);
    forall a | RangeOf(net, p)(a)
      ensures Lookup(InnerRun(net, inner, l, |l|, store), a) == Lookup(InnerRun(net, inner, all, |all|, global), a)
    {
      var q := HomeOf(net, p, a);
      InnerHome(net, inner, p, q, store, global);
      assert net.home[q](a);
    }
  }

  lemma {:induction false} HomeOf(net: Net, p: nat, a: Account) returns (q: nat)
    requires NetOk(net) && p < |net.home| && InRange(net, p, a)
    ensures q < |net.home| && net.home[q](a) && ExecutesInner(net, p, q)
  {
    if net.home[p](a) {
      q := p;
    } else {
      q :| q in net.related[p] && q < |net.home| && net.home[q](a);
    }
  }

  lemma {:induction false} InnerHome(net: Net, inner: seq<seq<Tx>>, p: nat, q: nat, store: Balances, global: Balances)
    requires NetOk(net) && |inner| == |net.home| && p < |net.home| && q < |net.home| && ExecutesInner(net, p, q)
    requires Agree(store, global, RangeOf(net, p))
    ensures var l := InnerListing(net, p, |net.home|);
            Agree(InnerRun(net, inner, l, |l|, store), InnerRun(net, inner, InOrder(|net.home|), |net.home|, global), net.home[q])
  {
    var l, all := InnerListing(net, p, |net.home|), InOrder(|net.home|);
    forall a | net.home[q](a)
      ensures Lookup(store, a) == Lookup(global, a)
    {
      assert InRange(net, p, a);
      assert RangeOf(net, p)(a);
    }
    assert l[..|l|] == l && all[..|all|] == all && all[q] == q;
    InnerOnHome(net, inner, l, |l|, store, q);
    InnerOnHome(net, inner, all, |all|, global, q);
    InnerStep(net, inner, q, store, global, q);
    hide Serial;
    hide InnerRun;
  }

  // ----- the theorems -----

  /**
   * One round. If every shard holds on its range what the global history holds, and the C-shards
   * ship what they record, then after the round every shard, whatever its role, holds what the
   * history holds after the committed transfers of all blocks ran one by one, followed by the
   * intra-shard transactions.
   */
  lemma {:induction false} NextInStep(net: Net, st: State, x: Input)
    requires NetOk(net) && Fits(net, st, x) && InStep(net, st) && HonestInput(net, st, x)
    ensures InStep(net, Next(net, st, x))
  {
    forall p | 0 <= p < |net.home|
      ensures Agree(Next(net, st, x).stores[p], Next(net, st, x).global, RangeOf(net, p))
    {
      CrossInStep(net, st, x, p);
      hide CrossStore;
      hide CrossGlobal;
      InnerInStep(net, x.inner, p, CrossStore(net, st, x, p), CrossGlobal(net, st, x));
      hide Agree;
      hide InnerRun;
    }
  }

  // ----- the application's Execution is the round -----

  /** The intra-shard blocks that shard p is given are those of the shards in l, which are the ones it executes. */
  ghost predicate GivenInner(net: Net, x: Input, p: nat, inner: seq<Block>, ranges: map<string, Account -> bool>, l: seq<nat>)
    requires net.Shaped() && |x.inner| == |net.home| && p < |net.home|
  {
    && |inner| == |l| && (forall i, j :: 0 <= i < j < |l| ==> l[i] != l[j])
    && (forall q: nat :: q in l <==> q < |net.home| && ExecutesInner(net, p, q))
    && (forall i :: 0 <= i < |l| ==> l[i] < |net.home| && inner[i].chainID in ranges)
    && (forall i :: 0 <= i < |l| ==> ranges[inner[i].chainID] == net.home[l[i]] && inner[i].bodyTxs == x.inner[l[i]])
  }

  lemma {:induction false} GivenApart(net: Net, x: Input, p: nat, inner: seq<Block>, ranges: map<string, Account -> bool>, l: seq<nat>)
    requires NetOk(net) && |x.inner| == |net.home| && p < |net.home| && GivenInner(net, x, p, inner, ranges, l)
    ensures Apart(inner, ranges)
  {
  }

  /**
   * A C-shard's Execution is its part of a round: from the store it had, with the blocks it executes
   * in name order, their commit vectors and its intra-shard blocks in any order, it stores on its
   * range what the round says.
   */
  lemma {:induction false} ExecutionIsNext(net: Net, st: State, x: Input, p: nat, inner: seq<Block>, ranges: map<string, Account -> bool>, l: seq<nat>)
    requires NetOk(net) && Fits(net, st, x) && p < |net.home| && x.order[p] == InOrder(|ListOf(net, p)|)
    requires GivenInner(net, x, p, inner, ranges, l)
    ensures var list := ListOf(net, p);
            var overlays := RestrictAll(OverlayList(Pick(x.cross, list), Pick(Keeps(net, st, x), list), x.outs[p]), RangeOf(net, p));
            var crossed := WriteInOrder(st.stores[p], overlays, InOrder(|overlays|), |overlays|);
            && (forall b :: 0 <= b < |inner| ==> inner[b].chainID in ranges)
            && Agree(InnerState(inner, ranges, |inner|, crossed), Next(net, st, x).stores[p], RangeOf(net, p))
  {
    var crossed, all := CrossStore(net, st, x, p), InnerListing(net, p, |net.home|);
    GivenApart(net, x, p, inner, ranges, l);
    forall a | RangeOf(net, p)(a)
      ensures Lookup(InnerState(inner, ranges, |inner|, crossed), a) == Lookup(InnerRun(net, x.inner, all, |all|, crossed), a)
    {
      var q := HomeOf(net, p, a);
      SameOnHome(net, x, p, inner, ranges, l, crossed, q, a);
    }
    hide InnerState;
    hide InnerRun;
    hide WriteInOrder;
  }

  lemma {:induction false} SameOnHome(net: Net, x: Input, p: nat, inner: seq<Block>, ranges: map<string, Account -> bool>, l: seq<nat>,
                                      crossed: Balances, q: nat, a: Account)
    requires NetOk(net) && |x.inner| == |net.home| && p < |net.home| && GivenInner(net, x, p, inner, ranges, l) && Apart(inner, ranges)
    requires q < |net.home| && ExecutesInner(net, p, q) && net.home[q](a)
    ensures var all := InnerListing(net, p, |net.home|);
            Lookup(InnerState(inner, ranges, |inner|, crossed), a) == Lookup(InnerRun(net, x.inner, all, |all|, crossed), a)
  {
    var all, b := InnerListing(net, p, |net.home|), IndexIn(l, q);
    assert all[..|all|] == all;
    InnerOnHome(net, x.inner, all, |all|, crossed, q);
    InnerOnRange(inner, ranges, |inner|, crossed, b);
    hide Serial;
    hide InnerState;
    hide InnerRun;
    hide InnerListing;
  }

  /** Ranges that hold the same accounts give the same run. */
  lemma {:induction false} SameRange(txs: seq<Tx>, keep: seq<bool>, n: nat, base: Balances, r: Account -> bool, q: Account -> bool)
    requires n <= |txs| == |keep| && forall a :: r(a) <==> q(a)
    ensures Serial(txs, keep, n, base, r) == Serial(txs, keep, n, base, q)
  {
    hide Run;
    if n > 0 {
      SameRange(txs, keep, n - 1, base, r, q);
      var s := Serial(txs, keep, n - 1, base, r);
      RunLocal(txs[n - 1], Ranged(s, r), Ranged(s, q));
    }
  }

  /** The same for an I-shard, whose only intra-shard block is its own. */
  lemma {:induction false} InnerExecutionIsNext(net: Net, st: State, x: Input, p: nat)
    requires NetOk(net) && Fits(net, st, x) && p < |net.home| && net.isI[p] && x.order[p] == InOrder(|ListOf(net, p)|)
    ensures var list, txs := ListOf(net, p), x.inner[p];
            var overlays := RestrictAll(OverlayList(Pick(x.cross, list), Pick(Keeps(net, st, x), list), x.outs[p]), RangeOf(net, p));
            var crossed := WriteInOrder(st.stores[p], overlays, InOrder(|overlays|), |overlays|);
            Agree(Serial(txs, All(|txs|), |txs|, crossed, RangeOf(net, p)), Next(net, st, x).stores[p], RangeOf(net, p))
  {
    var crossed, all, txs := CrossStore(net, st, x, p), InnerListing(net, p, |net.home|), x.inner[p];
    forall a
      ensures RangeOf(net, p)(a) <==> net.home[p](a)
    {
    }
    SameRange(txs, All(|txs|), |txs|, crossed, RangeOf(net, p), net.home[p]);
    assert all[..|all|] == all;
    assert p in all;
    InnerOnHome(net, x.inner, all, |all|, crossed, p);
    hide InnerRun;
    hide Serial;
    hide WriteInOrder;
    hide InnerListing;
  }

  function Genesis(net: Net): State {
    State(seq(|net.home|, _ => map[]), map[])
  }

  /** The state after a run of rounds, each of them honest; a run that is not stays where it was. */
  ghost function After(net: Net, run: seq<Input>): (st: State)
    requires NetOk(net)
    ensures InStep(net, st)
  {
    if run == [] then Genesis(net)
    else
      var st, x := After(net, run[..|run| - 1]), run[|run| - 1];
      if Fits(net, st, x) && HonestInput(net, st, x) then NextInStep(net, st, x); Next(net, st, x) else st
  }

  /**
   * Serializability over all rounds. After any run every shard stores, account by account of its
   * range, what one serial history of the committed transfers leaves there; so two shards that
   * share an account agree on it.
   */
  lemma {:induction false} ShardsFollowHistory(net: Net, run: seq<Input>, p: nat, q: nat, a: Account)
    requires NetOk(net) && p < |net.home| && q < |net.home| && InRange(net, p, a) && InRange(net, q, a)
    ensures Lookup(After(net, run).stores[p], a) == Lookup(After(net, run).global, a) == Lookup(After(net, run).stores[q], a)
  {
    var st := After(net, run);
    assert RangeOf(net, p)(a) && RangeOf(net, q)(a);
    assert Agree(st.stores[p], st.global, RangeOf(net, p)) && Agree(st.stores[q], st.global, RangeOf(net, q));
  }

  /** In every round, a receipt of a C-block is OK exactly if the transaction is kept and succeeds in the serial history. */
  lemma {:induction false} ReceiptsFollowHistory(net: Net, st: State, x: Input, k: nat, i: nat)
    requires NetOk(net) && Fits(net, st, x) && InStep(net, st) && HonestInput(net, st, x) && k < |net.home| && i < |x.cross[k].txs|
    ensures var keeps, ranges := Keeps(net, st, x), Ranges(net);
            ReceiptOf(x.cross[k].datas[i], BitOf(keeps[k], i)) == CodeOK
            <==> keeps[k][i] && Outcome(x.cross[k].txs, keeps[k], i, SerialBlocks(x.cross, keeps, ranges, k, st.global), ranges[k]).Ok?
  {
    var keeps, ranges, g := Keeps(net, st, x), Ranges(net), st.global;
    KeepsDisjoint(net, st, x);
    KeepClosed(net, st, x, k);
    KeptBalances(x.cross, keeps, ranges, k, g);
    assert ShipsRecorded(x.cross[k], st.stores[k], ranges[k]);
    assert Agree(st.stores[k], g, ranges[k]);
    hide SerialBlocks;
    hide Closed;
    hide Disjoint;
    hide Outcome;
    hide ShipsRecorded;
    assert AgreeOnKept(x.cross[k].txs, keeps[k], st.stores[k], SerialBlocks(x.cross, keeps, ranges, k, g), ranges[k]);
    hide AgreeOnKept;
    ReceiptIsSerial(x.cross[k], keeps[k], i, st.stores[k], ranges[k], SerialBlocks(x.cross, keeps, ranges, k, g));
  }
}
