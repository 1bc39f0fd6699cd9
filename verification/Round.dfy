/** One round of cross-shard execution: votes are combined, survivors executed. */
module Rounds {
  import opened Basics
  import opened Transfers
  import opened BitVectors
  import opened CrossShard

  // ----- combining the votes of the related shards -----

  /** The bitwise intersection of the first n votes; no votes give the empty vector. */
  function AndAll(votes: seq<seq<bool>>, n: nat): seq<bool>
    requires n <= |votes|
  {
    if n == 0 then [] else if n == 1 then votes[0] else AndBits(AndAll(votes, n - 1), votes[n - 1])
  }

  /** Statuses that the loop can read: each decodes to a vector or to none. */
  predicate Readable(list: seq<Bytes>) {
    forall i :: 0 <= i < |list| ==> Decodable(list[i]) || Nil(list[i])
  }

  /** The running total after a status: none read yet, or the intersection so far, which a missing vector resets. */
  function Folded(list: seq<Bytes>, n: nat): Option<seq<bool>>
    requires n <= |list| && Readable(list)
  {
    if n == 0 then None
    else if Nil(list[n - 1]) then None
    else match Folded(list, n - 1)
      case None => Some(DecodedBits(list[n - 1]))
      case Some(total) => Some(AndBits(total, DecodedBits(list[n - 1])))
  }

  /** The vector a certificate's statuses amount to; no vector counts as the empty one. */
  function Combined(list: seq<Bytes>): seq<bool>
    requires Readable(list)
  {
    var total := Folded(list, |list|);
    if total.Some? then total.value else []
  }

  /** The loop over a commit's statuses in executionAllBlocks. It fails on the first one it cannot read. */
  method CombineStatuses(list: seq<Bytes>) returns (ok: bool, total: BitVector?)
    ensures ok <==> Readable(list)
    ensures ok ==> (total == null <==> Folded(list, |list|) == None)
    ensures ok && total != null ==> fresh(total) && total.Valid() && Some(total.Bits()) == Folded(list, |list|)
    ensures ok ==> Combined(list) == if total == null then [] else total.Bits()
  {
    hide Decodable;
    hide Nil;
    hide DecodedBits;
    hide Unpack;
    hide AndBits;
    total := null;
    for i := 0 to |list|
      invariant forall k :: 0 <= k < i ==> Decodable(list[k]) || Nil(list[k])
      invariant total == null <==> Folded(list[..i], i) == None
      invariant total != null ==> fresh(total) && total.Valid() && Some(total.Bits()) == Folded(list[..i], i)
    {
      if !Decodable(list[i]) && !Nil(list[i]) {
        return false, null;
      }
      FoldedLocal(list[..i], list[..i + 1], i);
      var next := FromByte(list[i]);
      if total == null {
        total := next;
      } else {
        total := total.And(next);
      }
    }
    assert list[..|list|] == list;
    ok := true;
  }

  /** The running total depends on the statuses read so far only. */
  lemma {:induction false} FoldedLocal(x: seq<Bytes>, y: seq<Bytes>, n: nat)
    requires n <= |x| && n <= |y| && x[..n] == y[..n] && Readable(x) && Readable(y)
    ensures Folded(x, n) == Folded(y, n)
  {
    hide Readable;
    hide DecodedBits;
    hide AndBits;
    if n > 0 {
      assert x[..n - 1] == x[..n][..n - 1] && y[..n - 1] == y[..n][..n - 1];
      assert x[n - 1] == x[..n][n - 1] && y[n - 1] == y[..n][n - 1];
      FoldedLocal(x, y, n - 1);
    }
  }

  /** The position after the last missing vector. */
  function LastReset(list: seq<Bytes>): (k: nat)
    ensures k <= |list| && (k > 0 ==> Nil(list[k - 1])) && forall i :: k <= i < |list| ==> !Nil(list[i])
  {
    if list == [] then 0 else if Nil(list[|list| - 1]) then |list| else LastReset(list[..|list| - 1])
  }

  /** What was read before a missing vector does not matter after it. */
  lemma {:induction false} FoldedAfter(list: seq<Bytes>, k: nat, n: nat)
    requires k <= n <= |list| && Readable(list) && (k > 0 ==> Nil(list[k - 1]))
    ensures Folded(list, n) == Folded(list[k..], n - k)
  {
    hide DecodedBits;
    hide AndBits;
    hide Decodable;
    if k < n {
      FoldedAfter(list, k, n - 1);
    }
  }

  lemma {:induction false} CombinedSinceReset(list: seq<Bytes>)
    requires Readable(list)
    ensures Readable(list[LastReset(list)..]) && Combined(list) == Combined(list[LastReset(list)..])
    ensures LastReset(list) < |list| <==> Folded(list, |list|).Some?
  {
    hide DecodedBits;
    hide AndBits;
    hide Decodable;
    FoldedAfter(list, LastReset(list), |list|);
  }

  function Decoded(list: seq<Bytes>): (votes: seq<seq<bool>>)
    requires forall i :: 0 <= i < |list| ==> Decodable(list[i])
    ensures |votes| == |list| && forall i :: 0 <= i < |list| ==> votes[i] == DecodedBits(list[i])
  {
    seq(|list|, i requires 0 <= i < |list| => DecodedBits(list[i]))
  }

  /** Statuses that all decode combine to their intersection. */
  lemma {:induction false} CombinedIsAnd(list: seq<Bytes>, n: nat)
    requires n <= |list| && forall i :: 0 <= i < |list| ==> Decodable(list[i])
    ensures Folded(list, n) == if n == 0 then None else Some(AndAll(Decoded(list), n))
    ensures n == |list| ==> Combined(list) == AndAll(Decoded(list), n)
  {
    hide AndBits;
    hide DecodedBits;
    if n > 0 {
      CombinedIsAnd(list, n - 1);
    }
  }

  /** A bit survives exactly when every vote sets it. */
  lemma {:induction false} AndAllAt(votes: seq<seq<bool>>, n: nat, size: nat, i: nat)
    requires 0 < n <= |votes| && forall k :: 0 <= k < |votes| ==> |votes[k]| == size
    requires i < size
    ensures |AndAll(votes, n)| == size
    ensures AndAll(votes, n)[i] <==> forall k :: 0 <= k < n ==> votes[k][i]
  {
    if n > 1 {
      AndAllAt(votes, n - 1, size, i);
    }
  }

  lemma {:induction false} AndAllSize(votes: seq<seq<bool>>, n: nat, size: nat)
    requires 0 < n <= |votes| && forall k :: 0 <= k < |votes| ==> |votes[k]| == size
    ensures |AndAll(votes, n)| == size
  {
    if n > 1 {
      AndAllSize(votes, n - 1, size);
    }
  }

  /** Intersecting dependency-closed votes gives a dependency-closed vote. */
  lemma {:induction false} AndAllClosed(txs: seq<Tx>, votes: seq<seq<bool>>)
    requires votes != [] && forall k :: 0 <= k < |votes| ==> |votes[k]| == |txs| && Closed(txs, votes[k])
    ensures |AndAll(votes, |votes|)| == |txs|
    ensures Closed(txs, AndAll(votes, |votes|))
  {
    AndAllSize(votes, |votes|, |txs|);
    var total := AndAll(votes, |votes|);
    forall i, j | 0 <= j < i < |txs| && total[i] && Conflict(txs[i], txs[j])
      ensures total[j]
    {
      AndAllAt(votes, |votes|, |txs|, i);
      AndAllAt(votes, |votes|, |txs|, j);
      forall k | 0 <= k < |votes|
        ensures votes[k][j]
      {
        assert Closed(txs, votes[k]) && votes[k][i];
      }
    }
  }

  // ----- the whole round -----

  /** The commit vector keeps nothing the vote dropped. */
  predicate Below(keep: seq<bool>, vote: seq<bool>) {
    |keep| == |vote| && forall i :: 0 <= i < |keep| && keep[i] ==> vote[i]
  }

  /** Every block ships what its C-shard recorded from the global state, and recorded outputs match. */
  ghost predicate Honest(blocks: seq<Block>, ranges: seq<Account -> bool>, outs: map<string, seq<Balances>>, global: Balances)
    requires |blocks| == |ranges|
  {
    forall b :: 0 <= b < |blocks| ==>
      ShipsRecorded(blocks[b], global, ranges[b]) && RecordedOutputs(blocks[b], OutputsFor(outs, blocks[b].hash), global, ranges[b])
  }

  /** Commit vectors below a shard's own votes keep the blocks of its list apart, whatever their ranges. */
  lemma {:induction false} BelowVotesIsDisjoint(blocks: seq<Block>, keeps: seq<seq<bool>>, ranges: seq<Account -> bool>, base: Balances,
                                                range: Account -> bool)
    requires |blocks| == |keeps| == |ranges| && forall b :: 0 <= b < |blocks| ==> blocks[b].WellFormed()
    requires forall b :: 0 <= b < |blocks| ==> |keeps[b]| == |blocks[b].txs|
    requires forall b :: 0 <= b < |blocks| ==> Below(keeps[b], FinalVote(blocks, b, base, range))
    ensures Disjoint(blocks, keeps, ranges)
  {
    hide FinalVote;
    forall b, c, i, j | 0 <= c < b < |blocks| && 0 <= i < |blocks[b].txs| && 0 <= j < |blocks[c].txs| && keeps[b][i]
      ensures !Clash(blocks[b].txs[i], ranges[b], blocks[c].txs[j], ranges[c])
    {
      assert Below(keeps[b], FinalVote(blocks, b, base, range));
      FinalVoteIsDisjoint(blocks, b, base, range, i, c, j);
    }
  }

  /** What an I-shard voted for it replayed itself, so a commit vector below its vote never leads to the panic, whatever was shipped. */
  lemma {:induction false} BelowNeverPanics(blocks: seq<Block>, b: nat, base: Balances, range: Account -> bool, keep: seq<bool>,
                                            outputs: seq<Balances>)
    requires b < |blocks| && blocks[b].WellFormed() && Below(keep, FinalVote(blocks, b, base, range))
    ensures NoPanic(blocks[b], keep, outputs)
  {
    var k, vote := blocks[b], Vote(blocks[b].txs, Union(blocks, b));
    hide Run;
    hide Fresh;
    hide Recheck;
    forall i | |outputs| <= i < |k.txs| && ReceiptOf(k.datas[i], BitOf(keep, i)) == CodeOK
      ensures Run(k.txs[i], Shipped(k.datas[i].data)).Ok?
    {
      assert FinalVote(blocks, b, base, range)[i];
      RecheckAt(k.txs, k.datas, vote, |k.txs|, i, base, range);
    }
  }

  lemma {:induction false} HonestOverlays(blocks: seq<Block>, keeps: seq<seq<bool>>, ranges: seq<Account -> bool>,
                                          outs: map<string, seq<Balances>>, global: Balances)
    requires |blocks| == |keeps| == |ranges| && Honest(blocks, ranges, outs, global)
    requires forall b :: 0 <= b < |blocks| ==> |keeps[b]| == |blocks[b].txs|
    ensures forall b :: 0 <= b < |blocks| ==> blocks[b].WellFormed()
    ensures forall b :: 0 <= b < |blocks| ==> NoPanic(blocks[b], keeps[b], OutputsFor(outs, blocks[b].hash))
    ensures OverlayList(blocks, keeps, outs) == Overlays(blocks, keeps, ranges, global)
  {
    hide Overlay;
    hide Applied;
    hide NoPanic;
    hide Recorded;
    hide OutputList;
    forall b | 0 <= b < |blocks|
      ensures blocks[b].WellFormed() && NoPanic(blocks[b], keeps[b], OutputsFor(outs, blocks[b].hash))
      ensures Overlay(blocks[b], keeps[b], OutputsFor(outs, blocks[b].hash), |blocks[b].txs|)
              == Applied(blocks[b].txs, keeps[b], |blocks[b].txs|, global, ranges[b])
    {
      OverlayIsApplied(blocks[b], keeps[b], OutputsFor(outs, blocks[b].hash), |blocks[b].txs|, global, ranges[b]);
    }
  }

  /**
   * One shard's execution. If every block ships honest data from a global state the shard agrees
   * with on its range, and the commit vectors are closed and keep the blocks apart, then executing
   * in parallel, on either path and writing in any order, leaves on the shard's range the serial
   * run of the committed transfers; the replay panic is unreachable.
   */
  lemma {:induction false} RoundIsSerial(blocks: seq<Block>, keeps: seq<seq<bool>>, ranges: seq<Account -> bool>,
                                         outs: map<string, seq<Balances>>, global: Balances, base: Balances,
                                         range: Account -> bool, order: seq<nat>, a: Account)
    requires |blocks| == |keeps| == |ranges| && Honest(blocks, ranges, outs, global)
    requires forall b :: 0 <= b < |blocks| ==> blocks[b].WellFormed()
    requires forall b :: 0 <= b < |blocks| ==> |keeps[b]| == |blocks[b].txs| && Closed(blocks[b].txs, keeps[b])
    requires Disjoint(blocks, keeps, ranges)
    requires Covers(order, |blocks|) && Agree(base, global, range) && range(a)
    ensures forall b :: 0 <= b < |blocks| ==> NoPanic(blocks[b], keeps[b], OutputsFor(outs, blocks[b].hash))
    ensures Lookup(WriteInOrder(base, RestrictAll(OverlayList(blocks, keeps, outs), range), order, |order|), a)
            == Lookup(SerialBlocks(blocks, keeps, ranges, |blocks|, global), a)
  {
    hide *;
    HonestOverlays(blocks, keeps, ranges, outs, global);
    StoredIsSerial(blocks, keeps, ranges, global, base, range, order, a);
  }

  /** A transaction's receipt is OK exactly if it is kept and succeeds at its place in the serial run of the whole round. */
  lemma {:induction false} RoundReceipts(blocks: seq<Block>, keeps: seq<seq<bool>>, ranges: seq<Account -> bool>,
                                         outs: map<string, seq<Balances>>, global: Balances, b: nat, i: nat)
    requires |blocks| == |keeps| == |ranges| && Honest(blocks, ranges, outs, global)
    requires forall k :: 0 <= k < |blocks| ==> |keeps[k]| == |blocks[k].txs| && Closed(blocks[k].txs, keeps[k])
    requires Disjoint(blocks, keeps, ranges) && b < |blocks| && i < |blocks[b].txs| && blocks[b].WellFormed()
    ensures ReceiptOf(blocks[b].datas[i], BitOf(keeps[b], i)) == CodeOK
            <==> keeps[b][i] && Outcome(blocks[b].txs, keeps[b], i, SerialBlocks(blocks, keeps, ranges, b, global), ranges[b]).Ok?
  {
    assert ShipsRecorded(blocks[b], global, ranges[b]);
    assert Closed(blocks[b].txs, keeps[b]);
    hide *;
    KeptBalances(blocks, keeps, ranges, b, global);
    ReceiptIsSerial(blocks[b], keeps[b], i, global, ranges[b], SerialBlocks(blocks, keeps, ranges, b, global));
  }
}
