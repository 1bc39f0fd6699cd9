/** What runs, votes, overlays and blocks do, account by account and in plain terms. */
module Effects {
  import opened Transfers
  import opened CrossShard

  // ----- one transaction of a serial run -----

  /** A dropped or failing transaction changes nothing. */
  lemma {:induction false} SerialSkips(txs: seq<Tx>, keep: seq<bool>, n: nat, base: Balances, range: Account -> bool)
    requires n < |txs| == |keep| && (!keep[n] || Run(txs[n], Ranged(Serial(txs, keep, n, base, range), range)).Err?)
    ensures Serial(txs, keep, n + 1, base, range) == Serial(txs, keep, n, base, range)
  {
    hide Run;
  }

  lemma {:induction false} SerialNext(txs: seq<Tx>, keep: seq<bool>, n: nat, base: Balances, range: Account -> bool)
    requires n < |txs| == |keep| && keep[n] && Run(txs[n], Ranged(Serial(txs, keep, n, base, range), range)).Ok?
    ensures var s := Serial(txs, keep, n, base, range);
            Serial(txs, keep, n + 1, base, range) == s + Run(txs[n], Ranged(s, range)).value
  {
    hide Run;
  }

  /** A kept transfer that succeeds adds an account's last credit to its balance, modulo 2^32. */
  lemma {:induction false} SerialCredits(txs: seq<Tx>, keep: seq<bool>, n: nat, base: Balances, range: Account -> bool, t: TransferTx, i: nat)
    requires n < |txs| == |keep| && keep[n] && txs[n] == Transfer(t)
    requires Run(txs[n], Ranged(Serial(txs, keep, n, base, range), range)).Ok?
    requires i < |t.to| && forall k :: i < k < |t.to| ==> t.to[k] != t.to[i]
    ensures |t.to| == |t.toMoney|
    ensures Lookup(Serial(txs, keep, n + 1, base, range), t.to[i])
            == (Lookup(Serial(txs, keep, n, base, range), t.to[i]) + t.toMoney[i]) % 0x1_0000_0000
  {
    hide Run;
    hide Serial;
    SerialNext(txs, keep, n, base, range);
    PayeeGets(t, Ranged(Serial(txs, keep, n, base, range), range), i);
  }

  /** It takes the last debit off an account that only pays. */
  lemma {:induction false} SerialDebits(txs: seq<Tx>, keep: seq<bool>, n: nat, base: Balances, range: Account -> bool, t: TransferTx, i: nat)
    requires n < |txs| == |keep| && keep[n] && txs[n] == Transfer(t)
    requires Run(txs[n], Ranged(Serial(txs, keep, n, base, range), range)).Ok?
    requires i < |t.from| && t.from[i] !in t.to && forall k :: i < k < |t.from| ==> t.from[k] != t.from[i]
    ensures |t.from| == |t.fromMoney|
    ensures Lookup(Serial(txs, keep, n + 1, base, range), t.from[i])
            == Lookup(Serial(txs, keep, n, base, range), t.from[i]) - t.fromMoney[i]
  {
    hide Run;
    hide Serial;
    SerialNext(txs, keep, n, base, range);
    PayerPays(t, Ranged(Serial(txs, keep, n, base, range), range), i);
  }

  /** It leaves every other account alone. */
  lemma {:induction false} SerialLeaves(txs: seq<Tx>, keep: seq<bool>, n: nat, base: Balances, range: Account -> bool, a: Account)
    requires n < |txs| == |keep| && a !in Accounts(txs[n])
    ensures Lookup(Serial(txs, keep, n + 1, base, range), a) == Lookup(Serial(txs, keep, n, base, range), a)
  {
    hide Run;
  }

  // ----- the final vote -----

  lemma {:induction false} RecheckNext(txs: seq<Tx>, datas: seq<ReadData>, bits: seq<bool>, n: nat, base: Balances, range: Account -> bool)
    requires n < |txs| == |datas| == |bits|
    ensures var s := Recheck(txs, datas, bits, n, base, range).state;
            Recheck(txs, datas, bits, n + 1, base, range).state
            == if bits[n] && PassesAt(txs, datas, bits, n, base, range) && datas[n].ok then s + Run(txs[n], Shipped(datas[n].data)).value else s
  {
    hide Run;
    hide Fresh;
  }

  lemma {:induction false} PassesGives(txs: seq<Tx>, datas: seq<ReadData>, bits: seq<bool>, n: nat, base: Balances, range: Account -> bool)
    requires n < |txs| == |datas| == |bits| && PassesAt(txs, datas, bits, n, base, range)
    ensures datas[n].ReadData? && (datas[n].ok ==> Run(txs[n], Shipped(datas[n].data)).Ok?)
  {
    hide Run;
    hide Fresh;
  }

  /** The freshness phase reaches, before each transaction, the state that the finally voted ones replay to. */
  lemma {:induction false} RecheckState(txs: seq<Tx>, datas: seq<ReadData>, bits: seq<bool>, n: nat, base: Balances, range: Account -> bool)
    requires n <= |txs| == |datas| == |bits|
    ensures Recheck(txs, datas, bits, n, base, range).state
            == Replayed(txs, datas, Recheck(txs, datas, bits, |txs|, base, range).bits, n, base)
  {
    hide Run;
    hide Fresh;
    hide RecheckOne;
    if n > 0 {
      hide Recheck;
      hide PassesAt;
      RecheckState(txs, datas, bits, n - 1, base, range);
      RecheckAt(txs, datas, bits, |txs|, n - 1, base, range);
      RecheckNext(txs, datas, bits, n - 1, base, range);
      if PassesAt(txs, datas, bits, n - 1, base, range) {
        PassesGives(txs, datas, bits, n - 1, base, range);
      }
    }
  }

  /**
   * What an I-shard votes for. The final vote keeps transaction i exactly if the dependency filter
   * does, its read data decodes, and, if it is said to have succeeded, it succeeds on that data and
   * every shipped balance inside the shard's range is the one that the transactions of the block
   * that are kept before it leave.
   */
  lemma {:induction false} FinalVoteIff(blocks: seq<Block>, b: nat, i: nat, base: Balances, range: Account -> bool)
    requires b < |blocks| && blocks[b].WellFormed() && i < |blocks[b].txs|
    ensures var k, vote := blocks[b], FinalVote(blocks, b, base, range);
            vote[i]
            <==> && Vote(k.txs, Union(blocks, b))[i] && k.datas[i].ReadData?
                 && (k.datas[i].ok ==>
                       && Run(k.txs[i], Shipped(k.datas[i].data)).Ok?
                       && forall a :: a in k.datas[i].data && range(a) ==>
                            k.datas[i].data[a] == Lookup(Replayed(k.txs, k.datas, vote, i, base), a))
  {
    var k, bits := blocks[b], Vote(blocks[b].txs, Union(blocks, b));
    RecheckAt(k.txs, k.datas, bits, |k.txs|, i, base, range);
    RecheckState(k.txs, k.datas, bits, i, base, range);
    hide Run;
    hide Recheck;
    hide Vote;
    hide Lookup;
    hide Replayed;
  }

  // ----- overlays -----

  /** The transaction is executed: its data decodes, says that it succeeded, and the commit vector keeps it. */
  predicate IsExecuted(k: Block, bits: seq<bool>, i: nat)
    requires k.WellFormed() && i < |k.txs|
  {
    k.datas[i].ReadData? && k.datas[i].ok && i < |bits| && bits[i]
  }

  /** What executing transaction i writes: the recorded writes if there are any, else what the replay gives. */
  function WritesOf(k: Block, outputs: seq<Balances>, i: nat): Balances
    requires k.WellFormed() && i < |k.txs| && k.datas[i].ReadData?
  {
    if i < |outputs| then outputs[i]
    else match Run(k.txs[i], Shipped(k.datas[i].data))
      case Ok(w) => w
      case Err(_) => map[]
  }

  lemma {:induction false} OverlayNext(k: Block, bits: seq<bool>, outputs: seq<Balances>, n: nat)
    requires k.WellFormed() && n < |k.txs|
    ensures var o := Overlay(k, bits, outputs, n);
            Overlay(k, bits, outputs, n + 1) == if IsExecuted(k, bits, n) then o + WritesOf(k, outputs, n) else o
  {
    hide Run;
    var o := Overlay(k, bits, outputs, n);
    assert o + map[] == o;
  }

  /** The last executed transaction that writes an account decides its entry. */
  lemma {:induction false} OverlayLast(k: Block, bits: seq<bool>, outputs: seq<Balances>, n: nat, i: nat, a: Account)
    requires k.WellFormed() && i < n <= |k.txs| && IsExecuted(k, bits, i) && a in WritesOf(k, outputs, i)
    requires forall j :: i < j < n && IsExecuted(k, bits, j) ==> a !in WritesOf(k, outputs, j)
    ensures a in Overlay(k, bits, outputs, n) && Overlay(k, bits, outputs, n)[a] == WritesOf(k, outputs, i)[a]
  {
    OverlayNext(k, bits, outputs, n - 1);
    hide Overlay;
    hide WritesOf;
    if i < n - 1 {
      OverlayLast(k, bits, outputs, n - 1, i, a);
    }
  }

  /** An account that no executed transaction writes has no entry. */
  lemma {:induction false} OverlayNone(k: Block, bits: seq<bool>, outputs: seq<Balances>, n: nat, a: Account)
    requires k.WellFormed() && n <= |k.txs| && forall j :: 0 <= j < n && IsExecuted(k, bits, j) ==> a !in WritesOf(k, outputs, j)
    ensures a !in Overlay(k, bits, outputs, n)
  {
    hide WritesOf;
    if n > 0 {
      OverlayNone(k, bits, outputs, n - 1, a);
      OverlayNext(k, bits, outputs, n - 1);
    }
  }

  // ----- intra-shard blocks one after the other -----

  /** The ranges of the listed blocks are pairwise apart. */
  ghost predicate Apart(inner: seq<Block>, ranges: map<string, Account -> bool>) {
    && (forall b :: 0 <= b < |inner| ==> inner[b].chainID in ranges)
    && forall b, c, a :: 0 <= c < b < |inner| ==> !(ranges[inner[b].chainID](a) && ranges[inner[c].chainID](a))
  }

  lemma {:induction false} ApartAt(inner: seq<Block>, ranges: map<string, Account -> bool>, b: nat, c: nat)
    requires Apart(inner, ranges) && b < |inner| && c < |inner| && b != c
    ensures forall a :: !(ranges[inner[b].chainID](a) && ranges[inner[c].chainID](a))
  {
  }

  lemma {:induction false} AgreeSelf(x: Balances, range: Account -> bool)
    ensures Agree(x, x, range)
  {
  }

  /** A run that agrees on a range before it agrees on it afterwards; a run elsewhere does not touch it. */
  lemma {:induction false} RunOnRange(txs: seq<Tx>, x: Balances, y: Balances, range: Account -> bool, other: Account -> bool)
    requires Agree(x, y, range)
    ensures Agree(Serial(txs, All(|txs|), |txs|, x, range), Serial(txs, All(|txs|), |txs|, y, range), range)
    ensures (forall a :: !(range(a) && other(a))) ==> Agree(Serial(txs, All(|txs|), |txs|, x, other), y, range)
  {
    SerialWithinRange(txs, |txs|, x, y, range);
    hide Serial;
    if forall a :: !(range(a) && other(a)) {
      forall a | range(a)
        ensures Lookup(Serial(txs, All(|txs|), |txs|, x, other), a) == Lookup(y, a)
      {
        SerialOutside(txs, All(|txs|), |txs|, x, other, a);
      }
    }
  }

  /**
   * Of several intra-shard blocks on ranges that are apart, each leaves on its own range what it
   * leaves there when it runs alone from the state before all of them.
   */
  lemma {:induction false} InnerOnRange(inner: seq<Block>, ranges: map<string, Account -> bool>, n: nat, base: Balances, b: nat)
    requires Apart(inner, ranges) && n <= |inner| && b < |inner|
    ensures var range, txs := ranges[inner[b].chainID], inner[b].bodyTxs;
            Agree(InnerState(inner, ranges, n, base), if b < n then Serial(txs, All(|txs|), |txs|, base, range) else base, range)
  {
    hide Serial;
    hide Agree;
    var range, txs := ranges[inner[b].chainID], inner[b].bodyTxs;
    if n == 0 {
      AgreeSelf(base, range);
    } else {
      InnerOnRange(inner, ranges, n - 1, base, b);
      var before, last := InnerState(inner, ranges, n - 1, base), inner[n - 1];
      if b == n - 1 {
        RunOnRange(txs, before, base, range, range);
      } else {
        ApartAt(inner, ranges, b, n - 1);
        hide Apart;
        RunOnRange(last.bodyTxs, before, if b < n then Serial(txs, All(|txs|), |txs|, base, range) else base, range, ranges[last.chainID]);
      }
    }
  }

  /** Outside all their ranges they change nothing. */
  lemma {:induction false} InnerOutside(inner: seq<Block>, ranges: map<string, Account -> bool>, n: nat, base: Balances, a: Account)
    requires n <= |inner| && forall b :: 0 <= b < |inner| ==> inner[b].chainID in ranges && !ranges[inner[b].chainID](a)
    ensures Lookup(InnerState(inner, ranges, n, base), a) == Lookup(base, a)
  {
    hide Serial;
    if n > 0 {
      InnerOutside(inner, ranges, n - 1, base, a);
      var txs := inner[n - 1].bodyTxs;
      SerialOutside(txs, All(|txs|), |txs|, InnerState(inner, ranges, n - 1, base), ranges[inner[n - 1].chainID], a);
    }
  }

  /** Transactions of a run from states that agree on the range have the same outcomes. */
  lemma {:induction false} FullOnRange(txs: seq<Tx>, i: nat, x: Balances, y: Balances, range: Account -> bool)
    requires i < |txs| && Agree(x, y, range)
    ensures Full(txs, i, x, range) == Full(txs, i, y, range)
  {
    SerialWithinRange(txs, i, x, y, range);
    hide Serial;
    hide Run;
    var s := Ranged(Serial(txs, All(|txs|), i, x, range), range);
    var t := Ranged(Serial(txs, All(|txs|), i, y, range), range);
    assert SameOn(Accounts(txs[i]), s, t);
    RunLocal(txs[i], s, t);
  }
}
