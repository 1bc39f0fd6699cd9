/** Money: what a transfer, and a serial run of transfers, does to the total of all balances. */
module Conservation {
  import opened Basics
  import opened Transfers
  import opened CrossShard
  import opened Networks

  const TWO32 := 0x1_0000_0000

  /** The sum of the balances of the listed accounts. */
  function Total(m: Balances, u: seq<Account>): int {
    if u == [] then 0 else Lookup(m, u[0]) + Total(m, u[1..])
  }

  lemma {:induction false} TotalUpdate(m: Balances, u: seq<Account>, a: Account, v: uint32)
    requires NoRepeats(u)
    ensures Total(m[a := v], u) == Total(m, u) + if a in u then v - Lookup(m, a) else 0
  {
    if u != [] {
      TotalUpdate(m, u[1..], a, v);
      assert a in u <==> a == u[0] || a in u[1..];
      assert u[0] !in u[1..];
    }
  }

  // ----- a transfer as a list of signed entries -----

  function Negated(s: seq<uint32>): (r: seq<int>)
    ensures |r| == |s| && forall i :: 0 <= i < |s| ==> r[i] == 0 - s[i] as int
  {
    seq(|s|, i requires 0 <= i < |s| => 0 - s[i] as int)
  }

  function Plain(s: seq<uint32>): (r: seq<int>)
    ensures |r| == |s| && forall i :: 0 <= i < |s| ==> r[i] == s[i]
  {
    seq(|s|, i requires 0 <= i < |s| => s[i])
  }

  function Keys(t: TransferTx): seq<Account> {
    t.from + t.to
  }

  /** Debits count negative, credits positive. */
  function Amounts(t: TransferTx): seq<int> {
    Negated(t.fromMoney) + Plain(t.toMoney)
  }

  function Sum(s: seq<int>, n: nat): int
    requires n <= |s|
  {
    if n == 0 then 0 else Sum(s, n - 1) + s[n - 1]
  }

  /** The amount of the last of the first n entries that names account a, or zero. */
  function LastAmount(keys: seq<Account>, amounts: seq<int>, n: nat, a: Account): int
    requires n <= |keys| == |amounts|
  {
    if n == 0 then 0 else if keys[n - 1] == a then amounts[n - 1] else LastAmount(keys, amounts, n - 1, a)
  }

  /** The sum of the amounts that a later entry for the same account replaces. */
  function Overwritten(keys: seq<Account>, amounts: seq<int>, n: nat): int
    requires n <= |keys| == |amounts|
  {
    if n == 0 then 0 else Overwritten(keys, amounts, n - 1) + LastAmount(keys, amounts, n - 1, keys[n - 1])
  }

  /** Every value is the balance read plus the entry's effective amount. */
  ghost predicate Moves(base: Balances, keys: seq<Account>, values: seq<uint32>, effective: seq<int>) {
    |keys| == |values| == |effective| && forall i :: 0 <= i < |keys| ==> values[i] == Lookup(base, keys[i]) + effective[i]
  }

  lemma {:induction false} WriteStep(keys: seq<Account>, values: seq<uint32>, n: nat)
    requires n < |keys| == |values|
    ensures WriteAll(map[], keys, values, 0) == map[]
    ensures WriteAll(map[], keys, values, n + 1) == WriteAll(map[], keys, values, n)[keys[n] := values[n]]
  {
  }

  lemma {:induction false} WrittenBalance(base: Balances, keys: seq<Account>, values: seq<uint32>, effective: seq<int>, n: nat, a: Account)
    requires Moves(base, keys, values, effective) && n <= |keys|
    ensures Lookup(base + WriteAll(map[], keys, values, n), a) == Lookup(base, a) + LastAmount(keys, effective, n, a)
  {
    if n > 0 {
      WrittenBalance(base, keys, values, effective, n - 1, a);
      WriteStep(keys, values, n - 1);
      hide WriteAll;
      hide Elements;
    }
  }

  lemma {:induction false} TotalAfterWrites(base: Balances, keys: seq<Account>, values: seq<uint32>, effective: seq<int>, n: nat, u: seq<Account>)
    requires Moves(base, keys, values, effective) && n <= |keys|
    requires NoRepeats(u) && forall k :: k in keys ==> k in u
    ensures Total(base + WriteAll(map[], keys, values, n), u)
            == Total(base, u) + Sum(effective, n) - Overwritten(keys, effective, n)
  {
    hide *;
    SameLengths(base, keys, values, effective);
    if n == 0 {
      WriteNone(base, keys, values);
      SumNone(keys, effective);
    } else {
      TotalAfterWrites(base, keys, values, effective, n - 1, u);
      TotalAfterWrite(base, keys, values, effective, n - 1, u);
      SumNext(keys, effective, n - 1);
    }
  }

  lemma {:induction false} SameLengths(base: Balances, keys: seq<Account>, values: seq<uint32>, effective: seq<int>)
    requires Moves(base, keys, values, effective)
    ensures |keys| == |values| == |effective|
  {
  }

  lemma {:induction false} SumNone(keys: seq<Account>, amounts: seq<int>)
    requires |keys| == |amounts|
    ensures Sum(amounts, 0) == 0 && Overwritten(keys, amounts, 0) == 0
  {
  }

  lemma {:induction false} SumNext(keys: seq<Account>, amounts: seq<int>, n: nat)
    requires n < |keys| == |amounts|
    ensures Sum(amounts, n + 1) == Sum(amounts, n) + amounts[n]
    ensures Overwritten(keys, amounts, n + 1) == Overwritten(keys, amounts, n) + LastAmount(keys, amounts, n, keys[n])
  {
  }

  lemma {:induction false} WriteNone(base: Balances, keys: seq<Account>, values: seq<uint32>)
    requires |keys| == |values|
    ensures base + WriteAll(map[], keys, values, 0) == base
  {
  }

  lemma {:induction false} TotalAfterWrite(base: Balances, keys: seq<Account>, values: seq<uint32>, effective: seq<int>, n: nat, u: seq<Account>)
    requires Moves(base, keys, values, effective) && n < |keys|
    requires NoRepeats(u) && forall k :: k in keys ==> k in u
    ensures Total(base + WriteAll(map[], keys, values, n + 1), u)
            == Total(base + WriteAll(map[], keys, values, n), u) + effective[n] - LastAmount(keys, effective, n, keys[n])
  {
    hide Total;
    hide LastAmount;
    hide WriteAll;
    hide Elements;
    hide NoRepeats;
    WriteStep(keys, values, n);
    WrittenBalance(base, keys, values, effective, n, keys[n]);
    var w := WriteAll(map[], keys, values, n);
    assert base + w[keys[n] := values[n]] == (base + w)[keys[n] := values[n]];
    TotalUpdate(base + w, u, keys[n], values[n]);
  }

  /** Entries that differ by multiples of 2^32 have sums and overwritten sums that do too. */
  lemma {:induction false} Linear(keys: seq<Account>, x: seq<int>, c: seq<int>, y: seq<int>, n: nat)
    requires n <= |keys| == |x| == |c| == |y|
    requires forall i :: 0 <= i < |keys| ==> y[i] == x[i] - TWO32 * c[i]
    ensures Sum(y, n) == Sum(x, n) - TWO32 * Sum(c, n)
    ensures Overwritten(keys, y, n) == Overwritten(keys, x, n) - TWO32 * Overwritten(keys, c, n)
  {
    if n > 0 {
      Linear(keys, x, c, y, n - 1);
      LastLinear(keys, x, c, y, n - 1, keys[n - 1]);
    }
  }

  lemma {:induction false} LastLinear(keys: seq<Account>, x: seq<int>, c: seq<int>, y: seq<int>, n: nat, a: Account)
    requires n <= |keys| == |x| == |c| == |y|
    requires forall i :: 0 <= i < |keys| ==> y[i] == x[i] - TWO32 * c[i]
    ensures LastAmount(keys, y, n, a) == LastAmount(keys, x, n, a) - TWO32 * LastAmount(keys, c, n, a)
  {
    if n > 0 {
      LastLinear(keys, x, c, y, n - 1, a);
    }
  }

  // ----- the write set of a transfer as one list of writes -----

  lemma {:induction false} WriteAllPrefix(m: Balances, k1: seq<Account>, v1: seq<uint32>, k2: seq<Account>, v2: seq<uint32>, n: nat)
    requires n <= |k1| == |v1| && |k2| == |v2|
    ensures WriteAll(m, k1 + k2, v1 + v2, n) == WriteAll(m, k1, v1, n)
  {
    hide Elements;
    if n > 0 {
      WriteAllPrefix(m, k1, v1, k2, v2, n - 1);
    }
  }

  lemma {:induction false} WriteAllConcat(m: Balances, k1: seq<Account>, v1: seq<uint32>, k2: seq<Account>, v2: seq<uint32>, n: nat)
    requires |k1| == |v1| && n <= |k2| == |v2|
    ensures WriteAll(m, k1 + k2, v1 + v2, |k1| + n) == WriteAll(WriteAll(m, k1, v1, |k1|), k2, v2, n)
  {
    hide Elements;
    if n == 0 {
      WriteAllPrefix(m, k1, v1, k2, v2, |k1|);
    } else {
      WriteAllConcat(m, k1, v1, k2, v2, n - 1);
    }
  }

  /** 1 where a credit wraps around 2^32, else 0. */
  function Carries(t: TransferTx, base: Balances): (c: seq<int>)
    requires |t.from| == |t.fromMoney| && |t.to| == |t.toMoney|
    ensures |c| == |Keys(t)|
  {
    seq(|Keys(t)|, i requires 0 <= i < |Keys(t)| =>
      if i >= |t.from| && Lookup(base, Keys(t)[i]) + Amounts(t)[i] >= TWO32 then 1 else 0)
  }

  function Effective(t: TransferTx, base: Balances): (e: seq<int>)
    requires |t.from| == |t.fromMoney| && |t.to| == |t.toMoney|
    ensures |e| == |Keys(t)|
    ensures forall i :: 0 <= i < |e| ==> e[i] == Amounts(t)[i] - TWO32 * Carries(t, base)[i]
  {
    seq(|Keys(t)|, i requires 0 <= i < |Keys(t)| => Amounts(t)[i] - TWO32 * Carries(t, base)[i])
  }

  /** A transfer that succeeds moves each listed balance by its effective amount; no debit underflows. */
  lemma {:induction false} TransferMoves(t: TransferTx, base: Balances, range: Account -> bool) returns (values: seq<uint32>)
    requires RunTransfer(t, Ranged(base, range)).Ok?
    ensures |t.from| == |t.fromMoney| && |t.to| == |t.toMoney|
    ensures forall i :: 0 <= i < |t.from| ==> t.fromMoney[i] <= Lookup(base, t.from[i])
    ensures Moves(base, Keys(t), values, Effective(t, base))
    ensures RunTransfer(t, Ranged(base, range)).value == WriteAll(map[], Keys(t), values, |Keys(t)|)
  {
    hide *;
    var view := Ranged(base, range);
    TransferShape(t, view);
    var d, c := Debits(t.from, t.fromMoney, |t.from|, view).value, Credits(t.to, t.toMoney, |t.to|, view).value;
    DebitValues(t, base, range);
    CreditValues(t, base, range);
    values := d + c;
    EntriesMove(t, base, d, c);
    WriteAllConcat(map[], t.from, d, t.to, c, |t.to|);
    assert |Keys(t)| == |t.from| + |t.to| && Keys(t) == t.from + t.to by {
      KeysOf(t);
    }
  }

  lemma {:induction false} KeysOf(t: TransferTx)
    ensures Keys(t) == t.from + t.to
  {
  }

  lemma {:induction false} DebitValues(t: TransferTx, base: Balances, range: Account -> bool)
    requires |t.from| == |t.fromMoney|
    requires Debits(t.from, t.fromMoney, |t.from|, Ranged(base, range)).Ok?
    ensures var d := Debits(t.from, t.fromMoney, |t.from|, Ranged(base, range)).value;
            forall i :: 0 <= i < |d| ==> t.fromMoney[i] <= Lookup(base, t.from[i]) && d[i] == Lookup(base, t.from[i]) - t.fromMoney[i]
  {
    DebitsReadable(t.from, t.fromMoney, |t.from|, Ranged(base, range));
    hide Debits;
  }

  lemma {:induction false} CreditValues(t: TransferTx, base: Balances, range: Account -> bool)
    requires |t.to| == |t.toMoney|
    requires Credits(t.to, t.toMoney, |t.to|, Ranged(base, range)).Ok?
    ensures var c := Credits(t.to, t.toMoney, |t.to|, Ranged(base, range)).value;
            forall i :: 0 <= i < |c| ==> c[i] == Wrap(Lookup(base, t.to[i]) as int + t.toMoney[i] as int)
  {
    CreditsReadable(t.to, t.toMoney, |t.to|, Ranged(base, range));
    hide Credits;
  }

  lemma {:induction false} TransferShape(t: TransferTx, view: View)
    requires RunTransfer(t, view).Ok?
    ensures |t.from| == |t.fromMoney| && |t.to| == |t.toMoney|
    ensures Debits(t.from, t.fromMoney, |t.from|, view).Ok? && Credits(t.to, t.toMoney, |t.to|, view).Ok?
    ensures Wrap(SumFrom(t.fromMoney)) == Wrap(SumFrom(t.toMoney))
    ensures var d, c := Debits(t.from, t.fromMoney, |t.from|, view).value, Credits(t.to, t.toMoney, |t.to|, view).value;
            RunTransfer(t, view).value == WriteAll(WriteAll(map[], t.from, d, |d|), t.to, c, |c|)
  {
    hide Debits;
    hide Credits;
    hide WriteAll;
  }

  lemma {:induction false} EntriesMove(t: TransferTx, base: Balances, d: seq<uint32>, c: seq<uint32>)
    requires |t.from| == |t.fromMoney| == |d| && |t.to| == |t.toMoney| == |c|
    requires forall i :: 0 <= i < |d| ==> d[i] == Lookup(base, t.from[i]) - t.fromMoney[i]
    requires forall i :: 0 <= i < |c| ==> c[i] == Wrap(Lookup(base, t.to[i]) as int + t.toMoney[i] as int)
    ensures Moves(base, Keys(t), d + c, Effective(t, base))
  {
    forall i | 0 <= i < |Keys(t)|
      ensures (d + c)[i] == Lookup(base, Keys(t)[i]) + Effective(t, base)[i]
    {
      if i >= |t.from| {
        assert Keys(t)[i] == t.to[i - |t.from|];
      }
    }
  }

  lemma {:induction false} SumOfAmounts(t: TransferTx)
    ensures Sum(Amounts(t), |Amounts(t)|) == SumFrom(t.toMoney) - SumFrom(t.fromMoney)
  {
    var x, y := Negated(t.fromMoney), Plain(t.toMoney);
    SumConcat(x, y, |y|);
    SumIs(t.fromMoney, x, -1, |x|);
    SumIs(t.toMoney, y, 1, |y|);
    assert t.fromMoney[..|x|] == t.fromMoney && t.toMoney[..|y|] == t.toMoney;
  }

  lemma {:induction false} SumConcat(x: seq<int>, y: seq<int>, n: nat)
    requires n <= |y|
    ensures Sum(x + y, |x| + n) == Sum(x, |x|) + Sum(y, n)
  {
    if n == 0 {
      SumPrefix(x, y, |x|);
    } else {
      SumConcat(x, y, n - 1);
    }
  }

  lemma {:induction false} SumPrefix(x: seq<int>, y: seq<int>, n: nat)
    requires n <= |x|
    ensures Sum(x + y, n) == Sum(x, n)
  {
    if n > 0 {
      SumPrefix(x, y, n - 1);
    }
  }

  lemma {:induction false} SumIs(s: seq<uint32>, x: seq<int>, sign: int, n: nat)
    requires n <= |s| == |x| && forall i :: 0 <= i < |s| ==> x[i] == sign * s[i]
    ensures Sum(x, n) == sign * SumFrom(s[..n])
  {
    if n > 0 {
      SumIs(s, x, sign, n - 1);
      SumFromSnoc(s[..n - 1], s[n - 1]);
      assert s[..n] == s[..n - 1] + [s[n - 1]];
    }
  }

  lemma {:induction false} SumFromSnoc(s: seq<uint32>, v: uint32)
    ensures SumFrom(s + [v]) == SumFrom(s) + v
  {
    if s != [] {
      SumFromSnoc(s[1..], v);
      assert (s + [v])[1..] == s[1..] + [v];
    }
  }

  // ----- the laws -----

  /** The exact change of the total. */
  lemma {:induction false} TransferTotal(t: TransferTx, base: Balances, range: Account -> bool, u: seq<Account>)
    requires RunTransfer(t, Ranged(base, range)).Ok?
    requires NoRepeats(u) && forall k :: k in Keys(t) ==> k in u
    ensures |t.from| == |t.fromMoney| && |t.to| == |t.toMoney|
    ensures var c := Carries(t, base);
            Total(base + RunTransfer(t, Ranged(base, range)).value, u)
            == Total(base, u) + SumFrom(t.toMoney) - SumFrom(t.fromMoney) - Overwritten(Keys(t), Amounts(t), |Keys(t)|)
               - TWO32 * (Sum(c, |c|) - Overwritten(Keys(t), c, |c|))
  {
    hide RunTransfer;
    hide WriteAll;
    hide Total;
    var values := TransferMoves(t, base, range);
    TotalAfterWrites(base, Keys(t), values, Effective(t, base), |Keys(t)|, u);
    Linear(Keys(t), Amounts(t), Carries(t, base), Effective(t, base), |Keys(t)|);
    SumOfAmounts(t);
  }

  /**
   * A transfer conserves the total modulo 2^32 exactly when the amounts it overwrites sum to
   * zero modulo 2^32, which can be read off the transaction.
   */
  lemma {:induction false} ConservesIff(t: TransferTx, base: Balances, range: Account -> bool, u: seq<Account>)
    requires RunTransfer(t, Ranged(base, range)).Ok?
    requires NoRepeats(u) && forall k :: k in Keys(t) ==> k in u
    ensures |t.from| == |t.fromMoney| && |t.to| == |t.toMoney|
    ensures Wrap(Total(base + RunTransfer(t, Ranged(base, range)).value, u)) == Wrap(Total(base, u))
            <==> Wrap(Overwritten(Keys(t), Amounts(t), |Keys(t)|)) == 0
  {
    hide Total;
    hide RunTransfer;
    hide Overwritten;
    hide Sum;
    hide SumFrom;
    hide Wrap;
    TransferTotal(t, base, range, u);
    TransferShape(t, Ranged(base, range));
    var c := Carries(t, base);
    ModularChange(Total(base, u), Total(base + RunTransfer(t, Ranged(base, range)).value, u), SumFrom(t.toMoney), SumFrom(t.fromMoney),
                  Overwritten(Keys(t), Amounts(t), |Keys(t)|), Sum(c, |c|) - Overwritten(Keys(t), c, |c|));
  }

  lemma {:induction false} ModularChange(before: int, after: int, credit: int, debit: int, over: int, k: int)
    requires after == before + credit - debit - over - TWO32 * k
    requires Wrap(credit) == Wrap(debit)
    ensures Wrap(after) == Wrap(before) <==> Wrap(over) == 0
  {
  }

  /** Pairwise distinct accounts overwrite nothing. */
  lemma {:induction false} DistinctOverwritesNothing(keys: seq<Account>, amounts: seq<int>, n: nat)
    requires n <= |keys| == |amounts| && NoRepeats(keys)
    ensures Overwritten(keys, amounts, n) == 0
  {
    if n > 0 {
      DistinctOverwritesNothing(keys, amounts, n - 1);
      AbsentAmount(keys, amounts, n - 1, keys[n - 1]);
    }
  }

  lemma {:induction false} AbsentAmount(keys: seq<Account>, amounts: seq<int>, n: nat, a: Account)
    requires n <= |keys| == |amounts| && forall i :: 0 <= i < n ==> keys[i] != a
    ensures LastAmount(keys, amounts, n, a) == 0
  {
    if n > 0 {
      AbsentAmount(keys, amounts, n - 1, a);
    }
  }

  /**
   * With distinct accounts the total changes by the plain sums, less 2^32 for every credit that
   * wraps. So it is conserved exactly when the sums differ by just that much.
   */
  lemma {:induction false} DistinctTotal(t: TransferTx, base: Balances, range: Account -> bool, u: seq<Account>)
    requires RunTransfer(t, Ranged(base, range)).Ok? && NoRepeats(Keys(t))
    requires NoRepeats(u) && forall k :: k in Keys(t) ==> k in u
    ensures |t.from| == |t.fromMoney| && |t.to| == |t.toMoney|
    ensures Total(base + RunTransfer(t, Ranged(base, range)).value, u)
            == Total(base, u) + SumFrom(t.toMoney) - SumFrom(t.fromMoney) - TWO32 * Sum(Carries(t, base), |Keys(t)|)
    ensures Wrap(Total(base + RunTransfer(t, Ranged(base, range)).value, u)) == Wrap(Total(base, u))
  {
    TransferTotal(t, base, range, u);
    ConservesIff(t, base, range, u);
    hide *;
    ZeroWraps();
    DistinctOverwritesNothing(Keys(t), Amounts(t), |Keys(t)|);
    DistinctOverwritesNothing(Keys(t), Carries(t, base), |Keys(t)|);
  }

  /**
   * With distinct accounts and no balance that wraps, the total is conserved exactly if and only
   * if the plain sums agree: the comparison of the sums in 32 bits is not enough.
   */
  lemma {:induction false} ConservesExactlyIff(t: TransferTx, base: Balances, range: Account -> bool, u: seq<Account>)
    requires RunTransfer(t, Ranged(base, range)).Ok? && NoRepeats(Keys(t))
    requires NoRepeats(u) && forall k :: k in Keys(t) ==> k in u
    requires |t.to| == |t.toMoney| && forall i :: 0 <= i < |t.to| ==> Lookup(base, t.to[i]) + t.toMoney[i] < TWO32
    ensures Total(base + RunTransfer(t, Ranged(base, range)).value, u) == Total(base, u) <==> SumFrom(t.toMoney) == SumFrom(t.fromMoney)
  {
    DistinctTotal(t, base, range, u);
    NoCarries(t, base, |Keys(t)|);
  }

  lemma {:induction false} NoCarries(t: TransferTx, base: Balances, n: nat)
    requires |t.from| == |t.fromMoney| && |t.to| == |t.toMoney| && n <= |Keys(t)|
    requires forall i :: 0 <= i < |t.to| ==> Lookup(base, t.to[i]) + t.toMoney[i] < TWO32
    ensures Sum(Carries(t, base), n) == 0
  {
    if n > 0 {
      NoCarries(t, base, n - 1);
    }
  }

  lemma {:induction false} ZeroWraps()
    ensures Wrap(0) == 0
  {
  }

  /** Distinct transfers over the accounts of u. */
  ghost predicate Distinct(tx: Tx, u: seq<Account>) {
    tx.Transfer? ==> NoRepeats(Keys(tx.body)) && forall k :: k in Keys(tx.body) ==> k in u
  }

  /** A serial run of distinct transfers conserves the total modulo 2^32, whatever is kept or aborts. */
  lemma {:induction false} SerialConserves(txs: seq<Tx>, keep: seq<bool>, n: nat, base: Balances, range: Account -> bool, u: seq<Account>)
    requires n <= |txs| == |keep| && NoRepeats(u) && forall i :: 0 <= i < |txs| ==> Distinct(txs[i], u)
    ensures Wrap(Total(Serial(txs, keep, n, base, range), u)) == Wrap(Total(base, u))
  {
    if n > 0 {
      SerialConserves(txs, keep, n - 1, base, range, u);
      var s := Serial(txs, keep, n - 1, base, range);
      if keep[n - 1] && Run(txs[n - 1], Ranged(s, range)).Ok? {
        assert Distinct(txs[n - 1], u);
        DistinctTotal(txs[n - 1].body, s, range, u);
      }
      hide RunTransfer;
    }
  }

  /** So do the cross-shard blocks of a round. */
  lemma {:induction false} BlocksConserve(blocks: seq<Block>, keeps: seq<seq<bool>>, ranges: seq<Account -> bool>, b: nat,
                                          global: Balances, u: seq<Account>)
    requires b <= |blocks| == |keeps| == |ranges|
    requires forall k :: 0 <= k < |blocks| ==> |keeps[k]| == |blocks[k].txs|
    requires NoRepeats(u)
    requires forall k, i :: 0 <= k < |blocks| && 0 <= i < |blocks[k].txs| ==> Distinct(blocks[k].txs[i], u)
    ensures Wrap(Total(SerialBlocks(blocks, keeps, ranges, b, global), u)) == Wrap(Total(global, u))
  {
    hide Serial;
    hide Distinct;
    hide Total;
    if b > 0 {
      BlocksConserve(blocks, keeps, ranges, b - 1, global, u);
      SerialConserves(blocks[b - 1].txs, keeps[b - 1], |blocks[b - 1].txs|, SerialBlocks(blocks, keeps, ranges, b - 1, global), ranges[b - 1], u);
    }
  }

  /** So do the intra-shard blocks. */
  lemma {:induction false} InnerConserves(net: Net, inner: seq<seq<Tx>>, l: seq<nat>, n: nat, base: Balances, u: seq<Account>)
    requires n <= |l| && |inner| == |net.home| && forall i :: 0 <= i < |l| ==> l[i] < |net.home|
    requires NoRepeats(u)
    requires forall k, i :: 0 <= k < |inner| && 0 <= i < |inner[k]| ==> Distinct(inner[k][i], u)
    ensures Wrap(Total(InnerRun(net, inner, l, n, base), u)) == Wrap(Total(base, u))
  {
    hide Serial;
    hide Distinct;
    hide Total;
    if n > 0 {
      InnerConserves(net, inner, l, n - 1, base, u);
      var txs := inner[l[n - 1]];
      SerialConserves(txs, All(|txs|), |txs|, InnerRun(net, inner, l, n - 1, base), net.home[l[n - 1]], u);
    }
  }

  ghost predicate AllDistinct(x: Input, u: seq<Account>) {
    && (forall k, i :: 0 <= k < |x.cross| && 0 <= i < |x.cross[k].txs| ==> Distinct(x.cross[k].txs[i], u))
    && (forall k, i :: 0 <= k < |x.inner| && 0 <= i < |x.inner[k]| ==> Distinct(x.inner[k][i], u))
  }

  /** So does a whole round of the network, cross-shard and intra-shard transactions together. */
  lemma {:induction false} RoundConserves(net: Net, st: State, x: Input, u: seq<Account>)
    requires NetOk(net) && Fits(net, st, x) && NoRepeats(u) && AllDistinct(x, u)
    ensures Wrap(Total(Next(net, st, x).global, u)) == Wrap(Total(st.global, u))
  {
    hide Distinct;
    hide Total;
    hide NoRepeats;
    BlocksConserve(x.cross, Keeps(net, st, x), Ranges(net), |net.home|, st.global, u);
    InnerConserves(net, x.inner, InOrder(|net.home|), |net.home|, CrossGlobal(net, st, x), u);
  }

  /** What the listed shards store, each for one account. */
  function Held(stores: seq<Balances>, u: seq<Account>, holders: seq<nat>): int
    requires |u| == |holders| && forall i :: 0 <= i < |holders| ==> holders[i] < |stores|
  {
    if u == [] then 0 else Lookup(stores[holders[0]], u[0]) + Held(stores, u[1..], holders[1..])
  }

  lemma {:induction false} HeldIsTotal(stores: seq<Balances>, global: Balances, u: seq<Account>, holders: seq<nat>)
    requires |u| == |holders| && forall i :: 0 <= i < |holders| ==> holders[i] < |stores|
    requires forall i :: 0 <= i < |u| ==> Lookup(stores[holders[i]], u[i]) == Lookup(global, u[i])
    ensures Held(stores, u, holders) == Total(global, u)
  {
    if u != [] {
      HeldIsTotal(stores, global, u[1..], holders[1..]);
    }
  }

  lemma {:induction false} GenesisTotal(u: seq<Account>)
    ensures Total(map[], u) == |u| * INIT_BALANCE as int
  {
    if u != [] {
      GenesisTotal(u[1..]);
    }
  }

  lemma {:induction false} HistoryTotal(net: Net, run: seq<Input>, u: seq<Account>)
    requires NetOk(net) && NoRepeats(u) && forall i :: 0 <= i < |run| ==> AllDistinct(run[i], u)
    ensures Wrap(Total(After(net, run).global, u)) == Wrap(|u| * INIT_BALANCE as int)
  {
    hide AllDistinct;
    hide NoRepeats;
    hide Total;
    hide Next;
    hide NetOk;
    if run == [] {
      GenesisTotal(u);
    } else {
      var st, x := After(net, run[..|run| - 1]), run[|run| - 1];
      HistoryTotal(net, run[..|run| - 1], u);
      if Fits(net, st, x) && HonestInput(net, st, x) {
        hide Fits;
        hide HonestInput;
        RoundConserves(net, st, x, u);
      }
    }
  }

  /**
   * After any run of rounds over distinct transfers, the money the shards really store, each
   * account read at any shard that has it in its range, is what the accounts started with, modulo
   * 2^32.
   */
  lemma {:induction false} HistoryConserves(net: Net, run: seq<Input>, u: seq<Account>, holders: seq<nat>)
    requires NetOk(net) && NoRepeats(u) && forall i :: 0 <= i < |run| ==> AllDistinct(run[i], u)
    requires |holders| == |u| && forall i :: 0 <= i < |u| ==> holders[i] < |net.home| && InRange(net, holders[i], u[i])
    ensures Wrap(Held(After(net, run).stores, u, holders)) == Wrap(|u| * INIT_BALANCE as int)
  {
    var st := After(net, run);
    forall i | 0 <= i < |u|
      ensures Lookup(st.stores[holders[i]], u[i]) == Lookup(st.global, u[i])
    {
      ShardsFollowHistory(net, run, holders[i], holders[i], u[i]);
    }
    hide After;
    HeldIsTotal(st.stores, st.global, u, holders);
    HistoryTotal(net, run, u);
  }

  /** Why distinctness is needed: paying oneself creates the amount paid. */
  lemma {:induction false} SelfTransferMints(a: Account, amount: uint32, base: Balances, range: Account -> bool)
    requires range(a) && amount <= Lookup(base, a)
    ensures var t := TransferTx([a], [amount], [a], [amount]);
            && RunTransfer(t, Ranged(base, range)).Ok?
            && Total(base + RunTransfer(t, Ranged(base, range)).value, [a]) == Wrap(Lookup(base, a) + amount)
  {
    var t := TransferTx([a], [amount], [a], [amount]);
    var view := Ranged(base, range);
    assert Debits(t.from, t.fromMoney, 0, view) == Ok([]);
    assert Debits(t.from, t.fromMoney, 1, view) == Ok([] + [Lookup(base, a) - amount]);
    assert Credits(t.to, t.toMoney, 0, view) == Ok([]);
    var c: uint32 := Wrap(Lookup(base, a) as int + amount as int);
    assert Credits(t.to, t.toMoney, 1, view) == Ok([] + [c]);
    var w1 := WriteAll(map[], t.from, [(Lookup(base, a) - amount) as uint32], 1);
    assert RunTransfer(t, view).Ok?;
    assert RunTransfer(t, view).value == WriteAll(w1, [a], [c], 1);
    assert WriteAll(w1, [a], [c], 1) == WriteAll(w1, [a], [c], 0)[a := c];
    assert [a][1..] == [];
    assert Total(base + RunTransfer(t, view).value, [a]) == c + Total(base + RunTransfer(t, view).value, []);
  }

  const HALF: uint32 := 0x8000_0000
  const DRAIN := TransferTx(["a", "b"], [HALF, HALF], ["c"], [0])
  const FULL_PURSES: Balances := map["a" := HALF, "b" := HALF, "c" := 0]

  lemma {:induction false} DrainRuns(range: Account -> bool)
    requires range("a") && range("b") && range("c")
    ensures RunTransfer(DRAIN, Ranged(FULL_PURSES, range)).Ok?
    ensures SumFrom(DRAIN.fromMoney) - SumFrom(DRAIN.toMoney) == TWO32
  {
    var view := Ranged(FULL_PURSES, range);
    assert DRAIN.fromMoney[1..] == [HALF];
    assert SumFrom([HALF]) == HALF + SumFrom([]);
    assert SumFrom(DRAIN.fromMoney) == TWO32;
    assert SumFrom(DRAIN.toMoney) == 0;
    assert Debits(DRAIN.from, DRAIN.fromMoney, 0, view) == Ok([]);
    assert Debits(DRAIN.from, DRAIN.fromMoney, 1, view).Ok?;
    assert Debits(DRAIN.from, DRAIN.fromMoney, 2, view).Ok?;
    assert Credits(DRAIN.to, DRAIN.toMoney, 0, view) == Ok([]);
    assert Credits(DRAIN.to, DRAIN.toMoney, 1, view).Ok?;
  }

  /**
   * Why conservation is modulo 2^32 even when no balance wraps: two debits of 2^31 pass as a
   * credit of nothing, because the sums are compared in 32 bits, and 2^32 disappears.
   */
  lemma {:induction false} WrappedSumsDestroy(range: Account -> bool)
    requires range("a") && range("b") && range("c")
    ensures RunTransfer(DRAIN, Ranged(FULL_PURSES, range)).Ok?
    ensures Sum(Carries(DRAIN, FULL_PURSES), 3) == 0
    ensures Total(FULL_PURSES + RunTransfer(DRAIN, Ranged(FULL_PURSES, range)).value, ["a", "b", "c"])
            == Total(FULL_PURSES, ["a", "b", "c"]) - TWO32
  {
    hide RunTransfer;
    hide Total;
    hide SumFrom;
    DrainRuns(range);
    assert Keys(DRAIN) == ["a", "b", "c"];
    assert Amounts(DRAIN)[2] == 0;
    var c := Carries(DRAIN, FULL_PURSES);
    assert c[0] == 0 && c[1] == 0 && c[2] == 0;
    assert Sum(c, 3) == Sum(c, 2) + c[2] == Sum(c, 1) + c[1] + c[2] == Sum(c, 0) + c[0] + c[1] + c[2];
    DistinctTotal(DRAIN, FULL_PURSES, range, ["a", "b", "c"]);
  }
}
