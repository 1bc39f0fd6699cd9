/** Transfers: what one transaction reads, checks and writes. */
module Transfers {
  import opened Basics

  type uint32 = x: int | 0 <= x < 0x1_0000_0000

  type Account = string

  type Balances = map<Account, uint32>

  /** An account that was never written holds this much. */
  const INIT_BALANCE: uint32 := 1000000

  function Wrap(x: int): uint32 {
    x % 0x1_0000_0000
  }

  function Lookup(m: Balances, a: Account): uint32 {
    if a in m then m[a] else INIT_BALANCE
  }

  datatype TransferTx = TransferTx(from: seq<Account>, fromMoney: seq<uint32>, to: seq<Account>, toMoney: seq<uint32>)

  /** A transaction of a block; its bytes may fail to decode. */
  datatype Tx = Transfer(body: TransferTx) | Undecodable

  datatype TxError = DecodeError | LengthMismatch | EmptySide | SumMismatch | NotReadable | NotEnough

  datatype Result<+T> = Ok(value: T) | Err(error: TxError)

  /** Where a transfer reads from: a store limited to a key range, or shipped read data. */
  datatype View = Ranged(state: Balances, range: Account -> bool) | Shipped(data: Balances)
  {
    function Read(a: Account): Option<uint32> {
      match this
      case Ranged(state, range) => if range(a) then Some(Lookup(state, a)) else None
      case Shipped(data) => if a in data then Some(data[a]) else None
    }
  }

  /** The accounts of a transaction: its read set and its write set alike. */
  function Accounts(tx: Tx): set<Account> {
    match tx
    case Transfer(t) => Elements(t.from) + Elements(t.to)
    case Undecodable => {}
  }

  function SumFrom(money: seq<uint32>): nat {
    if money == [] then 0 else money[0] + SumFrom(money[1..])
  }

  /** The three shape checks made before any balance is read. */
  function Validate(t: TransferTx): (r: Result<()>)
  {
    if |t.from| != |t.fromMoney| || |t.to| != |t.toMoney| then Err(LengthMismatch)
    else if |t.from| == 0 || |t.to| == 0 then Err(EmptySide)
    else if Wrap(SumFrom(t.fromMoney)) != Wrap(SumFrom(t.toMoney)) then Err(SumMismatch)
    else Ok(())
  }

  /** The new balances of the first n debited accounts, or the first failure. */
  function Debits(from: seq<Account>, money: seq<uint32>, n: nat, view: View): (r: Result<seq<uint32>>)
    requires n <= |from| == |money|
    ensures r.Ok? ==> |r.value| == n
  {
    if n == 0 then Ok([]) else
    var rest := Debits(from, money, n - 1, view);
    if rest.Err? then rest else
    match view.Read(from[n - 1])
    case None => Err(NotReadable)
    case Some(b) => if b < money[n - 1] then Err(NotEnough) else Ok(rest.value + [b - money[n - 1]])
  }

  /** The new balances of the first n credited accounts; a credit wraps at 2^32. */
  function Credits(to: seq<Account>, money: seq<uint32>, n: nat, view: View): (r: Result<seq<uint32>>)
    requires n <= |to| == |money|
    ensures r.Ok? ==> |r.value| == n
  {
    if n == 0 then Ok([]) else
    var rest := Credits(to, money, n - 1, view);
    if rest.Err? then rest else
    match view.Read(to[n - 1])
    case None => Err(NotReadable)
    case Some(b) => Ok(rest.value + [Wrap(b + money[n - 1])])
  }

  /** Writes the first n values in order, later ones winning. */
  function WriteAll(m: Balances, keys: seq<Account>, values: seq<uint32>, n: nat): (r: Balances)
    requires n <= |keys| == |values|
    ensures r.Keys == m.Keys + Elements(keys[..n])
  {
    if n == 0 then m
    else
      assert keys[..n] == keys[..n - 1] + [keys[n - 1]];
      WriteAll(m, keys, values, n - 1)[keys[n - 1] := values[n - 1]]
  }

  /** The write set of a transfer, or why it fails. */
  function RunTransfer(t: TransferTx, view: View): (r: Result<Balances>)
    ensures r.Ok? ==> r.value.Keys == Elements(t.from) + Elements(t.to)
  {
    var v := Validate(t);
    if v.Err? then Err(v.error) else
    var d := Debits(t.from, t.fromMoney, |t.from|, view);
    if d.Err? then Err(d.error) else
    var c := Credits(t.to, t.toMoney, |t.to|, view);
    if c.Err? then Err(c.error) else
    assert t.from[..|t.from|] == t.from && t.to[..|t.to|] == t.to;
    Ok(WriteAll(WriteAll(map[], t.from, d.value, |t.from|), t.to, c.value, |t.to|))
  }

  function Run(tx: Tx, view: View): (r: Result<Balances>)
    ensures r.Ok? ==> r.value.Keys == Accounts(tx)
  {
    match tx
    case Transfer(t) => RunTransfer(t, view)
    case Undecodable => Err(DecodeError)
  }

  // ----- a transaction depends on its accounts only -----

  ghost predicate SameOn(accounts: set<Account>, v: View, w: View) {
    forall a :: a in accounts ==> v.Read(a) == w.Read(a)
  }

  lemma {:induction false} DebitsLocal(from: seq<Account>, money: seq<uint32>, n: nat, v: View, w: View)
    requires n <= |from| == |money|
    requires SameOn(Elements(from), v, w)
    ensures Debits(from, money, n, v) == Debits(from, money, n, w)
  {
    if n > 0 {
      DebitsLocal(from, money, n - 1, v, w);
      assert from[n - 1] in Elements(from);
    }
  }

  lemma {:induction false} CreditsLocal(to: seq<Account>, money: seq<uint32>, n: nat, v: View, w: View)
    requires n <= |to| == |money|
    requires SameOn(Elements(to), v, w)
    ensures Credits(to, money, n, v) == Credits(to, money, n, w)
  {
    if n > 0 {
      CreditsLocal(to, money, n - 1, v, w);
      assert to[n - 1] in Elements(to);
    }
  }

  /** Two views that agree on a transaction's accounts give it the same outcome. */
  lemma {:induction false} RunLocal(tx: Tx, v: View, w: View)
    requires SameOn(Accounts(tx), v, w)
    ensures Run(tx, v) == Run(tx, w)
  {
    if tx.Transfer? && Validate(tx.body).Ok? {
      DebitsLocal(tx.body.from, tx.body.fromMoney, |tx.body.from|, v, w);
      CreditsLocal(tx.body.to, tx.body.toMoney, |tx.body.to|, v, w);
    }
  }

  lemma {:induction false} DebitsReadable(from: seq<Account>, money: seq<uint32>, n: nat, view: View)
    requires n <= |from| == |money|
    requires Debits(from, money, n, view).Ok?
    ensures forall i :: 0 <= i < n ==> view.Read(from[i]).Some? && view.Read(from[i]).value >= money[i]
    ensures forall i :: 0 <= i < n ==> Debits(from, money, n, view).value[i] == view.Read(from[i]).value - money[i]
  {
    if n > 0 {
      DebitsReadable(from, money, n - 1, view);
    }
  }

  lemma {:induction false} CreditsReadable(to: seq<Account>, money: seq<uint32>, n: nat, view: View)
    requires n <= |to| == |money|
    requires Credits(to, money, n, view).Ok?
    ensures forall i :: 0 <= i < n ==> view.Read(to[i]).Some?
    ensures forall i :: 0 <= i < n ==>
              Credits(to, money, n, view).value[i] == Wrap(view.Read(to[i]).value + money[i])
  {
    if n > 0 {
      CreditsReadable(to, money, n - 1, view);
    }
  }

  /** A transaction that succeeds could read every one of its accounts. */
  lemma {:induction false} RunReadable(tx: Tx, view: View)
    requires Run(tx, view).Ok?
    ensures forall a :: a in Accounts(tx) ==> view.Read(a).Some?
  {
    var t := tx.body;
    DebitsReadable(t.from, t.fromMoney, |t.from|, view);
    CreditsReadable(t.to, t.toMoney, |t.to|, view);
  }

  /** The read set recorded for a transaction: the values it saw. */
  function ReadSet(tx: Tx, view: View): (m: Balances)
    requires forall a :: a in Accounts(tx) ==> view.Read(a).Some?
    ensures m.Keys == Accounts(tx)
  {
    map a | a in Accounts(tx) :: view.Read(a).value
  }

  /** Replaying a successful transaction from its own read set repeats it exactly. */
  lemma {:induction false} ReplayFromReads(tx: Tx, view: View)
    requires Run(tx, view).Ok?
    ensures forall a :: a in Accounts(tx) ==> view.Read(a).Some?
    ensures Run(tx, Shipped(ReadSet(tx, view))) == Run(tx, view)
  {
    RunReadable(tx, view);
    RunLocal(tx, view, Shipped(ReadSet(tx, view)));
  }

  // ----- what a transfer does, in plain terms -----

  /** The debits among the first n all go through. */
  ghost predicate Covered(from: seq<Account>, money: seq<uint32>, n: nat, view: View)
    requires n <= |from| == |money|
  {
    forall i :: 0 <= i < n ==> view.Read(from[i]).Some? && view.Read(from[i]).value >= money[i]
  }

  /** The debits succeed exactly if each is covered. */
  lemma {:induction false} DebitsIff(from: seq<Account>, money: seq<uint32>, n: nat, view: View)
    requires n <= |from| == |money|
    ensures Debits(from, money, n, view).Ok? <==> Covered(from, money, n, view)
    ensures Debits(from, money, n, view).Err? ==> Debits(from, money, n, view).error in {NotReadable, NotEnough}
  {
    if n > 0 {
      DebitsIff(from, money, n - 1, view);
    }
  }

  lemma {:induction false} CreditsIff(to: seq<Account>, money: seq<uint32>, n: nat, view: View)
    requires n <= |to| == |money|
    ensures Credits(to, money, n, view).Ok? <==> forall i :: 0 <= i < n ==> view.Read(to[i]).Some?
    ensures Credits(to, money, n, view).Err? ==> Credits(to, money, n, view).error == NotReadable
  {
    if n > 0 {
      CreditsIff(to, money, n - 1, view);
    }
  }

  /**
   * When a transfer succeeds: amounts on both sides, as many as accounts; equal sums modulo 2^32;
   * every account readable; every debit covered by the balance before the transfer.
   */
  lemma {:induction false} TransferSucceedsIff(t: TransferTx, view: View)
    ensures Run(Transfer(t), view).Ok?
            <==> && |t.from| == |t.fromMoney| && |t.to| == |t.toMoney| && t.from != [] && t.to != []
                 && (SumFrom(t.fromMoney) - SumFrom(t.toMoney)) % 0x1_0000_0000 == 0
                 && (forall i :: 0 <= i < |t.from| ==> view.Read(t.from[i]).Some? && view.Read(t.from[i]).value >= t.fromMoney[i])
                 && forall i :: 0 <= i < |t.to| ==> view.Read(t.to[i]).Some?
  {
    if |t.from| == |t.fromMoney| && |t.to| == |t.toMoney| {
      hide Debits;
      hide Credits;
      hide SumFrom;
      hide WriteAll;
      hide Wrap;
      DebitsIff(t.from, t.fromMoney, |t.from|, view);
      CreditsIff(t.to, t.toMoney, |t.to|, view);
      SumsAgree(SumFrom(t.fromMoney), SumFrom(t.toMoney));
    }
  }

  lemma {:induction false} SumsAgree(x: int, y: int)
    ensures Wrap(x) == Wrap(y) <==> (x - y) % 0x1_0000_0000 == 0
  {
  }

  /** Which error a failing transfer gives: the first check that fails, in this order. */
  lemma {:induction false} TransferFailsWith(t: TransferTx, view: View)
    ensures Run(Undecodable, view) == Err(DecodeError)
    ensures Run(Transfer(t), view) == Err(LengthMismatch) <==> |t.from| != |t.fromMoney| || |t.to| != |t.toMoney|
    ensures |t.from| == |t.fromMoney| && |t.to| == |t.toMoney| ==>
              (Run(Transfer(t), view) == Err(EmptySide) <==> t.from == [] || t.to == [])
    ensures |t.from| == |t.fromMoney| && |t.to| == |t.toMoney| && t.from != [] && t.to != [] ==>
              (Run(Transfer(t), view) == Err(SumMismatch) <==> (SumFrom(t.fromMoney) - SumFrom(t.toMoney)) % 0x1_0000_0000 != 0)
    ensures |t.from| == |t.fromMoney| && |t.to| == |t.toMoney| && t.from != [] && t.to != []
            && (SumFrom(t.fromMoney) - SumFrom(t.toMoney)) % 0x1_0000_0000 == 0 ==>
              (Run(Transfer(t), view) == Err(NotEnough)
               <==> exists i :: 0 <= i < |t.from| && Covered(t.from, t.fromMoney, i, view)
                                && view.Read(t.from[i]).Some? && view.Read(t.from[i]).value < t.fromMoney[i])
    ensures Run(Transfer(t), view).Err? ==>
              Run(Transfer(t), view).error in {LengthMismatch, EmptySide, SumMismatch, NotEnough, NotReadable}
  {
    if |t.from| == |t.fromMoney| && |t.to| == |t.toMoney| {
      hide Debits;
      hide Credits;
      hide Covered;
      hide SumFrom;
      hide WriteAll;
      hide Wrap;
      DebitsIff(t.from, t.fromMoney, |t.from|, view);
      CreditsIff(t.to, t.toMoney, |t.to|, view);
      FirstFailure(t.from, t.fromMoney, |t.from|, view);
      SumsAgree(SumFrom(t.fromMoney), SumFrom(t.toMoney));
    }
  }

  lemma {:induction false} FirstFailure(from: seq<Account>, money: seq<uint32>, n: nat, view: View)
    requires n <= |from| == |money|
    ensures Debits(from, money, n, view) == Err(NotEnough)
            <==> exists i :: 0 <= i < n && Covered(from, money, i, view)
                             && view.Read(from[i]).Some? && view.Read(from[i]).value < money[i]
  {
    if n > 0 {
      FirstFailure(from, money, n - 1, view);
      DebitsIff(from, money, n - 1, view);
    }
  }

  /** The last entry for an account decides what is written for it. */
  lemma {:induction false} WriteAllLast(m: Balances, keys: seq<Account>, values: seq<uint32>, n: nat, i: nat)
    requires i < n <= |keys| == |values| && forall k :: i < k < n ==> keys[k] != keys[i]
    ensures WriteAll(m, keys, values, n)[keys[i]] == values[i]
  {
    if i < n - 1 {
      WriteAllLast(m, keys, values, n - 1, i);
    }
  }

  lemma {:induction false} WriteAllOther(m: Balances, keys: seq<Account>, values: seq<uint32>, n: nat, a: Account)
    requires n <= |keys| == |values| && forall k :: 0 <= k < n ==> keys[k] != a
    ensures a in WriteAll(m, keys, values, n) <==> a in m
    ensures a in m ==> WriteAll(m, keys, values, n)[a] == m[a]
  {
    if n > 0 {
      WriteAllOther(m, keys, values, n - 1, a);
    }
  }

  /** A payee ends up with its last credit on top of its balance before the transfer, modulo 2^32. */
  lemma {:induction false} PayeeGets(t: TransferTx, view: View, i: nat)
    requires Run(Transfer(t), view).Ok? && i < |t.to| && forall k :: i < k < |t.to| ==> t.to[k] != t.to[i]
    ensures |t.to| == |t.toMoney| && view.Read(t.to[i]).Some? && t.to[i] in Run(Transfer(t), view).value
    ensures Run(Transfer(t), view).value[t.to[i]] == (view.Read(t.to[i]).value + t.toMoney[i]) % 0x1_0000_0000
  {
    CreditsReadable(t.to, t.toMoney, |t.to|, view);
    var d, c := Debits(t.from, t.fromMoney, |t.from|, view).value, Credits(t.to, t.toMoney, |t.to|, view).value;
    hide Debits;
    hide Credits;
    hide SumFrom;
    WriteAllLast(WriteAll(map[], t.from, d, |t.from|), t.to, c, |t.to|, i);
    hide WriteAll;
  }

  /** An account that only pays ends up with its last debit off its balance before the transfer. */
  lemma {:induction false} PayerPays(t: TransferTx, view: View, i: nat)
    requires Run(Transfer(t), view).Ok? && i < |t.from| && forall k :: i < k < |t.from| ==> t.from[k] != t.from[i]
    requires forall k :: 0 <= k < |t.to| ==> t.to[k] != t.from[i]
    ensures |t.from| == |t.fromMoney| && view.Read(t.from[i]).Some? && t.from[i] in Run(Transfer(t), view).value
    ensures Run(Transfer(t), view).value[t.from[i]] == view.Read(t.from[i]).value - t.fromMoney[i]
  {
    DebitsReadable(t.from, t.fromMoney, |t.from|, view);
    var d, c := Debits(t.from, t.fromMoney, |t.from|, view).value, Credits(t.to, t.toMoney, |t.to|, view).value;
    hide Debits;
    hide Credits;
    hide SumFrom;
    WriteAllLast(map[], t.from, d, |t.from|, i);
    WriteAllOther(WriteAll(map[], t.from, d, |t.from|), t.to, c, |t.to|, t.from[i]);
    hide WriteAll;
  }
}
