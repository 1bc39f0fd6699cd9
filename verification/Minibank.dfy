/** The minibank application: transfers run on overlays, blocks are recorded, voted on and executed. */
module Minibank {
  import opened Basics
  import opened Transfers
  import opened BitVectors
  import opened MemDBs
  import opened CrossShard
  import opened Effects

  // ----- one transfer -----

  /** The sum of a money list in 32-bit arithmetic. */
  method SumMoney(money: seq<uint32>) returns (sum: uint32)
    ensures sum == Wrap(SumFrom(money))
  {
    sum := 0;
    for i := 0 to |money|
      invariant Wrap(sum + SumFrom(money[i..])) == Wrap(SumFrom(money))
    {
      assert money[i..][1..] == money[i + 1..];
      WrapTwice(sum + money[i], SumFrom(money[i + 1..]));
      hide Wrap;
      sum := Wrap(sum + money[i]);
    }
  }

  /** Wrapping early does not change a wrapped sum. */
  lemma {:induction false} WrapTwice(x: int, y: int)
    ensures Wrap(Wrap(x) + y) == Wrap(x + y)
  {
  }

  method ValidateTransferTx(tx: TransferTx) returns (r: Result<()>)
    ensures r == Validate(tx)
  {
    if |tx.from| != |tx.fromMoney| || |tx.to| != |tx.toMoney| {
      return Err(LengthMismatch);
    }
    if |tx.from| == 0 || |tx.to| == 0 {
      return Err(EmptySide);
    }
    var f := SumMoney(tx.fromMoney);
    var t := SumMoney(tx.toMoney);
    r := if f != t then Err(SumMismatch) else Ok(());
  }

  lemma {:induction false} DebitsFailure(from: seq<Account>, money: seq<uint32>, n: nat, m: nat, view: View)
    requires n <= m <= |from| == |money| && Debits(from, money, n, view).Err?
    ensures Debits(from, money, m, view) == Debits(from, money, n, view)
  {
    if n < m {
      DebitsFailure(from, money, n, m - 1, view);
    }
  }

  lemma {:induction false} CreditsFailure(to: seq<Account>, money: seq<uint32>, n: nat, m: nat, view: View)
    requires n <= m <= |to| == |money| && Credits(to, money, n, view).Err?
    ensures Credits(to, money, m, view) == Credits(to, money, n, view)
  {
    if n < m {
      CreditsFailure(to, money, n, m - 1, view);
    }
  }

  lemma {:induction false} CachedMore(rb: Balances, x: set<Account>, y: set<Account>, wb: Balances, committed: Balances)
    ensures Cached(Cached(rb, x, wb, committed), y, wb, committed) == Cached(rb, x + y, wb, committed)
  {
  }

  lemma {:induction false} CachedNothing(rb: Balances, wb: Balances, committed: Balances)
    ensures Cached(rb, {}, wb, committed) == rb
  {
  }

  lemma {:induction false} NoElements()
    ensures Elements<Account>([]) == {}
  {
  }

  lemma {:induction false} ElementsPrefix(s: seq<Account>, i: nat)
    requires i < |s|
    ensures Elements(s[..i + 1]) == Elements(s[..i]) + {s[i]}
  {
    assert s[..i + 1] == s[..i] + [s[i]];
  }

  /** The debit loop of doTransfer. */
  method ReadDebits(t: TransferTx, db: TxDB) returns (r: Result<seq<uint32>>)
    requires db.db.Valid() && |t.from| == |t.fromMoney|
    modifies db.db
    ensures db.db.Valid()
    ensures r == Debits(t.from, t.fromMoney, |t.from|, old(db.Now()))
    ensures db.db.Committed() == old(db.db.Committed()) && db.db.writeBuffer == old(db.db.writeBuffer)
    ensures r.Ok? ==> db.ReadOnly(Elements(t.from))
    ensures db.CrossShardDB? ==> db.db.memDB == old(db.db.memDB)
  {
    hide Cached;
    hide Elements;
    hide MemoryDB.Valid;
    hide MemoryDB.Committed;
    hide TxDB.Now;
    hide MemoryDB.Current;
    hide Lookup;
    var fromBalance: seq<uint32> := [];
    assert t.from[..0] == [];
    assert Elements(t.from[..0]) == {} by {
      NoElements();
    }
    CachedNothing(db.db.readBuffer, db.db.writeBuffer, db.db.Committed());
    for i := 0 to |t.from|
      invariant db.db.Valid() && db.Now() == old(db.Now())
      invariant db.ReadOnly(Elements(t.from[..i]))
      invariant Debits(t.from, t.fromMoney, i, old(db.Now())) == Ok(fromBalance)
    {
      ElementsPrefix(t.from, i);
      CachedMore(old(db.db.readBuffer), Elements(t.from[..i]), {t.from[i]}, db.db.writeBuffer, db.db.Committed());
      var balance := db.Get(t.from[i]);
      if balance.None? {
        DebitsFailure(t.from, t.fromMoney, i + 1, |t.from|, old(db.Now()));
        return Err(NotReadable);
      } else if balance.value < t.fromMoney[i] {
        DebitsFailure(t.from, t.fromMoney, i + 1, |t.from|, old(db.Now()));
        return Err(NotEnough);
      }
      fromBalance := fromBalance + [balance.value - t.fromMoney[i]];
    }
    assert t.from[..|t.from|] == t.from;
    r := Ok(fromBalance);
  }

  /** The credit loop of doTransfer. */
  method ReadCredits(t: TransferTx, db: TxDB) returns (r: Result<seq<uint32>>)
    requires db.db.Valid() && |t.to| == |t.toMoney|
    modifies db.db
    ensures db.db.Valid()
    ensures r == Credits(t.to, t.toMoney, |t.to|, old(db.Now()))
    ensures db.db.Committed() == old(db.db.Committed()) && db.db.writeBuffer == old(db.db.writeBuffer)
    ensures r.Ok? ==> db.ReadOnly(Elements(t.to))
    ensures db.CrossShardDB? ==> db.db.memDB == old(db.db.memDB)
  {
    hide Cached;
    hide Elements;
    hide MemoryDB.Valid;
    hide MemoryDB.Committed;
    hide TxDB.Now;
    hide MemoryDB.Current;
    hide Lookup;
    var toBalance: seq<uint32> := [];
    assert t.to[..0] == [];
    assert Elements(t.to[..0]) == {} by {
      NoElements();
    }
    CachedNothing(db.db.readBuffer, db.db.writeBuffer, db.db.Committed());
    for i := 0 to |t.to|
      invariant db.db.Valid() && db.Now() == old(db.Now())
      invariant db.ReadOnly(Elements(t.to[..i]))
      invariant Credits(t.to, t.toMoney, i, old(db.Now())) == Ok(toBalance)
    {
      ElementsPrefix(t.to, i);
      CachedMore(old(db.db.readBuffer), Elements(t.to[..i]), {t.to[i]}, db.db.writeBuffer, db.db.Committed());
      var balance := db.Get(t.to[i]);
      if balance.None? {
        CreditsFailure(t.to, t.toMoney, i + 1, |t.to|, old(db.Now()));
        return Err(NotReadable);
      }
      toBalance := toBalance + [Wrap(balance.value as int + t.toMoney[i] as int)];
    }
    assert t.to[..|t.to|] == t.to;
    r := Ok(toBalance);
  }

  /** The two write loops of doTransfer; every key was readable, so no write is refused. */
  method WriteBalances(db: TxDB, keys: seq<Account>, values: seq<uint32>)
    requires db.db.Valid() && |keys| == |values|
    requires forall k :: k in keys && db.RangeDB? ==> db.range(k)
    modifies db.db`writeBuffer
    ensures db.db.Valid()
    ensures db.db.writeBuffer == WriteAll(old(db.db.writeBuffer), keys, values, |keys|)
    ensures db.db.Committed() == old(db.db.Committed())
  {
    for i := 0 to |keys|
      invariant db.db.Valid()
      invariant db.db.writeBuffer == WriteAll(old(db.db.writeBuffer), keys, values, i)
    {
      var ok := db.Set(keys[i], values[i]);
    }
  }

  lemma {:induction false} WriteAllOver(m: Balances, keys: seq<Account>, values: seq<uint32>, n: nat, base: Balances)
    requires n <= |keys| == |values|
    ensures WriteAll(base + m, keys, values, n) == base + WriteAll(m, keys, values, n)
  {
    hide Elements;
    if n > 0 {
      WriteAllOver(m, keys, values, n - 1, base);
      var w := WriteAll(m, keys, values, n - 1);
      assert (base + w)[keys[n - 1] := values[n - 1]] == base + w[keys[n - 1] := values[n - 1]];
    }
  }

  /** Writing through the buffer adds the transfer's write set to it. */
  lemma {:induction false} BufferedWrites(t: TransferTx, d: seq<uint32>, c: seq<uint32>, wb: Balances)
    requires |t.from| == |d| && |t.to| == |c|
    ensures WriteAll(WriteAll(wb, t.from, d, |d|), t.to, c, |c|)
            == wb + WriteAll(WriteAll(map[], t.from, d, |d|), t.to, c, |c|)
  {
    assert wb + map[] == wb;
    WriteAllOver(map[], t.from, d, |d|, wb);
    WriteAllOver(WriteAll(map[], t.from, d, |d|), t.to, c, |c|, wb);
  }

  /** A transfer that succeeds on a key range touches only keys of the range. */
  lemma {:induction false} KeysInRange(t: TransferTx, view: View)
    requires RunTransfer(t, view).Ok?
    ensures view.Ranged? ==> forall k :: k in t.from || k in t.to ==> view.range(k)
  {
    RunReadable(Transfer(t), view);
    forall k | k in t.from || k in t.to
      ensures view.Ranged? ==> view.range(k)
    {
      assert k in Accounts(Transfer(t));
      assert view.Read(k).Some?;
    }
  }

  /** Runs a transaction on an overlay: its writes land in the buffer, or nothing is written. */
  method Execute(tx: Tx, db: TxDB) returns (r: Result<()>)
    requires db.db.Valid()
    modifies db.db
    ensures db.db.Valid()
    ensures db.db.Committed() == old(db.db.Committed())
    ensures db.CrossShardDB? ==> db.db.memDB == old(db.db.memDB)
    ensures match Run(tx, old(db.Now()))
            case Err(e) => r == Err(e) && db.db.writeBuffer == old(db.db.writeBuffer)
            case Ok(w) => r == Ok(()) && db.db.writeBuffer == old(db.db.writeBuffer) + w
                          && (db.RangeDB? ==> db.db.readBuffer == Cached(old(db.db.readBuffer), Accounts(tx),
                                                old(db.db.writeBuffer), db.db.Committed()))
  {
    if tx.Undecodable? {
      return Err(DecodeError);
    }
    r := DoTransfer(tx.body, db);
  }

  method DoTransfer(t: TransferTx, db: TxDB) returns (r: Result<()>)
    requires db.db.Valid()
    modifies db.db
    ensures db.db.Valid()
    ensures db.db.Committed() == old(db.db.Committed())
    ensures db.CrossShardDB? ==> db.db.memDB == old(db.db.memDB)
    ensures match RunTransfer(t, old(db.Now()))
            case Err(e) => r == Err(e) && db.db.writeBuffer == old(db.db.writeBuffer)
            case Ok(w) => r == Ok(()) && db.db.writeBuffer == old(db.db.writeBuffer) + w
                          && (db.RangeDB? ==> db.db.readBuffer == Cached(old(db.db.readBuffer), Elements(t.from) + Elements(t.to),
                                                old(db.db.writeBuffer), db.db.Committed()))
  {
    hide Debits;
    hide Credits;
    hide WriteAll;
    hide Cached;
    hide Lookup;
    hide SumFrom;
    hide MemoryDB.Committed;
    ghost var now, wb := db.Now(), db.db.writeBuffer;
    var v := ValidateTransferTx(t);
    if v.Err? {
      return v;
    }
    var d := ReadDebits(t, db);
    if d.Err? {
      return Err(d.error);
    }
    assert db.Now() == now;
    var c := ReadCredits(t, db);
    if c.Err? {
      return Err(c.error);
    }
    CachedMore(old(db.db.readBuffer), Elements(t.from), Elements(t.to), wb, db.db.Committed());
    KeysInRange(t, now);
    WriteBalances(db, t.from, d.value);
    WriteBalances(db, t.to, c.value);
    BufferedWrites(t, d.value, c.value, wb);
    r := Ok(());
  }

  // ----- recording: PreExecutionC -----

  /** Which accounts were written so far in a block, and by which transaction last. */
  class DependencyGraph {
    var dpMap: map<Account, int>

    constructor ()
      ensures dpMap == map[]
    {
      dpMap := map[];
    }

    method AddWrite(w: Account, index: int)
      modifies this
      ensures dpMap == old(dpMap)[w := index]
    {
      dpMap := dpMap[w := index];
    }

    function AddRead(r: Account): Option<int>
      reads this
    {
      if r in dpMap then Some(dpMap[r]) else None
    }
  }

  method AddWrites(dg: DependencyGraph, writes: set<Account>, index: int)
    modifies dg
    ensures dg.dpMap == old(dg.dpMap) + (map a | a in writes :: index)
  {
    var rest := writes;
    while rest != {}
      invariant rest <= writes
      invariant dg.dpMap == old(dg.dpMap) + (map a | a in writes - rest :: index)
    {
      var w :| w in rest;
      dg.AddWrite(w, index);
      rest := rest - {w};
    }
  }

  /** Receipts carry a code only. */
  datatype Receipt = Receipt(code: Code)

  /** The reads cached by a successful transaction on clean buffers are its read set. */
  lemma {:induction false} CachedIsReadSet(tx: Tx, s: Balances, range: Account -> bool)
    requires Run(tx, Ranged(s, range)).Ok?
    ensures forall a :: a in Accounts(tx) ==> Ranged(s, range).Read(a).Some?
    ensures Cached(map[], Accounts(tx), map[], s) == ReadSet(tx, Ranged(s, range))
  {
    RunReadable(tx, Ranged(s, range));
    hide Run;
    forall a | a in Accounts(tx)
      ensures Ranged(s, range).Read(a) == Some(Lookup(s, a))
    {
      assert Ranged(s, range).Read(a).Some?;
    }
  }

  /**
   * Runs one transaction of a serial run on a clean overlay and settles it: the committed
   * state follows the serial run, and the sets taken before settling are the recorded ones.
   */
  method RunAndSettle(tx: Tx, db: TxDB) returns (ok: bool, readSet: Balances, writeSet: Balances)
    requires db.RangeDB? && db.db.Valid() && db.db.writeBuffer == map[] && db.db.readBuffer == map[]
    modifies db.db
    ensures db.db.Valid() && db.db.writeBuffer == map[] && db.db.readBuffer == map[]
    ensures var r := Run(tx, Ranged(old(db.db.Committed()), db.range));
            && ok == r.Ok?
            && (r.Ok? ==> writeSet == r.value && db.db.Committed() == old(db.db.Committed()) + r.value
                          && readSet == Cached(map[], Accounts(tx), map[], old(db.db.Committed())))
            && (r.Err? ==> writeSet == map[] && readSet == map[] && db.db.Committed() == old(db.db.Committed()))
  {
    hide Cached;
    hide Accounts;
    hide Lookup;
    hide Run;
    ghost var s := db.db.Committed();
    assert s + map[] == s;
    var r := Execute(tx, db);
    readSet, writeSet := map[], map[];
    if r.Ok? {
      readSet := db.GetReadSet();
      writeSet := db.db.writeBuffer;
      assert map[] + writeSet == writeSet;
    }
    ok := r.Ok?;
    db.db.CommitWrite(ok);
  }

  /** One round of the recording loop. */
  method RecordNext(txs: seq<Tx>, i: nat, db: TxDB, ghost base: Balances) returns (data: ReadData, writeSet: Balances)
    requires i < |txs|
    requires db.RangeDB? && db.db.Valid() && db.db.writeBuffer == map[] && db.db.readBuffer == map[]
    requires db.db.Committed() == Serial(txs, All(|txs|), i, base, db.range)
    modifies db.db
    ensures db.db.Valid() && db.db.writeBuffer == map[] && db.db.readBuffer == map[]
    ensures db.db.Committed() == Serial(txs, All(|txs|), i + 1, base, db.range)
    ensures data == Recorded(txs, i, base, db.range)
    ensures writeSet == RecordedWrites(txs, i, base, db.range)
  {
    hide Run;
    hide Serial;
    hide Cached;
    ghost var s := db.db.Committed();
    RunNext(txs, i, base, db.range);
    var ok, readSet, written := RunAndSettle(txs[i], db);
    if ok {
      CachedIsReadSet(txs[i], s, db.range);
    }
    data, writeSet := ReadData(readSet, ok), written;
  }

  /** The recording loop, over a fresh overlay. */
  method RecordBlock(txs: seq<Tx>, db: PrefixStore, range: Account -> bool) returns (datas: seq<ReadData>, outputs: seq<Balances>)
    ensures |datas| == |txs| && forall i :: 0 <= i < |txs| ==> datas[i] == Recorded(txs, i, db.data, range)
    ensures outputs == OutputList(txs, db.data, range)
  {
    hide *;
    var memoryDB := new MemoryDB(db);
    var rdb := RangeDB(memoryDB, range);
    ghost var base := db.data;
    datas, outputs := [], [];
    WholeNone(txs, base, range);
    for i := 0 to |txs|
      invariant fresh(memoryDB) && memoryDB.db == db && base == db.data
      invariant memoryDB.Valid() && memoryDB.writeBuffer == map[] && memoryDB.readBuffer == map[]
      invariant memoryDB.Committed() == Serial(txs, All(|txs|), i, base, range)
      invariant |datas| == i && |outputs| == i
      invariant forall j :: 0 <= j < i ==> datas[j] == Recorded(txs, j, base, range)
      invariant forall j :: 0 <= j < i ==> outputs[j] == RecordedWrites(txs, j, base, range)
    {
      var data, writeSet := RecordNext(txs, i, rdb, base);
      datas := datas + [data];
      outputs := outputs + [writeSet];
    }
    IsOutputList(outputs, txs, base, range);
  }

  // ----- voting: PreExecutionI -----

  /** Whether every read of a transaction is allowed: the reads may be visited in any order. */
  method ReadsAllowed(readSet: set<Account>, bv: BitVector, dg: DependencyGraph, alldg: DependencyGraph) returns (ok: bool)
    requires bv.Valid()
    requires forall r :: r in dg.dpMap ==> 0 <= dg.dpMap[r] < bv.Size
    ensures ok <==> forall r :: r in readSet ==>
                      if r in dg.dpMap then bv.Bits()[dg.dpMap[r]] else r !in alldg.dpMap
  {
    var rest := readSet;
    ok := true;
    while rest != {}
      invariant rest <= readSet
      invariant forall r :: r in readSet - rest ==> if r in dg.dpMap then bv.Bits()[dg.dpMap[r]] else r !in alldg.dpMap
    {
      var r :| r in rest;
      var index := dg.AddRead(r);
      if index.Some? && !bv.GetIndex(index.value) {
        return false;
      } else if index.None? && alldg.AddRead(r).Some? {
        return false;
      }
      rest := rest - {r};
    }
  }

  /** The flag of the next transaction. */
  method FilterFlag(txs: seq<Tx>, i: nat, bv: BitVector, dg: DependencyGraph, alldg: DependencyGraph) returns (dgFlag: bool)
    requires i < |txs| && bv.Valid() && bv.Size == |txs| && dg.dpMap == DepMap(txs, i)
    ensures dgFlag == FilterBit(txs, bv.Bits()[..i], i, alldg.dpMap.Keys)
  {
    hide Accounts;
    hide FilterBit;
    hide Unpack;
    FilterBitByMap(txs, bv.Bits()[..i], i, alldg.dpMap.Keys);
    dgFlag := ReadsAllowed(Accounts(txs[i]), bv, dg, alldg);
  }

  /** One round of the dependency filter. */
  method FilterNext(txs: seq<Tx>, i: nat, bv: BitVector, dg: DependencyGraph, alldg: DependencyGraph)
    requires i < |txs| && dg != alldg && bv.Valid() && bv.Size == |txs|
    requires dg.dpMap == DepMap(txs, i)
    requires bv.Bits()[..i] == FilterBits(txs, i, alldg.dpMap.Keys)
    modifies bv, dg
    ensures bv.Valid() && bv.Size == |txs|
    ensures dg.dpMap == DepMap(txs, i + 1)
    ensures bv.Bits()[..i + 1] == FilterBits(txs, i + 1, alldg.dpMap.Keys)
  {
    hide Accounts;
    hide FilterBit;
    hide Unpack;
    hide DepMap;
    hide Touched;
    ghost var bits := bv.Bits()[..i];
    var dgFlag := FilterFlag(txs, i, bv, dg, alldg);
    AddWrites(dg, Accounts(txs[i]), i);
    DepMapNext(txs, i);
    var done := bv.SetIndex(i, dgFlag);
    assert bv.Bits()[..i + 1] == bits + [dgFlag];
  }

  /** The dependency filter over one block. */
  method FilterBlock(txs: seq<Tx>, alldg: DependencyGraph) returns (bv: BitVector, dg: DependencyGraph)
    ensures fresh(bv) && fresh(dg) && bv.Valid() && bv.Size == |txs|
    ensures bv.Bits() == Vote(txs, alldg.dpMap.Keys)
    ensures dg.dpMap.Keys == Touched(txs, |txs|)
  {
    bv := new BitVector(|txs|);
    dg := new DependencyGraph();
    for i := 0 to |txs|
      invariant fresh(bv) && fresh(dg) && bv.Valid() && bv.Size == |txs|
      invariant dg.dpMap == DepMap(txs, i)
      invariant bv.Bits()[..i] == FilterBits(txs, i, alldg.dpMap.Keys)
    {
      FilterNext(txs, i, bv, dg, alldg);
    }
    assert bv.Bits()[..|txs|] == bv.Bits();
  }

  /** Whether the shipped values in the shard's range are the overlay's current ones. */
  method FreshCheck(data: Balances, memoryDB: MemoryDB, range: Account -> bool) returns (ok: bool)
    requires memoryDB.Valid() && memoryDB.writeBuffer == map[]
    modifies memoryDB
    ensures memoryDB.Valid() && memoryDB.writeBuffer == map[] && memoryDB.Committed() == old(memoryDB.Committed())
    ensures ok == Fresh(data, memoryDB.Committed(), range)
    ensures ok <==> forall k :: k in data && range(k) ==> data[k] == Lookup(memoryDB.Committed(), k)
  {
    hide Cached;
    hide Lookup;
    ghost var s := memoryDB.Committed();
    assert s + map[] == s;
    var rest := data.Keys;
    ok := true;
    while rest != {}
      invariant rest <= data.Keys
      invariant memoryDB.Valid() && memoryDB.writeBuffer == map[] && memoryDB.Committed() == s
      invariant forall k :: k in data.Keys - rest && range(k) ==> data[k] == Lookup(s, k)
    {
      var key :| key in rest;
      if range(key) {
        var v := memoryDB.Get(key);
        if v != data[key] {
          return false;
        }
      }
      rest := rest - {key};
    }
  }

  /** Every transaction recorded as replayed still has its bit. */
  ghost predicate ReplayedKept(dg: DependencyGraph, bv: BitVector, n: nat)
    reads dg, bv
    requires bv.Valid()
  {
    forall k :: k in dg.dpMap ==> 0 <= dg.dpMap[k] < n <= bv.Size && bv.Bits()[dg.dpMap[k]]
  }

  /** The bit of a replayed transaction after the second dependency check. */
  method KeepReplayed(data: Balances, writeSet: Balances, i: nat, bv: BitVector, dg: DependencyGraph, nodg: DependencyGraph)
    returns (dgFlag: bool)
    requires bv.Valid() && i < bv.Size && bv.Bits()[i]
    requires dg != nodg && nodg.dpMap == map[] && ReplayedKept(dg, bv, i)
    modifies bv, dg
    ensures bv.Valid() && bv.Size == old(bv.Size) && bv.Bits() == old(bv.Bits())
    ensures ReplayedKept(dg, bv, i + 1) && dgFlag
  {
    hide Unpack;
    dgFlag := ReadsAllowed(data.Keys, bv, dg, nodg);
    AddWrites(dg, writeSet.Keys, i);
    assert bv.Bits()[i := true] == bv.Bits();
    var done := bv.SetIndex(i, dgFlag);
  }

  /** Replays transaction i from its shipped data; the second dependency check cannot fail. */
  method ReplayNext(tx: Tx, data: Balances, i: nat, bv: BitVector, memoryDB: MemoryDB, dg: DependencyGraph, nodg: DependencyGraph)
    requires bv.Valid() && i < bv.Size && bv.Bits()[i]
    requires memoryDB.Valid() && memoryDB.writeBuffer == map[]
    requires dg != nodg && nodg.dpMap == map[] && ReplayedKept(dg, bv, i)
    modifies bv, memoryDB, dg
    ensures bv.Valid() && bv.Size == old(bv.Size)
    ensures memoryDB.Valid() && memoryDB.writeBuffer == map[]
    ensures ReplayedKept(dg, bv, i + 1)
    ensures match Run(tx, Shipped(data))
            case Err(_) => bv.Bits() == old(bv.Bits())[i := false] && memoryDB.Committed() == old(memoryDB.Committed())
            case Ok(w) => bv.Bits() == old(bv.Bits()) && memoryDB.Committed() == old(memoryDB.Committed()) + w
  {
    hide Run;
    hide Unpack;
    assert data + map[] == data;
    var db := CrossShardDB(memoryDB, data);
    var r := Execute(tx, db);
    if r.Err? {
      var done := bv.SetIndex(i, false);
      memoryDB.CommitWrite(false);
    } else {
      var writeSet := memoryDB.writeBuffer;
      assert map[] + writeSet == writeSet;
      var dgFlag := KeepReplayed(data, writeSet, i, bv, dg, nodg);
      memoryDB.CommitWrite(dgFlag);
    }
  }

  /** One round of the freshness phase. */
  method RecheckNext(tx: Tx, d: ReadData, i: nat, bv: BitVector, memoryDB: MemoryDB, dg: DependencyGraph, nodg: DependencyGraph,
                     range: Account -> bool)
    requires bv.Valid() && i < bv.Size && memoryDB.Valid() && memoryDB.writeBuffer == map[]
    requires dg != nodg && nodg.dpMap == map[] && ReplayedKept(dg, bv, i)
    modifies bv, memoryDB, dg
    ensures bv.Valid() && bv.Size == old(bv.Size) && memoryDB.Valid() && memoryDB.writeBuffer == map[]
    ensures ReplayedKept(dg, bv, i + 1)
    ensures Phase(bv.Bits(), memoryDB.Committed())
            == RecheckOne(Phase(old(bv.Bits()), old(memoryDB.Committed())), i, tx, d, range)
  {
    hide Run;
    hide Fresh;
    hide Unpack;
    if !bv.GetIndex(i) {
      return;
    }
    if d.Garbled? {
      var done := bv.SetIndex(i, false);
    } else if !d.ok {
      var done := bv.SetIndex(i, true);
      assert old(bv.Bits())[i := true] == old(bv.Bits());
    } else {
      var ok := FreshCheck(d.data, memoryDB, range);
      if !ok {
        var done := bv.SetIndex(i, false);
      } else {
        ReplayNext(tx, d.data, i, bv, memoryDB, dg, nodg);
      }
    }
  }

  lemma {:induction false} NothingReplayed(dg: DependencyGraph, bv: BitVector)
    requires bv.Valid() && dg.dpMap == map[]
    ensures ReplayedKept(dg, bv, 0)
  {
  }

  /** The freshness phase over one block, from the bytes of the filter's vote to the bytes of the final one. */
  method RecheckBlock(txs: seq<Tx>, datas: seq<ReadData>, status: Bytes, db: PrefixStore, range: Account -> bool)
    returns (out: Bytes)
    requires |txs| == |datas|
    requires Decodable(status) && |DecodedBits(status)| == |txs|
    ensures Decodable(out) && DecodedBits(out) == Recheck(txs, datas, DecodedBits(status), |txs|, db.data, range).bits
  {
    hide RecheckOne;
    hide ReplayedKept;
    hide DecodedBits;
    hide Unpack;
    hide BitVector.Bits;
    hide BitVector.Valid;
    hide MemoryDB.Valid;
    hide MemoryDB.Committed;
    var memoryDB := new MemoryDB(db);
    var bv := FromByte(status);
    var dg := new DependencyGraph();
    var nodg := new DependencyGraph();
    ghost var base, bits := db.data, bv.Bits();
    NothingReplayed(dg, bv);
    for i := 0 to |txs|
      invariant fresh(memoryDB) && fresh(bv) && fresh(dg) && fresh(nodg) && dg != nodg
      invariant memoryDB.db == db && base == db.data
      invariant bv.Valid() && bv.Size == |txs| && memoryDB.Valid() && memoryDB.writeBuffer == map[]
      invariant nodg.dpMap == map[] && ReplayedKept(dg, bv, i)
      invariant Phase(bv.Bits(), memoryDB.Committed()) == Recheck(txs, datas, bits, i, base, range)
    {
      RecheckNext(txs[i], datas[i], i, bv, memoryDB, dg, nodg, range);
    }
    out := bv.Byte();
  }

  // ----- execution -----

  /** Transaction i of a cross-shard block: recorded writes if the shard has them, else replay. */
  method ExecuteNext(k: Block, i: nat, bv: BitVector, outputs: seq<Balances>, memoryDB: MemoryDB) returns (resp: Receipt)
    requires k.WellFormed() && i < |k.txs| && bv.Valid() && memoryDB.Valid() && memoryDB.writeBuffer == map[]
    requires NoPanic(k, bv.Bits(), outputs)
    requires memoryDB.memDB == Overlay(k, bv.Bits(), outputs, i)
    modifies memoryDB
    ensures memoryDB.Valid() && memoryDB.writeBuffer == map[]
    ensures memoryDB.memDB == Overlay(k, bv.Bits(), outputs, i + 1)
    ensures resp == Receipt(ReceiptOf(k.datas[i], BitOf(bv.Bits(), i)))
  {
    hide Run;
    hide Unpack;
    var d := k.datas[i];
    if d.Garbled? {
      resp := Receipt(CodeEncodingError);
    } else if !d.ok {
      resp := Receipt(CodeAbort);
    } else if !bv.GetIndex(i) {
      resp := Receipt(CodeAbort);
    } else if |outputs| > i {
      BufferAll(memoryDB, outputs[i]);
      memoryDB.CommitWrite(true);
      resp := Receipt(CodeOK);
    } else {
      assert d.data + map[] == d.data;
      var r := Execute(k.txs[i], CrossShardDB(memoryDB, d.data));
      assert r.Ok?;
      assert map[] + memoryDB.writeBuffer == memoryDB.writeBuffer;
      memoryDB.CommitWrite(true);
      resp := Receipt(CodeOK);
    }
  }

  /** Sets every entry of a write set, in any order. */
  method BufferAll(memoryDB: MemoryDB, writes: Balances)
    requires memoryDB.Valid() && memoryDB.writeBuffer == map[]
    modifies memoryDB`writeBuffer
    ensures memoryDB.Valid() && memoryDB.writeBuffer == writes
  {
    var rest := writes.Keys;
    while rest != {}
      invariant rest <= writes.Keys && memoryDB.Valid()
      invariant memoryDB.writeBuffer == map k | k in writes && k !in rest :: writes[k]
    {
      var key :| key in rest;
      memoryDB.Set(key, writes[key]);
      rest := rest - {key};
    }
  }

  method ExecuteBlock(k: Block, bv: BitVector, outputs: seq<Balances>, db: PrefixStore) returns (resps: seq<Receipt>, memoryDB: MemoryDB)
    requires k.WellFormed() && bv.Valid() && NoPanic(k, bv.Bits(), outputs)
    ensures fresh(memoryDB) && memoryDB.db == db
    ensures memoryDB.memDB == Overlay(k, bv.Bits(), outputs, |k.txs|)
    ensures |resps| == |k.txs|
    ensures forall i :: 0 <= i < |k.txs| ==> resps[i] == Receipt(ReceiptOf(k.datas[i], BitOf(bv.Bits(), i)))
  {
    memoryDB := new MemoryDB(db);
    resps := [];
    hide NoPanic;
    hide ReceiptOf;
    hide Unpack;
    for i := 0 to |k.txs|
      invariant fresh(memoryDB) && memoryDB.db == db && memoryDB.Valid() && memoryDB.writeBuffer == map[]
      invariant memoryDB.memDB == Overlay(k, bv.Bits(), outputs, i)
      invariant |resps| == i
      invariant forall j :: 0 <= j < i ==> resps[j] == Receipt(ReceiptOf(k.datas[j], BitOf(bv.Bits(), j)))
    {
      var resp := ExecuteNext(k, i, bv, outputs, memoryDB);
      resps := resps + [resp];
    }
  }

  function InnerReceipt(txs: seq<Tx>, i: nat, base: Balances, range: Account -> bool): Receipt
    requires i < |txs|
  {
    Receipt(if Full(txs, i, base, range).Ok? then CodeOK else CodeAbort)
  }

  function BlockReceipts(txs: seq<Tx>, base: Balances, range: Account -> bool): seq<Receipt> {
    seq(|txs|, i requires 0 <= i < |txs| => InnerReceipt(txs, i, base, range))
  }

  /** The answer for a cross-shard transaction in plain terms. */
  lemma {:induction false} ReceiptCodes(d: ReadData, bit: bool)
    ensures ReceiptOf(d, bit) == CodeEncodingError <==> d == Garbled
    ensures ReceiptOf(d, bit) == CodeOK <==> d.ReadData? && d.ok && bit
  {
  }

  /** And for an intra-shard one: OK if it succeeds at its place in the run of its whole block, abort if it fails there. */
  lemma {:induction false} InnerReceiptCodes(txs: seq<Tx>, i: nat, base: Balances, range: Account -> bool)
    requires i < |txs|
    ensures var outcome := Run(txs[i], Ranged(Serial(txs, All(|txs|), i, base, range), range));
            && |BlockReceipts(txs, base, range)| == |txs|
            && (BlockReceipts(txs, base, range)[i] == Receipt(CodeOK) <==> outcome.Ok?)
            && (BlockReceipts(txs, base, range)[i] == Receipt(CodeAbort) <==> outcome.Err?)
  {
    hide Run;
    hide Serial;
  }

  /** The receipts of an intra-shard block in plain terms: OK for a transaction that succeeds at its place, abort for the others. */
  ghost predicate TellsOutcomes(resps: seq<Receipt>, txs: seq<Tx>, base: Balances, range: Account -> bool) {
    |resps| == |txs| && forall i :: 0 <= i < |txs| ==>
      (Full(txs, i, base, range).Ok? ==> resps[i] == Receipt(CodeOK)) && (Full(txs, i, base, range).Err? ==> resps[i] == Receipt(CodeAbort))
  }

  lemma {:induction false} BlockReceiptsTell(txs: seq<Tx>, x: Balances, base: Balances, range: Account -> bool)
    requires Agree(x, base, range)
    ensures TellsOutcomes(BlockReceipts(txs, x, range), txs, base, range)
  {
    forall i | 0 <= i < |txs|
      ensures Full(txs, i, x, range) == Full(txs, i, base, range)
    {
      FullOnRange(txs, i, x, base, range);
    }
    hide Full;
    hide Agree;
  }

  /** The receipts of the first n intra-shard blocks, each from the state its predecessors leave. */
  function RelatedReceipts(inner: seq<Block>, ranges: map<string, Account -> bool>, n: nat, base: Balances): seq<seq<Receipt>>
    requires n <= |inner| && forall b :: 0 <= b < |inner| ==> inner[b].chainID in ranges
  {
    if n == 0 then []
    else RelatedReceipts(inner, ranges, n - 1, base)
         + [BlockReceipts(inner[n - 1].bodyTxs, InnerState(inner, ranges, n - 1, base), ranges[inner[n - 1].chainID])]
  }

  /** One intra-shard block on its range, persisted at the end. */
  method ExecuteInner(txs: seq<Tx>, db: PrefixStore, range: Account -> bool) returns (resps: seq<Receipt>)
    modifies db
    ensures db.data == Serial(txs, All(|txs|), |txs|, old(db.data), range)
    ensures resps == BlockReceipts(txs, old(db.data), range) && TellsOutcomes(resps, txs, old(db.data), range)
  {
    hide Serial;
    hide InnerReceipt;
    AgreeSelf(db.data, range);
    BlockReceiptsTell(txs, db.data, db.data, range);
    hide TellsOutcomes;
    var memoryDB;
    resps, memoryDB := RunInner(txs, db, range);
    RangeWriteIsSerial(txs, db.data, memoryDB.memDB, range);
    memoryDB.WriteRange(range);
  }

  /** One round of the intra-shard loop. */
  method RunInnerNext(txs: seq<Tx>, i: nat, db: TxDB, ghost base: Balances) returns (resp: Receipt)
    requires i < |txs|
    requires db.RangeDB? && db.db.Valid() && db.db.writeBuffer == map[] && db.db.readBuffer == map[]
    requires db.db.Committed() == Serial(txs, All(|txs|), i, base, db.range)
    modifies db.db
    ensures db.db.Valid() && db.db.writeBuffer == map[] && db.db.readBuffer == map[]
    ensures db.db.Committed() == Serial(txs, All(|txs|), i + 1, base, db.range)
    ensures resp == InnerReceipt(txs, i, base, db.range)
  {
    hide Run;
    hide Serial;
    hide Cached;
    RunNext(txs, i, base, db.range);
    var ok, readSet, writeSet := RunAndSettle(txs[i], db);
    resp := Receipt(if ok then CodeOK else CodeAbort);
  }

  method RunInner(txs: seq<Tx>, db: PrefixStore, range: Account -> bool) returns (resps: seq<Receipt>, memoryDB: MemoryDB)
    ensures fresh(memoryDB) && memoryDB.db == db
    ensures memoryDB.Committed() == Serial(txs, All(|txs|), |txs|, db.data, range)
    ensures |resps| == |txs|
    ensures forall i :: 0 <= i < |txs| ==> resps[i] == InnerReceipt(txs, i, db.data, range)
  {
    hide *;
    memoryDB := new MemoryDB(db);
    var rdb := RangeDB(memoryDB, range);
    ghost var base := db.data;
    resps := [];
    WholeNone(txs, base, range);
    for i := 0 to |txs|
      invariant fresh(memoryDB) && memoryDB.db == db && base == db.data
      invariant memoryDB.Valid() && memoryDB.writeBuffer == map[] && memoryDB.readBuffer == map[]
      invariant memoryDB.Committed() == Serial(txs, All(|txs|), i, base, range)
      invariant |resps| == i
      invariant forall j :: 0 <= j < i ==> resps[j] == InnerReceipt(txs, j, base, range)
    {
      var resp := RunInnerNext(txs, i, rdb, base);
      resps := resps + [resp];
    }
  }

  ghost predicate AllValid(bvs: seq<BitVector>)
    reads bvs
  {
    forall b :: 0 <= b < |bvs| ==> bvs[b].Valid()
  }

  ghost function BitsOf(bvs: seq<BitVector>): (s: seq<seq<bool>>)
    reads bvs
    requires AllValid(bvs)
    ensures |s| == |bvs| && forall b :: 0 <= b < |bvs| ==> s[b] == bvs[b].Bits()
  {
    seq(|bvs|, b requires 0 <= b < |bvs| reads bvs requires bvs[b].Valid() => bvs[b].Bits())
  }

  class Application {
    const db: PrefixStore
    const keyRange: Account -> bool
    const relatedIKeyRange: map<string, Account -> bool>
    const isI: bool
    var preExecutionOutputList: map<string, seq<Balances>>

    constructor (db: PrefixStore, keyRange: Account -> bool, relatedIKeyRange: map<string, Account -> bool>, isI: bool)
      ensures this.db == db && this.keyRange == keyRange && this.relatedIKeyRange == relatedIKeyRange && this.isI == isI
      ensures preExecutionOutputList == map[]
    {
      this.db, this.keyRange, this.relatedIKeyRange, this.isI := db, keyRange, relatedIKeyRange, isI;
      preExecutionOutputList := map[];
    }

    method Commit()
      modifies this
      ensures preExecutionOutputList == map[]
    {
      preExecutionOutputList := map[];
    }

    /** The C-shard runs its whole block and records what each transaction read and wrote. */
    method PreExecutionC(block: Block) returns (datas: seq<ReadData>)
      modifies this
      ensures |datas| == |block.txs|
      ensures forall i :: 0 <= i < |block.txs| ==> datas[i] == Recorded(block.txs, i, db.data, keyRange)
      ensures preExecutionOutputList == old(preExecutionOutputList)[block.hash := OutputList(block.txs, db.data, keyRange)]
    {
      var outputs;
      datas, outputs := RecordBlock(block.txs, db, keyRange);
      preExecutionOutputList := preExecutionOutputList[block.hash := outputs];
    }

    /**
     * The I-shard's vote on every block of its list: the dependency filter in list order,
     * then the freshness phase on each block's own overlay.
     */
    method PreExecutionI(blocks: seq<Block>) returns (votes: seq<Bytes>)
      requires forall b :: 0 <= b < |blocks| ==> blocks[b].WellFormed()
      ensures |votes| == |blocks|
      ensures forall b :: 0 <= b < |blocks| ==>
                Decodable(votes[b]) && DecodedBits(votes[b]) == FinalVote(blocks, b, db.data, keyRange)
    {
      var filtered := FilterAll(blocks);
      hide Recheck;
      hide Vote;
      hide Union;
      hide DecodedBits;
      hide Decodable;
      votes := [];
      for b := 0 to |blocks|
        invariant |votes| == b
        invariant forall c :: 0 <= c < b ==>
                    Decodable(votes[c]) && DecodedBits(votes[c]) == FinalVote(blocks, c, db.data, keyRange)
      {
        var out := RecheckBlock(blocks[b].txs, blocks[b].datas, filtered[b], db, keyRange);
        votes := votes + [out];
      }
    }

    /** The overlays of all cross-shard blocks, computed from the same store. */
    method ExecuteAll(blocks: seq<Block>, bvs: seq<BitVector>) returns (resps: seq<seq<Receipt>>, memDBs: seq<MemoryDB>)
      requires |blocks| == |bvs| && AllValid(bvs)
      requires forall b :: 0 <= b < |blocks| ==> blocks[b].WellFormed()
      requires forall b :: 0 <= b < |blocks| ==>
                 NoPanic(blocks[b], bvs[b].Bits(), OutputsFor(preExecutionOutputList, blocks[b].hash))
      ensures |resps| == |memDBs| == |blocks|
      ensures forall b :: 0 <= b < |blocks| ==> fresh(memDBs[b]) && memDBs[b].db == db
      ensures forall b, c :: 0 <= b < c < |blocks| ==> memDBs[b] != memDBs[c]
      ensures forall b :: 0 <= b < |blocks| ==> memDBs[b].memDB == OverlayList(blocks, BitsOf(bvs), preExecutionOutputList)[b]
      ensures forall b :: 0 <= b < |blocks| ==> |resps[b]| == |blocks[b].txs|
      ensures forall b, i :: 0 <= b < |blocks| && 0 <= i < |blocks[b].txs| && blocks[b].WellFormed() ==>
                resps[b][i] == Receipt(ReceiptOf(blocks[b].datas[i], BitOf(bvs[b].Bits(), i)))
    {
      hide Overlay;
      hide NoPanic;
      hide ReceiptOf;
      hide Unpack;
      resps, memDBs := [], [];
      for b := 0 to |blocks|
        invariant |resps| == |memDBs| == b
        invariant forall c :: 0 <= c < b ==> fresh(memDBs[c]) && memDBs[c].db == db
        invariant forall c, d :: 0 <= c < d < b ==> memDBs[c] != memDBs[d]
        invariant forall c :: 0 <= c < b ==>
                    memDBs[c].memDB == Overlay(blocks[c], bvs[c].Bits(), OutputsFor(preExecutionOutputList, blocks[c].hash), |blocks[c].txs|)
        invariant forall c :: 0 <= c < b ==> |resps[c]| == |blocks[c].txs|
        invariant forall c, i :: 0 <= c < b && 0 <= i < |blocks[c].txs| ==>
                    resps[c][i] == Receipt(ReceiptOf(blocks[c].datas[i], BitOf(bvs[c].Bits(), i)))
      {
        var resp, memoryDB := ExecuteBlock(blocks[b], bvs[b], OutputsFor(preExecutionOutputList, blocks[b].hash), db);
        resps, memDBs := resps + [resp], memDBs + [memoryDB];
      }
    }

    /** Writes the overlays, limited to the shard's range, in list order. */
    method WriteOverlays(memDBs: seq<MemoryDB>, ghost overlays: seq<Balances>)
      requires |memDBs| == |overlays|
      requires forall b :: 0 <= b < |memDBs| ==> memDBs[b].db == db && memDBs[b].memDB == overlays[b]
      requires forall b, c :: 0 <= b < c < |memDBs| ==> memDBs[b] != memDBs[c]
      modifies db, memDBs
      ensures db.data == WriteInOrder(old(db.data), RestrictAll(overlays, keyRange), InOrder(|overlays|), |overlays|)
    {
      hide WriteInOrder;
      if |memDBs| == 0 {
        NoWrites(db.data, overlays, keyRange);
      }
      for b := 0 to |memDBs|
        invariant forall c :: b <= c < |memDBs| ==> memDBs[c].memDB == overlays[c]
        invariant b == 0 ==> db.data == old(db.data)
        invariant b > 0 || |memDBs| == 0 ==>
                    db.data == WriteInOrder(old(db.data), RestrictAll(overlays, keyRange), InOrder(|overlays|), b)
      {
        WriteNext(old(db.data), overlays, keyRange, b);
        memDBs[b].WriteRange(keyRange);
      }
    }

    /**
     * Executes a round: cross-shard overlays first, then the intra-shard blocks. The store ends
     * as the specification says and the panic of the replay path is never reached.
     */
    method Execution(blocks: seq<Block>, bvs: seq<BitVector>, inner: seq<Block>)
      returns (crossResps: seq<seq<Receipt>>, innerResps: seq<seq<Receipt>>)
      requires |blocks| == |bvs| && AllValid(bvs)
      requires forall b :: 0 <= b < |blocks| ==> blocks[b].WellFormed()
      requires forall b :: 0 <= b < |blocks| ==>
                 NoPanic(blocks[b], bvs[b].Bits(), OutputsFor(preExecutionOutputList, blocks[b].hash))
      requires if isI then inner != [] else forall b :: 0 <= b < |inner| ==> inner[b].chainID in relatedIKeyRange
      modifies db
      ensures var overlays := OverlayList(blocks, old(BitsOf(bvs)), old(preExecutionOutputList));
              var crossed := WriteInOrder(old(db.data), RestrictAll(overlays, keyRange), InOrder(|overlays|), |overlays|);
              db.data == if isI then Serial(inner[0].bodyTxs, All(|inner[0].bodyTxs|), |inner[0].bodyTxs|, crossed, keyRange)
                         else InnerState(inner, relatedIKeyRange, |inner|, crossed)
      ensures var overlays := OverlayList(blocks, old(BitsOf(bvs)), old(preExecutionOutputList));
              var crossed := WriteInOrder(old(db.data), RestrictAll(overlays, keyRange), InOrder(|overlays|), |overlays|);
              innerResps == if isI then [BlockReceipts(inner[0].bodyTxs, crossed, keyRange)]
                            else RelatedReceipts(inner, relatedIKeyRange, |inner|, crossed)
      ensures var overlays := OverlayList(blocks, old(BitsOf(bvs)), old(preExecutionOutputList));
              var crossed := WriteInOrder(old(db.data), RestrictAll(overlays, keyRange), InOrder(|overlays|), |overlays|);
              if isI then |innerResps| == 1 && TellsOutcomes(innerResps[0], inner[0].bodyTxs, crossed, keyRange)
              else Apart(inner, relatedIKeyRange) ==> RelatedDone(inner, relatedIKeyRange, crossed, db.data, innerResps)
      ensures |crossResps| == |blocks|
      ensures forall b :: 0 <= b < |blocks| ==> |crossResps[b]| == |blocks[b].txs|
      ensures forall b, i :: 0 <= b < |blocks| && 0 <= i < |blocks[b].txs| ==>
                && crossResps[b][i] == Receipt(ReceiptOf(blocks[b].datas[i], BitOf(old(BitsOf(bvs))[b], i)))
                && (crossResps[b][i] == Receipt(CodeEncodingError) <==> blocks[b].datas[i] == Garbled)
                && (crossResps[b][i] == Receipt(CodeOK) <==> IsExecuted(blocks[b], old(BitsOf(bvs))[b], i))
    {
      hide BlockReceipts;
      hide Overlay;
      hide NoPanic;
      hide ReceiptOf;
      hide WriteInOrder;
      hide Serial;
      hide TellsOutcomes;
      hide RelatedDone;
      hide Apart;
      forall b, i | 0 <= b < |blocks| && 0 <= i < |blocks[b].txs|
        ensures ReceiptOf(blocks[b].datas[i], BitOf(bvs[b].Bits(), i)) == CodeEncodingError <==> blocks[b].datas[i] == Garbled
        ensures ReceiptOf(blocks[b].datas[i], BitOf(bvs[b].Bits(), i)) == CodeOK <==> IsExecuted(blocks[b], bvs[b].Bits(), i)
      {
        ReceiptCodes(blocks[b].datas[i], BitOf(bvs[b].Bits(), i));
      }
      var memDBs;
      crossResps, memDBs := ExecuteAll(blocks, bvs);
      WriteOverlays(memDBs, OverlayList(blocks, BitsOf(bvs), preExecutionOutputList));
      if isI {
        var resp := ExecuteInner(inner[0].bodyTxs, db, keyRange);
        innerResps := [resp];
      } else {
        innerResps := ExecuteRelated(inner, db, relatedIKeyRange);
      }
    }
  }

  lemma {:induction false} NoWrites(base: Balances, overlays: seq<Balances>, range: Account -> bool)
    ensures WriteInOrder(base, RestrictAll(overlays, range), InOrder(|overlays|), 0) == base
  {
  }

  /**
   * What a C-shard leaves after the intra-shard blocks of its I-shards, in plain terms: on each
   * range what that block alone leaves there, with its receipts, and nothing changed elsewhere.
   */
  ghost predicate RelatedDone(inner: seq<Block>, ranges: map<string, Account -> bool>, before: Balances, after: Balances, resps: seq<seq<Receipt>>)
    requires forall b :: 0 <= b < |inner| ==> inner[b].chainID in ranges
  {
    && |resps| == |inner|
    && (forall b, a :: 0 <= b < |inner| && ranges[inner[b].chainID](a) ==>
          Lookup(after, a) == Lookup(Serial(inner[b].bodyTxs, All(|inner[b].bodyTxs|), |inner[b].bodyTxs|, before, ranges[inner[b].chainID]), a))
    && (forall b :: 0 <= b < |inner| ==> TellsOutcomes(resps[b], inner[b].bodyTxs, before, ranges[inner[b].chainID]))
    && forall a :: (forall b :: 0 <= b < |inner| ==> !ranges[inner[b].chainID](a)) ==> Lookup(after, a) == Lookup(before, a)
  }

  lemma {:induction false} RelatedReceiptsAt(inner: seq<Block>, ranges: map<string, Account -> bool>, n: nat, base: Balances, b: nat)
    requires b < n <= |inner| && forall c :: 0 <= c < |inner| ==> inner[c].chainID in ranges
    ensures |RelatedReceipts(inner, ranges, n, base)| == n
    ensures RelatedReceipts(inner, ranges, n, base)[b]
            == BlockReceipts(inner[b].bodyTxs, InnerState(inner, ranges, b, base), ranges[inner[b].chainID])
  {
    hide BlockReceipts;
    hide InnerState;
    if n == 1 {
      assert RelatedReceipts(inner, ranges, 0, base) == [];
    } else if b < n - 1 {
      RelatedReceiptsAt(inner, ranges, n - 1, base, b);
    } else {
      RelatedReceiptsAt(inner, ranges, n - 1, base, 0);
    }
  }

  /** The composed runs are that, if the ranges are apart. */
  lemma {:induction false} RelatedIsDone(inner: seq<Block>, ranges: map<string, Account -> bool>, base: Balances)
    requires Apart(inner, ranges)
    ensures RelatedDone(inner, ranges, base, InnerState(inner, ranges, |inner|, base), RelatedReceipts(inner, ranges, |inner|, base))
  {
    hide Serial;
    hide InnerState;
    hide BlockReceipts;
    hide TellsOutcomes;
    var after, resps := InnerState(inner, ranges, |inner|, base), RelatedReceipts(inner, ranges, |inner|, base);
    if inner == [] {
      assert resps == [];
    } else {
      RelatedReceiptsAt(inner, ranges, |inner|, base, 0);
    }
    forall b | 0 <= b < |inner|
      ensures TellsOutcomes(resps[b], inner[b].bodyTxs, base, ranges[inner[b].chainID])
    {
      RelatedReceiptsAt(inner, ranges, |inner|, base, b);
      InnerOnRange(inner, ranges, b, base, b);
      BlockReceiptsTell(inner[b].bodyTxs, InnerState(inner, ranges, b, base), base, ranges[inner[b].chainID]);
    }
    forall b, a | 0 <= b < |inner| && ranges[inner[b].chainID](a)
      ensures Lookup(after, a) == Lookup(Serial(inner[b].bodyTxs, All(|inner[b].bodyTxs|), |inner[b].bodyTxs|, base, ranges[inner[b].chainID]), a)
    {
      InnerOnRange(inner, ranges, |inner|, base, b);
    }
    forall a | forall b :: 0 <= b < |inner| ==> !ranges[inner[b].chainID](a)
      ensures Lookup(after, a) == Lookup(base, a)
    {
      InnerOutside(inner, ranges, |inner|, base, a);
    }
  }

  /** The related shards' intra-shard blocks, each on its own range. */
  method ExecuteRelated(inner: seq<Block>, db: PrefixStore, ranges: map<string, Account -> bool>) returns (resps: seq<seq<Receipt>>)
    requires forall b :: 0 <= b < |inner| ==> inner[b].chainID in ranges
    modifies db
    ensures db.data == InnerState(inner, ranges, |inner|, old(db.data))
    ensures resps == RelatedReceipts(inner, ranges, |inner|, old(db.data))
    ensures Apart(inner, ranges) ==> RelatedDone(inner, ranges, old(db.data), db.data, resps)
  {
    hide Serial;
    hide BlockReceipts;
    hide TellsOutcomes;
    if Apart(inner, ranges) {
      RelatedIsDone(inner, ranges, db.data);
    }
    hide RelatedDone;
    hide Apart;
    resps := [];
    for b := 0 to |inner|
      invariant db.data == InnerState(inner, ranges, b, old(db.data))
      invariant resps == RelatedReceipts(inner, ranges, b, old(db.data))
    {
      var resp := ExecuteInner(inner[b].bodyTxs, db, ranges[inner[b].chainID]);
      resps := resps + [resp];
    }
  }

  /** The filter's bytes for one block, after which the block's accounts are closed to later ones. */
  method FilterStatus(txs: seq<Tx>, alldg: DependencyGraph, b: nat) returns (status: Bytes)
    modifies alldg
    ensures Decodable(status) && DecodedBits(status) == Vote(txs, old(alldg.dpMap.Keys))
    ensures alldg.dpMap.Keys == old(alldg.dpMap.Keys) + Touched(txs, |txs|)
  {
    hide Vote;
    hide Touched;
    hide Unpack;
    var bv, dg := FilterBlock(txs, alldg);
    status := bv.Byte();
    AddWrites(alldg, dg.dpMap.Keys, b);
  }

  lemma {:induction false} UnionNext(blocks: seq<Block>, b: nat)
    requires b < |blocks|
    ensures Union(blocks, 0) == {}
    ensures Union(blocks, b + 1) == Union(blocks, b) + Touched(blocks[b].txs, |blocks[b].txs|)
  {
  }

  /** The filter over the whole list. */
  method FilterAll(blocks: seq<Block>) returns (statuses: seq<Bytes>)
    ensures |statuses| == |blocks|
    ensures forall b :: 0 <= b < |blocks| ==>
              Decodable(statuses[b]) && DecodedBits(statuses[b]) == Vote(blocks[b].txs, Union(blocks, b))
  {
    hide *;
    var alldg := new DependencyGraph();
    statuses := [];
    for b := 0 to |blocks|
      invariant fresh(alldg) && |statuses| == b
      invariant b == 0 ==> alldg.dpMap == map[]
      invariant b > 0 ==> alldg.dpMap.Keys == Union(blocks, b)
      invariant forall c :: 0 <= c < b ==>
                  Decodable(statuses[c]) && DecodedBits(statuses[c]) == Vote(blocks[c].txs, Union(blocks, c))
    {
      UnionNext(blocks, b);
      assert alldg.dpMap.Keys == Union(blocks, b);
      var status := FilterStatus(blocks[b].txs, alldg, b);
      statuses := statuses + [status];
    }
  }
}