/** Cross-shard execution as a specification: serial runs, recorded data, votes and overlays. */
module CrossShard {
  import opened Transfers

  /** The read data shipped with a transaction, as it decodes. */
  datatype ReadData = Garbled | ReadData(data: Balances, ok: bool)

  datatype Block = Block(hash: string, chainID: string, txs: seq<Tx>, datas: seq<ReadData>, bodyTxs: seq<Tx>)
  {
    predicate WellFormed() {
      |txs| == |datas|
    }
  }

  predicate Conflict(x: Tx, y: Tx) {
    Accounts(x) * Accounts(y) != {}
  }

  function All(n: nat): (s: seq<bool>)
    ensures |s| == n
  {
    seq(n, _ => true)
  }

  // ----- serial runs -----

  /** The state after the kept ones among the first n transactions ran one by one. */
  function Serial(txs: seq<Tx>, keep: seq<bool>, n: nat, base: Balances, range: Account -> bool): Balances
    requires n <= |txs| == |keep|
  {
    if n == 0 then base else
    var s := Serial(txs, keep, n - 1, base, range);
    if !keep[n - 1] then s else
    match Run(txs[n - 1], Ranged(s, range))
    case Ok(w) => s + w
    case Err(_) => s
  }

  /** What transaction i does at its place in that run. */
  function Outcome(txs: seq<Tx>, keep: seq<bool>, i: nat, base: Balances, range: Account -> bool): Result<Balances>
    requires i < |txs| == |keep|
  {
    Run(txs[i], Ranged(Serial(txs, keep, i, base, range), range))
  }

  /** The outcome of transaction i when the whole block runs: what the C-shard computes. */
  function Full(txs: seq<Tx>, i: nat, base: Balances, range: Account -> bool): Result<Balances>
    requires i < |txs|
  {
    Outcome(txs, All(|txs|), i, base, range)
  }

  /** What the C-shard ships for transaction i. */
  function Recorded(txs: seq<Tx>, i: nat, base: Balances, range: Account -> bool): ReadData
    requires i < |txs|
  {
    var view := Ranged(Serial(txs, All(|txs|), i, base, range), range);
    if Run(txs[i], view).Ok? then RunReadable(txs[i], view); ReadData(ReadSet(txs[i], view), true)
    else ReadData(map[], false)
  }

  /** The write set the C-shard keeps for transaction i; empty when it aborted. */
  function RecordedWrites(txs: seq<Tx>, i: nat, base: Balances, range: Account -> bool): Balances
    requires i < |txs|
  {
    match Full(txs, i, base, range)
    case Ok(w) => w
    case Err(_) => map[]
  }

  /** The write sets the C-shard keeps for a block. */
  function OutputList(txs: seq<Tx>, base: Balances, range: Account -> bool): (l: seq<Balances>)
    ensures |l| == |txs|
  {
    seq(|txs|, i requires 0 <= i < |txs| => RecordedWrites(txs, i, base, range))
  }

  lemma {:induction false} IsOutputList(l: seq<Balances>, txs: seq<Tx>, base: Balances, range: Account -> bool)
    requires |l| == |txs| && forall i :: 0 <= i < |txs| ==> l[i] == RecordedWrites(txs, i, base, range)
    ensures l == OutputList(txs, base, range)
  {
    hide RecordedWrites;
  }

  /** One more transaction of a whole-block run. */
  lemma {:induction false} RunNext(txs: seq<Tx>, i: nat, base: Balances, range: Account -> bool)
    requires i < |txs|
    ensures var s := Serial(txs, All(|txs|), i, base, range);
            var view := Ranged(s, range);
            match Run(txs[i], view)
            case Ok(w) => && Serial(txs, All(|txs|), i + 1, base, range) == s + w
                          && RecordedWrites(txs, i, base, range) == w
                          && (forall a :: a in Accounts(txs[i]) ==> view.Read(a).Some?)
                          && Recorded(txs, i, base, range) == ReadData(ReadSet(txs[i], view), true)
            case Err(_) => && Serial(txs, All(|txs|), i + 1, base, range) == s
                           && RecordedWrites(txs, i, base, range) == map[]
                           && Recorded(txs, i, base, range) == ReadData(map[], false)
  {
    var view := Ranged(Serial(txs, All(|txs|), i, base, range), range);
    if Run(txs[i], view).Ok? {
      RunReadable(txs[i], view);
    }
    hide Run;
  }

  /** The recorded writes of the kept transactions, laid over each other in block order. */
  function Applied(txs: seq<Tx>, keep: seq<bool>, n: nat, base: Balances, range: Account -> bool): Balances
    requires n <= |txs| == |keep|
  {
    if n == 0 then map[] else
    var o := Applied(txs, keep, n - 1, base, range);
    if keep[n - 1] then o + RecordedWrites(txs, n - 1, base, range) else o
  }

  // ----- dependency-closed votes -----

  /** A kept transaction's accounts are touched earlier in its block by kept transactions only. */
  ghost predicate Closed(txs: seq<Tx>, keep: seq<bool>)
    requires |txs| == |keep|
  {
    forall i, j :: 0 <= j < i < |txs| && keep[i] && Conflict(txs[i], txs[j]) ==> keep[j]
  }

  /** No dropped transaction among the first n touches account a. */
  ghost predicate Clean(txs: seq<Tx>, keep: seq<bool>, n: nat, a: Account)
    requires n <= |txs| == |keep|
  {
    forall j :: 0 <= j < n && a in Accounts(txs[j]) ==> keep[j]
  }

  /** Bases that agree on every account of the range that a kept transaction names. */
  ghost predicate AgreeOnKept(txs: seq<Tx>, keep: seq<bool>, base: Balances, other: Balances, range: Account -> bool)
    requires |txs| == |keep|
  {
    forall i, a :: 0 <= i < |txs| && keep[i] && a in Accounts(txs[i]) && range(a) ==> Lookup(base, a) == Lookup(other, a)
  }

  lemma {:induction false} ClosedMakesClean(txs: seq<Tx>, keep: seq<bool>, i: nat, a: Account)
    requires |txs| == |keep| && Closed(txs, keep)
    requires i < |txs| && keep[i] && a in Accounts(txs[i])
    ensures Clean(txs, keep, i, a)
  {
    forall j | 0 <= j < i && a in Accounts(txs[j])
      ensures keep[j]
    {
      assert a in Accounts(txs[i]) * Accounts(txs[j]);
    }
  }

  /** On clean accounts the whole block and its kept part reach the same balances. */
  lemma {:induction false} CleanBalancesAgree(txs: seq<Tx>, keep: seq<bool>, n: nat, base: Balances, other: Balances,
                                              range: Account -> bool, a: Account)
    requires n <= |txs| == |keep| && Closed(txs, keep) && AgreeOnKept(txs, keep, base, other, range)
    requires Clean(txs, keep, n, a) && Lookup(base, a) == Lookup(other, a)
    ensures Lookup(Serial(txs, All(|txs|), n, base, range), a) == Lookup(Serial(txs, keep, n, other, range), a)
    decreases n, 0
  {
    hide Run;
    if n > 0 {
      CleanBalancesAgree(txs, keep, n - 1, base, other, range, a);
      if keep[n - 1] {
        KeptOutcomeAgrees(txs, keep, n - 1, base, other, range);
      } else {
        assert a !in Accounts(txs[n - 1]);
      }
    }
  }

  /** A kept transaction does the same in the whole block as when only the kept ones run. */
  lemma {:induction false} KeptOutcomeAgrees(txs: seq<Tx>, keep: seq<bool>, i: nat, base: Balances, other: Balances,
                                             range: Account -> bool)
    requires i < |txs| == |keep| && Closed(txs, keep) && AgreeOnKept(txs, keep, base, other, range)
    requires keep[i]
    ensures Full(txs, i, base, range) == Outcome(txs, keep, i, other, range)
    decreases i, 1
  {
    var v := Ranged(Serial(txs, All(|txs|), i, base, range), range);
    var w := Ranged(Serial(txs, keep, i, other, range), range);
    forall a | a in Accounts(txs[i])
      ensures v.Read(a) == w.Read(a)
    {
      if range(a) {
        ClosedMakesClean(txs, keep, i, a);
        CleanBalancesAgree(txs, keep, i, base, other, range, a);
      }
    }
    RunLocal(txs[i], v, w);
  }

  /**
   * Laying the recorded writes of a closed vote over a base is the serial run of the kept
   * transactions from that base, even if the recording started from another base, as long
   * as the two agree on the accounts the kept transactions use.
   */
  lemma {:induction false} AppliedIsSerial(txs: seq<Tx>, keep: seq<bool>, n: nat, base: Balances, other: Balances,
                                           range: Account -> bool)
    requires n <= |txs| == |keep| && Closed(txs, keep) && AgreeOnKept(txs, keep, base, other, range)
    ensures other + Applied(txs, keep, n, base, range) == Serial(txs, keep, n, other, range)
  {
    hide Run;
    hide Closed;
    hide AgreeOnKept;
    if n > 0 {
      AppliedIsSerial(txs, keep, n - 1, base, other, range);
      if keep[n - 1] {
        KeptOutcomeAgrees(txs, keep, n - 1, base, other, range);
        var o, w := Applied(txs, keep, n - 1, base, range), RecordedWrites(txs, n - 1, base, range);
        assert other + (o + w) == (other + o) + w;
      }
    }
  }

  lemma {:induction false} AppliedKeys(txs: seq<Tx>, keep: seq<bool>, n: nat, base: Balances, range: Account -> bool, a: Account)
    requires n <= |txs| == |keep|
    requires a in Applied(txs, keep, n, base, range)
    ensures range(a) && exists i :: 0 <= i < n && keep[i] && a in Accounts(txs[i])
  {
    hide Run;
    if a in Applied(txs, keep, n - 1, base, range) {
      AppliedKeys(txs, keep, n - 1, base, range, a);
    } else {
      var view := Ranged(Serial(txs, All(|txs|), n - 1, base, range), range);
      RunReadable(txs[n - 1], view);
      assert keep[n - 1] && a in Accounts(txs[n - 1]) && view.Read(a).Some?;
    }
  }

  // ----- the dependency filter of PreExecutionI -----

  /** The last of the first n transactions that touches a, or -1. */
  function LastTouch(txs: seq<Tx>, n: nat, a: Account): (j: int)
    requires n <= |txs|
    ensures -1 <= j < n
    ensures j >= 0 ==> a in Accounts(txs[j])
    ensures forall k :: j < k < n ==> a !in Accounts(txs[k])
  {
    if n == 0 then -1 else if a in Accounts(txs[n - 1]) then n - 1 else LastTouch(txs, n - 1, a)
  }

  /**
   * Whether transaction i passes: each account was last touched in this block by a passing
   * transaction, or not touched here at all nor in an earlier block.
   */
  predicate FilterBit(txs: seq<Tx>, bits: seq<bool>, i: nat, prev: set<Account>)
    requires |bits| == i < |txs|
  {
    forall a :: a in Accounts(txs[i]) ==> if LastTouch(txs, i, a) >= 0 then bits[LastTouch(txs, i, a)] else a !in prev
  }

  /** The filter's vote on the first n transactions of a block. */
  function FilterBits(txs: seq<Tx>, n: nat, prev: set<Account>): (bits: seq<bool>)
    requires n <= |txs|
    ensures |bits| == n
  {
    if n == 0 then [] else
    var bits := FilterBits(txs, n - 1, prev);
    bits + [FilterBit(txs, bits, n - 1, prev)]
  }

  function Vote(txs: seq<Tx>, prev: set<Account>): (bits: seq<bool>)
    ensures |bits| == |txs|
  {
    FilterBits(txs, |txs|, prev)
  }

  lemma {:induction false} FilterPrefix(txs: seq<Tx>, n: nat, m: nat, prev: set<Account>)
    requires m <= n <= |txs|
    ensures FilterBits(txs, n, prev)[..m] == FilterBits(txs, m, prev)
  {
    if m < n {
      FilterPrefix(txs, n - 1, m, prev);
      assert FilterBits(txs, n, prev)[..m] == FilterBits(txs, n - 1, prev)[..m];
    }
  }

  lemma {:induction false} VoteAt(txs: seq<Tx>, i: nat, prev: set<Account>)
    requires i < |txs|
    ensures Vote(txs, prev)[i] == FilterBit(txs, Vote(txs, prev)[..i], i, prev)
  {
    FilterPrefix(txs, |txs|, i, prev);
    FilterPrefix(txs, |txs|, i + 1, prev);
    assert Vote(txs, prev)[..i + 1][i] == Vote(txs, prev)[i];
  }

  /** Votes that keep dependencies and stay off the accounts of earlier blocks. */
  ghost predicate Admissible(txs: seq<Tx>, keep: seq<bool>, prev: set<Account>)
    requires |txs| == |keep|
  {
    Closed(txs, keep) && forall i :: 0 <= i < |txs| && keep[i] ==> Accounts(txs[i]) !! prev
  }

  lemma {:induction false} VoteChain(txs: seq<Tx>, i: nat, prev: set<Account>, a: Account)
    requires i < |txs| && Vote(txs, prev)[i] && a in Accounts(txs[i])
    ensures a !in prev
    ensures forall j :: 0 <= j < i && a in Accounts(txs[j]) ==> Vote(txs, prev)[j]
  {
    VoteAt(txs, i, prev);
    var l := LastTouch(txs, i, a);
    if l >= 0 {
      assert Vote(txs, prev)[..i][l] == Vote(txs, prev)[l];
      VoteChain(txs, l, prev, a);
    }
  }

  /** The filter's vote is closed and disjoint from the earlier blocks. */
  lemma {:induction false} VoteIsAdmissible(txs: seq<Tx>, prev: set<Account>)
    ensures Admissible(txs, Vote(txs, prev), prev)
  {
    var v := Vote(txs, prev);
    forall i, j | 0 <= j < i < |txs| && v[i] && Conflict(txs[i], txs[j])
      ensures v[j]
    {
      var a :| a in Accounts(txs[i]) * Accounts(txs[j]);
      VoteChain(txs, i, prev, a);
    }
    forall i | 0 <= i < |txs| && v[i]
      ensures Accounts(txs[i]) !! prev
    {
      forall a | a in Accounts(txs[i])
        ensures a !in prev
      {
        VoteChain(txs, i, prev, a);
      }
    }
  }

  /** It is the largest such vote: the filter drops nothing it could have kept. */
  lemma {:induction false} VoteIsLargest(txs: seq<Tx>, prev: set<Account>, keep: seq<bool>, i: nat)
    requires |txs| == |keep| && Admissible(txs, keep, prev)
    requires i < |txs| && keep[i]
    ensures Vote(txs, prev)[i]
  {
    VoteAt(txs, i, prev);
    forall a | a in Accounts(txs[i])
      ensures if LastTouch(txs, i, a) >= 0 then Vote(txs, prev)[..i][LastTouch(txs, i, a)] else a !in prev
    {
      var l := LastTouch(txs, i, a);
      if l >= 0 {
        assert a in Accounts(txs[i]) * Accounts(txs[l]);
        VoteIsLargest(txs, prev, keep, l);
      }
    }
  }

  /** The dependency map of the filter after n transactions. */
  function DepMap(txs: seq<Tx>, n: nat): map<Account, int>
    requires n <= |txs|
  {
    map a | a in Touched(txs, n) :: LastTouch(txs, n, a)
  }

  /** Recording transaction n's writes keeps the map the last toucher of each account. */
  lemma {:induction false} DepMapNext(txs: seq<Tx>, n: nat)
    requires n < |txs|
    ensures DepMap(txs, n) + (map a | a in Accounts(txs[n]) :: n) == DepMap(txs, n + 1)
  {
    hide Accounts;
    assert Touched(txs, n + 1) == Touched(txs, n) + Accounts(txs[n]);
    forall a
      ensures LastTouch(txs, n + 1, a) == if a in Accounts(txs[n]) then n else LastTouch(txs, n, a)
    {
    }
  }

  /** Reading the dependency map decides the filter's bit. */
  lemma {:induction false} FilterBitByMap(txs: seq<Tx>, bits: seq<bool>, i: nat, prev: set<Account>)
    requires |bits| == i < |txs|
    ensures FilterBit(txs, bits, i, prev) <==>
            forall a :: a in Accounts(txs[i]) ==>
              if a in DepMap(txs, i) then 0 <= DepMap(txs, i)[a] < i && bits[DepMap(txs, i)[a]] else a !in prev
  {
    hide Accounts;
  }

  // ----- the freshness phase of PreExecutionI -----

  datatype Phase = Phase(bits: seq<bool>, state: Balances)

  /** The shipped values inside the shard's range are the ones its own state holds. */
  predicate Fresh(data: Balances, state: Balances, range: Account -> bool) {
    forall k :: k in data && range(k) ==> data[k] == Lookup(state, k)
  }

  /** Re-checks transaction i against its shipped data and replays it if it passes. */
  function RecheckOne(p: Phase, i: nat, tx: Tx, d: ReadData, range: Account -> bool): (q: Phase)
    requires i < |p.bits|
    ensures q.bits == p.bits || q.bits == p.bits[i := false]
  {
    if !p.bits[i] then p else
    match d
    case Garbled => p.(bits := p.bits[i := false])
    case ReadData(data, ok) =>
      if !ok then p
      else if !Fresh(data, p.state, range) then p.(bits := p.bits[i := false])
      else match Run(tx, Shipped(data))
      case Err(_) => p.(bits := p.bits[i := false])
      case Ok(w) => p.(state := p.state + w)
  }

  /** The freshness phase over the first n transactions. */
  function Recheck(txs: seq<Tx>, datas: seq<ReadData>, bits: seq<bool>, n: nat, base: Balances,
                   range: Account -> bool): (p: Phase)
    requires n <= |txs| == |datas| == |bits|
    ensures |p.bits| == |bits|
    ensures forall i :: 0 <= i < |bits| && p.bits[i] ==> bits[i]
    ensures forall i :: n <= i < |bits| ==> p.bits[i] == bits[i]
  {
    if n == 0 then Phase(bits, base)
    else RecheckOne(Recheck(txs, datas, bits, n - 1, base, range), n - 1, txs[n - 1], datas[n - 1], range)
  }

  function Union(blocks: seq<Block>, b: nat): (s: set<Account>)
    requires b <= |blocks|
  {
    if b == 0 then {} else Union(blocks, b - 1) + Touched(blocks[b - 1].txs, |blocks[b - 1].txs|)
  }

  function Touched(txs: seq<Tx>, n: nat): (s: set<Account>)
    requires n <= |txs|
    ensures forall a :: a in s <==> LastTouch(txs, n, a) >= 0
  {
    if n == 0 then {} else Touched(txs, n - 1) + Accounts(txs[n - 1])
  }

  /** The I-shard's vote on block b of its list. */
  function FinalVote(blocks: seq<Block>, b: nat, base: Balances, range: Account -> bool): (bits: seq<bool>)
    requires b < |blocks| && blocks[b].WellFormed()
    ensures |bits| == |blocks[b].txs|
  {
    var k := blocks[b];
    Recheck(k.txs, k.datas, Vote(k.txs, Union(blocks, b)), |k.txs|, base, range).bits
  }

  /** The transaction passes the freshness phase at a given state. */
  predicate Passes(tx: Tx, d: ReadData, state: Balances, range: Account -> bool) {
    d.ReadData? && (d.ok ==> Fresh(d.data, state, range) && Run(tx, Shipped(d.data)).Ok?)
  }

  /** The state after replaying every voted transaction among the first n from shipped data. */
  function Replayed(txs: seq<Tx>, datas: seq<ReadData>, bits: seq<bool>, n: nat, base: Balances): Balances
    requires n <= |txs| == |datas| == |bits|
  {
    if n == 0 then base else
    var s := Replayed(txs, datas, bits, n - 1, base);
    if bits[n - 1] && datas[n - 1].ReadData? && datas[n - 1].ok && Run(txs[n - 1], Shipped(datas[n - 1].data)).Ok?
    then s + Run(txs[n - 1], Shipped(datas[n - 1].data)).value else s
  }

  /** Every voted transaction among the first n passes at the state its voted predecessors leave. */
  ghost predicate AllPass(txs: seq<Tx>, datas: seq<ReadData>, bits: seq<bool>, n: nat, base: Balances, range: Account -> bool)
    requires n <= |txs| == |datas| == |bits|
  {
    forall i :: 0 <= i < n && bits[i] ==> Passes(txs[i], datas[i], Replayed(txs, datas, bits, i, base), range)
  }

  /** The freshness phase lowers no bit exactly when every voted transaction passes at its place. */
  lemma {:induction false} RecheckLowersNothingIff(txs: seq<Tx>, datas: seq<ReadData>, bits: seq<bool>, n: nat,
                                                   base: Balances, range: Account -> bool)
    requires n <= |txs| == |datas| == |bits|
    ensures Recheck(txs, datas, bits, n, base, range).bits == bits <==> AllPass(txs, datas, bits, n, base, range)
    ensures Recheck(txs, datas, bits, n, base, range).bits == bits ==>
              Recheck(txs, datas, bits, n, base, range).state == Replayed(txs, datas, bits, n, base)
  {
    hide Recheck;
    hide Replayed;
    hide Passes;
    if n == 0 {
      RecheckNone(txs, datas, bits, base, range);
    } else {
      RecheckLowersNothingIff(txs, datas, bits, n - 1, base, range);
      if Recheck(txs, datas, bits, n - 1, base, range).bits == bits {
        RecheckStep(txs, datas, bits, n, base, range);
      } else {
        LoweredStaysLowered(txs, datas, bits, n, base, range);
      }
    }
  }

  lemma {:induction false} RecheckNone(txs: seq<Tx>, datas: seq<ReadData>, bits: seq<bool>, base: Balances, range: Account -> bool)
    requires |txs| == |datas| == |bits|
    ensures Recheck(txs, datas, bits, 0, base, range) == Phase(bits, base)
    ensures Replayed(txs, datas, bits, 0, base) == base
  {
  }

  lemma {:induction false} RecheckStep(txs: seq<Tx>, datas: seq<ReadData>, bits: seq<bool>, n: nat, base: Balances,
                                       range: Account -> bool)
    requires 0 < n <= |txs| == |datas| == |bits|
    requires Recheck(txs, datas, bits, n - 1, base, range) == Phase(bits, Replayed(txs, datas, bits, n - 1, base))
    ensures Recheck(txs, datas, bits, n, base, range).bits == bits <==>
            (bits[n - 1] ==> Passes(txs[n - 1], datas[n - 1], Replayed(txs, datas, bits, n - 1, base), range))
    ensures Recheck(txs, datas, bits, n, base, range).bits == bits ==>
              Recheck(txs, datas, bits, n, base, range).state == Replayed(txs, datas, bits, n, base)
  {
    hide Run;
    hide Fresh;
  }

  lemma {:induction false} LoweredStaysLowered(txs: seq<Tx>, datas: seq<ReadData>, bits: seq<bool>, n: nat, base: Balances,
                                               range: Account -> bool)
    requires 0 < n <= |txs| == |datas| == |bits|
    requires Recheck(txs, datas, bits, n - 1, base, range).bits != bits
    ensures Recheck(txs, datas, bits, n, base, range).bits != bits
  {
    hide RecheckOne;
    var p, q := Recheck(txs, datas, bits, n - 1, base, range), Recheck(txs, datas, bits, n, base, range);
    var i :| 0 <= i < |bits| && p.bits[i] != bits[i];
    assert q.bits == p.bits || q.bits == p.bits[n - 1 := false];
    assert q.bits[i] != bits[i];
  }

  /** The I-shard holds, inside its range, what the C-shard's base holds. */
  ghost predicate Agree(base: Balances, other: Balances, range: Account -> bool) {
    forall a :: range(a) ==> Lookup(base, a) == Lookup(other, a)
  }

  /** Replaying kept transactions from the C-shard's read data follows the C-shard's own run on clean accounts. */
  lemma {:induction false} ReplayedFollows(txs: seq<Tx>, datas: seq<ReadData>, keep: seq<bool>, n: nat, base: Balances,
                                           cbase: Balances, crange: Account -> bool, a: Account)
    requires n <= |txs| == |datas| == |keep|
    requires forall i :: 0 <= i < |txs| ==> datas[i] == Recorded(txs, i, cbase, crange)
    requires Clean(txs, keep, n, a) && Lookup(base, a) == Lookup(cbase, a)
    ensures Lookup(Replayed(txs, datas, keep, n, base), a) == Lookup(Serial(txs, All(|txs|), n, cbase, crange), a)
  {
    hide Run;
    if n > 0 {
      ReplayedFollows(txs, datas, keep, n - 1, base, cbase, crange, a);
      RecordedReplays(txs, n - 1, cbase, crange);
    }
  }

  /** Shipped data that was recorded replays to the recorded writes and cannot fail. */
  lemma {:induction false} RecordedReplays(txs: seq<Tx>, i: nat, base: Balances, range: Account -> bool)
    requires i < |txs|
    ensures Recorded(txs, i, base, range).ReadData?
    ensures Recorded(txs, i, base, range).ok == Full(txs, i, base, range).Ok?
    ensures Recorded(txs, i, base, range).ok ==>
              Run(txs[i], Shipped(Recorded(txs, i, base, range).data)) == Full(txs, i, base, range)
              && Recorded(txs, i, base, range).data.Keys == Accounts(txs[i])
  {
    var view := Ranged(Serial(txs, All(|txs|), i, base, range), range);
    if Run(txs[i], view).Ok? {
      ReplayFromReads(txs[i], view);
    }
  }

  /** With honest data on an agreeing base, the freshness phase lowers no bit of a closed vote. */
  lemma {:induction false} FreshDataLowersNothing(txs: seq<Tx>, datas: seq<ReadData>, keep: seq<bool>, base: Balances, range: Account -> bool,
                               cbase: Balances, crange: Account -> bool)
    requires |txs| == |datas| == |keep| && Closed(txs, keep)
    requires forall i :: 0 <= i < |txs| ==> datas[i] == Recorded(txs, i, cbase, crange)
    requires Agree(base, cbase, range)
    ensures Recheck(txs, datas, keep, |txs|, base, range).bits == keep
  {
    hide Run;
    forall i | 0 <= i < |txs| && keep[i]
      ensures Passes(txs[i], datas[i], Replayed(txs, datas, keep, i, base), range)
    {
      RecordedReplays(txs, i, cbase, crange);
      if datas[i].ok {
        var view := Ranged(Serial(txs, All(|txs|), i, cbase, crange), crange);
        RunReadable(txs[i], view);
        forall k | k in datas[i].data && range(k)
          ensures datas[i].data[k] == Lookup(Replayed(txs, datas, keep, i, base), k)
        {
          ClosedMakesClean(txs, keep, i, k);
          ReplayedFollows(txs, datas, keep, i, base, cbase, crange, k);
        }
      }
    }
    RecheckLowersNothingIff(txs, datas, keep, |txs|, base, range);
  }

  /** Under the same conditions an I-shard's final vote on a block is the filter's vote, hence closed. */
  lemma {:induction false} FinalVoteIsFilterVote(blocks: seq<Block>, b: nat, base: Balances, range: Account -> bool, cbase: Balances,
                              crange: Account -> bool)
    requires b < |blocks| && blocks[b].WellFormed()
    requires forall i :: 0 <= i < |blocks[b].txs| ==> blocks[b].datas[i] == Recorded(blocks[b].txs, i, cbase, crange)
    requires Agree(base, cbase, range)
    ensures FinalVote(blocks, b, base, range) == Vote(blocks[b].txs, Union(blocks, b))
    ensures Closed(blocks[b].txs, FinalVote(blocks, b, base, range))
  {
    var k := blocks[b];
    VoteIsAdmissible(k.txs, Union(blocks, b));
    FreshDataLowersNothing(k.txs, k.datas, Vote(k.txs, Union(blocks, b)), base, range, cbase, crange);
  }

  /** Transaction i passes the freshness phase at the state it meets there. */
  predicate PassesAt(txs: seq<Tx>, datas: seq<ReadData>, bits: seq<bool>, i: nat, base: Balances, range: Account -> bool)
    requires i < |txs| == |datas| == |bits|
  {
    Passes(txs[i], datas[i], Recheck(txs, datas, bits, i, base, range).state, range)
  }

  /** A bit of the final vote: voted, and passing at its place. */
  lemma {:induction false} RecheckAt(txs: seq<Tx>, datas: seq<ReadData>, bits: seq<bool>, n: nat, i: nat, base: Balances, range: Account -> bool)
    requires i < n <= |txs| == |datas| == |bits|
    ensures Recheck(txs, datas, bits, n, base, range).bits[i] <==> bits[i] && PassesAt(txs, datas, bits, i, base, range)
  {
    hide Run;
    hide Fresh;
    if i < n - 1 {
      RecheckAt(txs, datas, bits, n - 1, i, base, range);
    }
  }

  /** Voted transactions of a block do not pass over the heads of earlier ones they conflict with. */
  ghost predicate NoOvertaking(txs: seq<Tx>, datas: seq<ReadData>, bits: seq<bool>, base: Balances, range: Account -> bool)
    requires |txs| == |datas| == |bits|
  {
    forall i, j :: 0 <= j < i < |txs| && bits[i] && bits[j] && Conflict(txs[i], txs[j]) ==>
      (PassesAt(txs, datas, bits, i, base, range) ==> PassesAt(txs, datas, bits, j, base, range))
  }

  /**
   * Whatever is shipped, the freshness phase keeps a closed vote closed exactly if no voted
   * transaction that passes at its place conflicts with an earlier one that does not.
   */
  lemma {:induction false} RecheckClosedIff(txs: seq<Tx>, datas: seq<ReadData>, bits: seq<bool>, base: Balances, range: Account -> bool)
    requires |txs| == |datas| == |bits| && Closed(txs, bits)
    ensures Closed(txs, Recheck(txs, datas, bits, |txs|, base, range).bits) <==> NoOvertaking(txs, datas, bits, base, range)
  {
    var final := Recheck(txs, datas, bits, |txs|, base, range).bits;
    forall i | 0 <= i < |txs|
      ensures final[i] <==> bits[i] && PassesAt(txs, datas, bits, i, base, range)
    {
      RecheckAt(txs, datas, bits, |txs|, i, base, range);
    }
    hide PassesAt;
    hide Recheck;
    hide Conflict;
  }

  /** A shard's freshness phase keeps a vote closed whatever is shipped to it. */
  ghost predicate AlwaysClosed(txs: seq<Tx>, bits: seq<bool>, base: Balances, range: Account -> bool)
    requires |txs| == |bits|
  {
    forall datas: seq<ReadData> :: |datas| == |txs| ==> Closed(txs, Recheck(txs, datas, bits, |txs|, base, range).bits)
  }

  /** Read data that is garbled for transaction j and says "failed" for the others. */
  function GarbledAt(n: nat, j: nat): (d: seq<ReadData>)
    ensures |d| == n
  {
    seq(n, i => if i == j then Garbled else ReadData(map[], false))
  }

  lemma {:induction false} GarblingOpens(txs: seq<Tx>, bits: seq<bool>, i: nat, j: nat, base: Balances, range: Account -> bool)
    requires |txs| == |bits| && Closed(txs, bits)
    requires j < i < |txs| && bits[i] && bits[j] && Conflict(txs[i], txs[j])
    ensures !Closed(txs, Recheck(txs, GarbledAt(|txs|, j), bits, |txs|, base, range).bits)
  {
    var datas := GarbledAt(|txs|, j);
    RecheckClosedIff(txs, datas, bits, base, range);
    hide Recheck;
    hide Run;
    assert PassesAt(txs, datas, bits, i, base, range) && !PassesAt(txs, datas, bits, j, base, range);
    hide PassesAt;
  }

  /** That is so, for any state and range of the shard, exactly if no two voted transactions of the block conflict at all. */
  lemma {:induction false} AlwaysClosedIff(txs: seq<Tx>, bits: seq<bool>, base: Balances, range: Account -> bool)
    requires |txs| == |bits| && Closed(txs, bits)
    ensures AlwaysClosed(txs, bits, base, range) <==> forall i, j :: 0 <= j < i < |txs| && bits[i] && bits[j] ==> !Conflict(txs[i], txs[j])
  {
    hide Recheck;
    hide Conflict;
    hide PassesAt;
    if i, j :| 0 <= j < i < |txs| && bits[i] && bits[j] && Conflict(txs[i], txs[j]) {
      GarblingOpens(txs, bits, i, j, base, range);
    } else {
      forall datas: seq<ReadData> | |datas| == |txs|
        ensures Closed(txs, Recheck(txs, datas, bits, |txs|, base, range).bits)
      {
        RecheckClosedIff(txs, datas, bits, base, range);
      }
    }
  }

  const PAYMENT := Transfer(TransferTx(["a"], [5], ["b"], [5]))
  const SPENDING := Transfer(TransferTx(["b"], [5], ["c"], [5]))
  const STALE_DATA: Balances := map["a" := 7, "b" := INIT_BALANCE]
  const SPENDING_DATA: Balances := map["b" := INIT_BALANCE + 5, "c" := INIT_BALANCE]

  /** Two transfers; the first ships a value for account "a" that no store holds. */
  const STALE_BLOCK := Block("h", "c1", [PAYMENT, SPENDING], [ReadData(STALE_DATA, true), ReadData(SPENDING_DATA, true)], [])

  predicate OnlyA(a: Account) {
    a == "a"
  }

  lemma {:induction false} StaleBlockVote()
    ensures Vote(STALE_BLOCK.txs, {}) == [true, true]
  {
    assert FilterBits(STALE_BLOCK.txs, 0, {}) == [];
    assert FilterBit(STALE_BLOCK.txs, [], 0, {});
    assert FilterBits(STALE_BLOCK.txs, 1, {}) == [true];
    assert FilterBit(STALE_BLOCK.txs, [true], 1, {});
  }

  lemma {:induction false} StaleBlockRecheck()
    ensures Recheck(STALE_BLOCK.txs, STALE_BLOCK.datas, [true, true], 2, map[], OnlyA).bits == [false, true]
  {
    var k := STALE_BLOCK;
    SmallTransfer("b", "c", 5, Shipped(SPENDING_DATA));
    hide Run;
    assert Recheck(k.txs, k.datas, [true, true], 0, map[], OnlyA) == Phase([true, true], map[]);
    assert !Fresh(STALE_DATA, map[], OnlyA) by {
      assert "a" in STALE_DATA && OnlyA("a");
    }
    assert Recheck(k.txs, k.datas, [true, true], 1, map[], OnlyA) == Phase([false, true], map[]);
    assert Fresh(SPENDING_DATA, map[], OnlyA);
  }

  /**
   * The agreement is needed. A shard that owns only account "a" lowers a transfer whose
   * shipped value for "a" is stale, but keeps the next one, which spends what the lowered
   * transfer paid out: the final vote is not closed.
   */
  lemma {:induction false} StaleDataBreaksClosure()
    ensures Closed(STALE_BLOCK.txs, Vote(STALE_BLOCK.txs, {}))
    ensures FinalVote([STALE_BLOCK], 0, map[], OnlyA) == [false, true]
    ensures !Closed(STALE_BLOCK.txs, FinalVote([STALE_BLOCK], 0, map[], OnlyA))
  {
    StaleBlockVote();
    StaleBlockRecheck();
    hide Recheck;
    VoteIsAdmissible(STALE_BLOCK.txs, {});
    assert Union([STALE_BLOCK], 0) == {};
    assert "b" in Accounts(PAYMENT) * Accounts(SPENDING);
    assert Conflict(STALE_BLOCK.txs[1], STALE_BLOCK.txs[0]);
  }

  lemma {:induction false} SmallTransfer(from: Account, to: Account, amount: uint32, view: View)
    requires view.Read(from).Some? && view.Read(to).Some? && view.Read(from).value >= amount
    ensures Run(Transfer(TransferTx([from], [amount], [to], [amount])), view).Ok?
  {
    var t := TransferTx([from], [amount], [to], [amount]);
    assert Validate(t).Ok?;
    assert Debits(t.from, t.fromMoney, 0, view) == Ok([]);
    assert Debits(t.from, t.fromMoney, 1, view).Ok?;
    assert Credits(t.to, t.toMoney, 0, view) == Ok([]);
    assert Credits(t.to, t.toMoney, 1, view).Ok?;
  }

  // ----- several blocks -----

  lemma {:induction false} UnionCovers(blocks: seq<Block>, b: nat, c: nat, j: nat)
    requires c < b <= |blocks| && j < |blocks[c].txs|
    ensures Accounts(blocks[c].txs[j]) <= Union(blocks, b)
  {
    hide Accounts;
    if c < b - 1 {
      UnionCovers(blocks, b - 1, c, j);
    }
  }

  /** A transaction voted in one block shares no account with any transaction of an earlier block. */
  lemma {:induction false} FinalVoteIsDisjoint(blocks: seq<Block>, b: nat, base: Balances, range: Account -> bool, i: nat, c: nat, j: nat)
    requires b < |blocks| && blocks[b].WellFormed() && i < |blocks[b].txs|
    requires FinalVote(blocks, b, base, range)[i]
    requires c < b && j < |blocks[c].txs|
    ensures !Conflict(blocks[b].txs[i], blocks[c].txs[j])
  {
    VoteIsAdmissible(blocks[b].txs, Union(blocks, b));
    UnionCovers(blocks, b, c, j);
    assert Vote(blocks[b].txs, Union(blocks, b))[i];
  }

  /** Transactions of two blocks conflict on an account that lies in both blocks' ranges. */
  ghost predicate Clash(x: Tx, xr: Account -> bool, y: Tx, yr: Account -> bool) {
    exists a :: a in Accounts(x) * Accounts(y) && xr(a) && yr(a)
  }

  /** Kept transactions of a block clash with no transaction of an earlier block. */
  ghost predicate Disjoint(blocks: seq<Block>, keeps: seq<seq<bool>>, ranges: seq<Account -> bool>)
    requires |blocks| == |keeps| == |ranges| && forall b :: 0 <= b < |blocks| ==> |keeps[b]| == |blocks[b].txs|
  {
    forall b, c, i, j :: 0 <= c < b < |blocks| && 0 <= i < |blocks[b].txs| && 0 <= j < |blocks[c].txs| && keeps[b][i] ==>
      !Clash(blocks[b].txs[i], ranges[b], blocks[c].txs[j], ranges[c])
  }

  /** The base with the overlays of the first n entries of an order written over it. */
  function WriteInOrder(base: Balances, overlays: seq<Balances>, order: seq<nat>, n: nat): Balances
    requires n <= |order| && forall k :: 0 <= k < |order| ==> order[k] < |overlays|
  {
    if n == 0 then base else WriteInOrder(base, overlays, order, n - 1) + overlays[order[n - 1]]
  }

  ghost predicate PairwiseDisjoint(overlays: seq<Balances>) {
    forall b, c :: 0 <= c < b < |overlays| ==> overlays[b].Keys !! overlays[c].Keys
  }

  lemma {:induction false} WrittenValue(base: Balances, overlays: seq<Balances>, order: seq<nat>, n: nat, b: nat, a: Account)
    requires n <= |order| && forall k :: 0 <= k < |order| ==> order[k] < |overlays|
    requires PairwiseDisjoint(overlays) && b < |overlays| && a in overlays[b]
    ensures b in order[..n] ==> a in WriteInOrder(base, overlays, order, n)
                                && WriteInOrder(base, overlays, order, n)[a] == overlays[b][a]
  {
    if n > 0 {
      WrittenValue(base, overlays, order, n - 1, b, a);
      assert order[..n] == order[..n - 1] + [order[n - 1]];
      var l := order[n - 1];
      if l != b {
        assert a !in overlays[l] by { assert if l < b then overlays[b].Keys !! overlays[l].Keys else overlays[l].Keys !! overlays[b].Keys; }
      }
    }
  }

  lemma {:induction false} UnwrittenValue(base: Balances, overlays: seq<Balances>, order: seq<nat>, n: nat, a: Account)
    requires n <= |order| && forall k :: 0 <= k < |order| ==> order[k] < |overlays|
    requires forall b :: 0 <= b < |overlays| ==> a !in overlays[b]
    ensures a in WriteInOrder(base, overlays, order, n) <==> a in base
    ensures a in base ==> WriteInOrder(base, overlays, order, n)[a] == base[a]
  {
    if n > 0 {
      UnwrittenValue(base, overlays, order, n - 1, a);
    }
  }

  /** An order in which every overlay is written. */
  ghost predicate Covers(order: seq<nat>, count: nat) {
    (forall k :: 0 <= k < |order| ==> order[k] < count) && (forall b :: 0 <= b < count ==> b in order)
  }

  /** Disjoint overlays may be written in any order. */
  lemma {:induction false} WriteOrderIrrelevant(base: Balances, overlays: seq<Balances>, p: seq<nat>, q: seq<nat>)
    requires PairwiseDisjoint(overlays) && Covers(p, |overlays|) && Covers(q, |overlays|)
    ensures WriteInOrder(base, overlays, p, |p|) == WriteInOrder(base, overlays, q, |q|)
  {
    var x, y := WriteInOrder(base, overlays, p, |p|), WriteInOrder(base, overlays, q, |q|);
    assert p[..|p|] == p && q[..|q|] == q;
    forall a
      ensures a in x <==> a in y
      ensures a in x ==> x[a] == y[a]
    {
      if b :| 0 <= b < |overlays| && a in overlays[b] {
        WrittenValue(base, overlays, p, |p|, b, a);
        WrittenValue(base, overlays, q, |q|, b, a);
      } else {
        UnwrittenValue(base, overlays, p, |p|, a);
        UnwrittenValue(base, overlays, q, |q|, a);
      }
    }
  }

  /** Block after block, the kept transactions run one by one from a global state. */
  function SerialBlocks(blocks: seq<Block>, keeps: seq<seq<bool>>, ranges: seq<Account -> bool>, b: nat, global: Balances): Balances
    requires b <= |blocks| == |keeps| == |ranges|
    requires forall k :: 0 <= k < |blocks| ==> |keeps[k]| == |blocks[k].txs|
  {
    if b == 0 then global else
    Serial(blocks[b - 1].txs, keeps[b - 1], |blocks[b - 1].txs|, SerialBlocks(blocks, keeps, ranges, b - 1, global), ranges[b - 1])
  }

  /** The overlay of each block, computed in parallel from the same global state. */
  function Overlays(blocks: seq<Block>, keeps: seq<seq<bool>>, ranges: seq<Account -> bool>, global: Balances): (o: seq<Balances>)
    requires |blocks| == |keeps| == |ranges|
    requires forall k :: 0 <= k < |blocks| ==> |keeps[k]| == |blocks[k].txs|
    ensures |o| == |blocks|
  {
    seq(|blocks|, b requires 0 <= b < |blocks| => Applied(blocks[b].txs, keeps[b], |blocks[b].txs|, global, ranges[b]))
  }

  function InOrder(n: nat): (s: seq<nat>)
    ensures |s| == n && forall i :: 0 <= i < n ==> s[i] == i
  {
    seq(n, i => i)
  }

  lemma {:induction false} OverlaysDisjoint(blocks: seq<Block>, keeps: seq<seq<bool>>, ranges: seq<Account -> bool>, global: Balances)
    requires |blocks| == |keeps| == |ranges|
    requires forall k :: 0 <= k < |blocks| ==> |keeps[k]| == |blocks[k].txs|
    requires Disjoint(blocks, keeps, ranges)
    ensures PairwiseDisjoint(Overlays(blocks, keeps, ranges, global))
  {
    var o := Overlays(blocks, keeps, ranges, global);
    forall b, c | 0 <= c < b < |o|
      ensures o[b].Keys !! o[c].Keys
    {
      forall a | a in o[b]
        ensures a !in o[c]
      {
        OverlayKeysApart(blocks, keeps, ranges, global, b, c, a);
      }
    }
  }

  lemma {:induction false} OverlayKeysApart(blocks: seq<Block>, keeps: seq<seq<bool>>, ranges: seq<Account -> bool>, global: Balances,
                                            b: nat, c: nat, a: Account)
    requires |blocks| == |keeps| == |ranges|
    requires forall k :: 0 <= k < |blocks| ==> |keeps[k]| == |blocks[k].txs|
    requires Disjoint(blocks, keeps, ranges) && c < b < |blocks|
    requires a in Overlays(blocks, keeps, ranges, global)[b]
    ensures a !in Overlays(blocks, keeps, ranges, global)[c]
  {
    AppliedKeys(blocks[b].txs, keeps[b], |blocks[b].txs|, global, ranges[b], a);
    var i :| 0 <= i < |blocks[b].txs| && keeps[b][i] && a in Accounts(blocks[b].txs[i]);
    if a in Applied(blocks[c].txs, keeps[c], |blocks[c].txs|, global, ranges[c]) {
      AppliedKeys(blocks[c].txs, keeps[c], |blocks[c].txs|, global, ranges[c], a);
    }
  }

  /** No transaction of the first b blocks touches account a inside its block's range. */
  ghost predicate Untouched(blocks: seq<Block>, ranges: seq<Account -> bool>, b: nat, a: Account)
    requires b <= |blocks| == |ranges|
  {
    forall c, j :: 0 <= c < b && 0 <= j < |blocks[c].txs| && ranges[c](a) ==> a !in Accounts(blocks[c].txs[j])
  }

  lemma {:induction false} SerialUntouched(txs: seq<Tx>, keep: seq<bool>, n: nat, base: Balances, range: Account -> bool, a: Account)
    requires n <= |txs| == |keep|
    requires forall j :: 0 <= j < |txs| ==> a !in Accounts(txs[j])
    ensures Lookup(Serial(txs, keep, n, base, range), a) == Lookup(base, a)
  {
    hide Run;
    hide Accounts;
    if n > 0 {
      SerialUntouched(txs, keep, n - 1, base, range, a);
      assert Run(txs[n - 1], Ranged(Serial(txs, keep, n - 1, base, range), range)).Ok? ==>
               a !in Run(txs[n - 1], Ranged(Serial(txs, keep, n - 1, base, range), range)).value;
    }
  }

  lemma {:induction false} UntouchedBalance(blocks: seq<Block>, keeps: seq<seq<bool>>, ranges: seq<Account -> bool>, b: nat,
                                            global: Balances, a: Account)
    requires b <= |blocks| == |keeps| == |ranges|
    requires forall k :: 0 <= k < |blocks| ==> |keeps[k]| == |blocks[k].txs|
    requires Untouched(blocks, ranges, b, a)
    ensures Lookup(SerialBlocks(blocks, keeps, ranges, b, global), a) == Lookup(global, a)
  {
    hide Serial;
    if b > 0 {
      UntouchedBalance(blocks, keeps, ranges, b - 1, global, a);
      var s := SerialBlocks(blocks, keeps, ranges, b - 1, global);
      if ranges[b - 1](a) {
        SerialUntouched(blocks[b - 1].txs, keeps[b - 1], |blocks[b - 1].txs|, s, ranges[b - 1], a);
      } else {
        SerialOutside(blocks[b - 1].txs, keeps[b - 1], |blocks[b - 1].txs|, s, ranges[b - 1], a);
      }
    }
  }

  /** The accounts of a kept transaction inside its range were not touched by the blocks before its own. */
  lemma {:induction false} KeptUntouched(blocks: seq<Block>, keeps: seq<seq<bool>>, ranges: seq<Account -> bool>, b: nat, i: nat, a: Account)
    requires |blocks| == |keeps| == |ranges|
    requires forall k :: 0 <= k < |blocks| ==> |keeps[k]| == |blocks[k].txs|
    requires Disjoint(blocks, keeps, ranges)
    requires b < |blocks| && i < |blocks[b].txs| && keeps[b][i] && a in Accounts(blocks[b].txs[i]) && ranges[b](a)
    ensures Untouched(blocks, ranges, b, a)
  {
    forall c, j | 0 <= c < b && 0 <= j < |blocks[c].txs| && ranges[c](a)
      ensures a !in Accounts(blocks[c].txs[j])
    {
      assert !Clash(blocks[b].txs[i], ranges[b], blocks[c].txs[j], ranges[c]);
    }
  }

  /** So the blocks before it left a kept transaction's balances as they were. */
  lemma {:induction false} KeptBalances(blocks: seq<Block>, keeps: seq<seq<bool>>, ranges: seq<Account -> bool>, b: nat, global: Balances)
    requires b < |blocks| == |keeps| == |ranges|
    requires forall k :: 0 <= k < |blocks| ==> |keeps[k]| == |blocks[k].txs|
    requires Disjoint(blocks, keeps, ranges)
    ensures AgreeOnKept(blocks[b].txs, keeps[b], global, SerialBlocks(blocks, keeps, ranges, b, global), ranges[b])
  {
    hide Serial;
    hide SerialBlocks;
    hide Disjoint;
    hide Accounts;
    forall i, a | 0 <= i < |blocks[b].txs| && keeps[b][i] && a in Accounts(blocks[b].txs[i]) && ranges[b](a)
      ensures Lookup(global, a) == Lookup(SerialBlocks(blocks, keeps, ranges, b, global), a)
    {
      KeptUntouched(blocks, keeps, ranges, b, i, a);
      UntouchedBalance(blocks, keeps, ranges, b, global, a);
    }
  }

  lemma {:induction false} NextBlock(blocks: seq<Block>, keeps: seq<seq<bool>>, ranges: seq<Account -> bool>, b: nat, global: Balances)
    requires b < |blocks| == |keeps| == |ranges|
    requires forall k :: 0 <= k < |blocks| ==> |keeps[k]| == |blocks[k].txs|
    ensures var o, line := Overlays(blocks, keeps, ranges, global), InOrder(|blocks|);
            WriteInOrder(global, o, line, b + 1)
            == WriteInOrder(global, o, line, b) + Applied(blocks[b].txs, keeps[b], |blocks[b].txs|, global, ranges[b])
    ensures SerialBlocks(blocks, keeps, ranges, b + 1, global)
            == Serial(blocks[b].txs, keeps[b], |blocks[b].txs|, SerialBlocks(blocks, keeps, ranges, b, global), ranges[b])
  {
    hide Serial;
    hide Applied;
  }

  lemma {:induction false} NoBlock(blocks: seq<Block>, keeps: seq<seq<bool>>, ranges: seq<Account -> bool>, global: Balances)
    requires |blocks| == |keeps| == |ranges|
    requires forall k :: 0 <= k < |blocks| ==> |keeps[k]| == |blocks[k].txs|
    ensures WriteInOrder(global, Overlays(blocks, keeps, ranges, global), InOrder(|blocks|), 0) == SerialBlocks(blocks, keeps, ranges, 0, global)
  {
  }

  lemma {:induction false} BlocksInOrder(blocks: seq<Block>, keeps: seq<seq<bool>>, ranges: seq<Account -> bool>, b: nat, global: Balances)
    requires b <= |blocks| == |keeps| == |ranges|
    requires forall k :: 0 <= k < |blocks| ==> |keeps[k]| == |blocks[k].txs| && Closed(blocks[k].txs, keeps[k])
    requires Disjoint(blocks, keeps, ranges)
    ensures WriteInOrder(global, Overlays(blocks, keeps, ranges, global), InOrder(|blocks|), b)
            == SerialBlocks(blocks, keeps, ranges, b, global)
  {
    hide *;
    if b == 0 {
      NoBlock(blocks, keeps, ranges, global);
    } else {
      BlocksInOrder(blocks, keeps, ranges, b - 1, global);
      NextBlock(blocks, keeps, ranges, b - 1, global);
      KeptBalances(blocks, keeps, ranges, b - 1, global);
      AppliedIsSerial(blocks[b - 1].txs, keeps[b - 1], |blocks[b - 1].txs|, global, SerialBlocks(blocks, keeps, ranges, b - 1, global), ranges[b - 1]);
    }
  }

  /**
   * Serializability. Blocks recorded in parallel from one global state, cut down to closed and
   * disjoint votes and written in any order, leave what the serial run of the committed
   * transfers leaves.
   */
  lemma {:induction false} ParallelIsSerial(blocks: seq<Block>, keeps: seq<seq<bool>>, ranges: seq<Account -> bool>, global: Balances, order: seq<nat>)
    requires |blocks| == |keeps| == |ranges|
    requires forall k :: 0 <= k < |blocks| ==> |keeps[k]| == |blocks[k].txs| && Closed(blocks[k].txs, keeps[k])
    requires Disjoint(blocks, keeps, ranges)
    requires Covers(order, |blocks|)
    ensures WriteInOrder(global, Overlays(blocks, keeps, ranges, global), order, |order|)
            == SerialBlocks(blocks, keeps, ranges, |blocks|, global)
  {
    var o, line := Overlays(blocks, keeps, ranges, global), InOrder(|blocks|);
    OverlaysDisjoint(blocks, keeps, ranges, global);
    forall b | 0 <= b < |blocks|
      ensures b in line
    {
      assert line[b] == b;
    }
    WriteOrderIrrelevant(global, o, order, line);
    BlocksInOrder(blocks, keeps, ranges, |blocks|, global);
  }

  // ----- what Execution writes -----

  datatype Code = CodeOK | CodeEncodingError | CodeAbort

  function ReceiptOf(d: ReadData, bit: bool): Code {
    if d.Garbled? then CodeEncodingError else if d.ok && bit then CodeOK else CodeAbort
  }

  predicate BitOf(bits: seq<bool>, i: nat) {
    i < |bits| && bits[i]
  }

  /** The overlay of a block: recorded writes where the shard has them, replay where it does not. */
  function Overlay(k: Block, bits: seq<bool>, outputs: seq<Balances>, n: nat): Balances
    requires k.WellFormed() && n <= |k.txs|
  {
    if n == 0 then map[] else
    var o := Overlay(k, bits, outputs, n - 1);
    if ReceiptOf(k.datas[n - 1], BitOf(bits, n - 1)) != CodeOK then o
    else if n - 1 < |outputs| then o + outputs[n - 1]
    else match Run(k.txs[n - 1], Shipped(k.datas[n - 1].data))
      case Ok(w) => o + w
      case Err(_) => o
  }

  /** Replaying never reaches the panic. */
  predicate NoPanic(k: Block, bits: seq<bool>, outputs: seq<Balances>)
    requires k.WellFormed()
  {
    forall i :: |outputs| <= i < |k.txs| && ReceiptOf(k.datas[i], BitOf(bits, i)) == CodeOK ==>
      Run(k.txs[i], Shipped(k.datas[i].data)).Ok?
  }

  /** The block ships what its C-shard recorded. */
  ghost predicate ShipsRecorded(k: Block, cbase: Balances, crange: Account -> bool)
  {
    k.WellFormed() && forall i :: 0 <= i < |k.txs| ==> k.datas[i] == Recorded(k.txs, i, cbase, crange)
  }

  /** No outputs, or the outputs the C-shard recorded for this block. */
  ghost predicate RecordedOutputs(k: Block, outputs: seq<Balances>, cbase: Balances, crange: Account -> bool)
  {
    outputs == [] || outputs == OutputList(k.txs, cbase, crange)
  }

  /** The fast path and the replay path build the same overlay, and the panic is unreachable. */
  lemma {:induction false} OverlayIsApplied(k: Block, bits: seq<bool>, outputs: seq<Balances>, n: nat, cbase: Balances, crange: Account -> bool)
    requires ShipsRecorded(k, cbase, crange) && RecordedOutputs(k, outputs, cbase, crange)
    requires n <= |k.txs| == |bits|
    ensures Overlay(k, bits, outputs, n) == Applied(k.txs, bits, n, cbase, crange)
    ensures NoPanic(k, bits, outputs)
  {
    hide Run;
    forall i | 0 <= i < |k.txs| && ReceiptOf(k.datas[i], BitOf(bits, i)) == CodeOK
      ensures Run(k.txs[i], Shipped(k.datas[i].data)).Ok?
    {
      RecordedReplays(k.txs, i, cbase, crange);
    }
    if n > 0 {
      OverlayIsApplied(k, bits, outputs, n - 1, cbase, crange);
      OverlayStep(k, bits, outputs, n, cbase, crange);
    }
  }

  lemma {:induction false} OverlayStep(k: Block, bits: seq<bool>, outputs: seq<Balances>, n: nat, cbase: Balances, crange: Account -> bool)
    requires ShipsRecorded(k, cbase, crange) && RecordedOutputs(k, outputs, cbase, crange)
    requires 0 < n <= |k.txs| == |bits|
    requires Overlay(k, bits, outputs, n - 1) == Applied(k.txs, bits, n - 1, cbase, crange)
    ensures Overlay(k, bits, outputs, n) == Applied(k.txs, bits, n, cbase, crange)
  {
    hide Run;
    hide Recorded;
    hide Full;
    RecordedReplays(k.txs, n - 1, cbase, crange);
    assert k.datas[n - 1] == Recorded(k.txs, n - 1, cbase, crange);
    var o := Applied(k.txs, bits, n - 1, cbase, crange);
    assert o + map[] == o;
  }

  /** A transaction's receipt is OK exactly if it is kept and succeeds in the serial run of the kept ones. */
  lemma {:induction false} ReceiptIsSerial(k: Block, keep: seq<bool>, i: nat, cbase: Balances, crange: Account -> bool, other: Balances)
    requires ShipsRecorded(k, cbase, crange) && i < |k.txs| == |keep| && Closed(k.txs, keep)
    requires AgreeOnKept(k.txs, keep, cbase, other, crange)
    ensures ReceiptOf(k.datas[i], BitOf(keep, i)) == CodeOK <==> keep[i] && Outcome(k.txs, keep, i, other, crange).Ok?
  {
    hide Run;
    RecordedReplays(k.txs, i, cbase, crange);
    if keep[i] {
      KeptOutcomeAgrees(k.txs, keep, i, cbase, other, crange);
    }
    hide Outcome;
    hide Recorded;
  }

  function Restrict(m: Balances, range: Account -> bool): Balances {
    map k | k in m && range(k) :: m[k]
  }

  function RestrictAll(overlays: seq<Balances>, range: Account -> bool): (r: seq<Balances>)
    ensures |r| == |overlays|
  {
    seq(|overlays|, b requires 0 <= b < |overlays| => Restrict(overlays[b], range))
  }

  /** Writing range-limited overlays gives, inside the range, what writing whole overlays gives. */
  lemma {:induction false} RangeOfWrites(base: Balances, global: Balances, overlays: seq<Balances>, order: seq<nat>, n: nat,
                                         range: Account -> bool, a: Account)
    requires n <= |order| && forall k :: 0 <= k < |order| ==> order[k] < |overlays|
    requires range(a) && Lookup(base, a) == Lookup(global, a)
    ensures Lookup(WriteInOrder(base, RestrictAll(overlays, range), order, n), a)
            == Lookup(WriteInOrder(global, overlays, order, n), a)
  {
    if n > 0 {
      RangeOfWrites(base, global, overlays, order, n - 1, range, a);
    }
  }

  /**
   * What a shard stores after a round, account by account of its range: the serial run of the
   * committed transfers of all blocks from the global state its range agrees with.
   */
  lemma {:induction false} StoredIsSerial(blocks: seq<Block>, keeps: seq<seq<bool>>, ranges: seq<Account -> bool>, global: Balances,
                       base: Balances, range: Account -> bool, order: seq<nat>, a: Account)
    requires |blocks| == |keeps| == |ranges|
    requires forall k :: 0 <= k < |blocks| ==> |keeps[k]| == |blocks[k].txs| && Closed(blocks[k].txs, keeps[k])
    requires Disjoint(blocks, keeps, ranges) && Covers(order, |blocks|)
    requires Agree(base, global, range) && range(a)
    ensures Lookup(WriteInOrder(base, RestrictAll(Overlays(blocks, keeps, ranges, global), range), order, |order|), a)
            == Lookup(SerialBlocks(blocks, keeps, ranges, |blocks|, global), a)
  {
    ParallelIsSerial(blocks, keeps, ranges, global, order);
    RangeOfWrites(base, global, Overlays(blocks, keeps, ranges, global), order, |order|, range, a);
  }

  // ----- intra-shard blocks -----

  /** A run on a range leaves everything outside it alone. */
  lemma {:induction false} SerialOutside(txs: seq<Tx>, keep: seq<bool>, n: nat, base: Balances, range: Account -> bool, a: Account)
    requires n <= |txs| == |keep| && !range(a)
    ensures a in Serial(txs, keep, n, base, range) <==> a in base
    ensures a in base ==> Serial(txs, keep, n, base, range)[a] == base[a]
  {
    if n > 0 {
      hide Run;
      SerialOutside(txs, keep, n - 1, base, range, a);
      var view := Ranged(Serial(txs, keep, n - 1, base, range), range);
      if keep[n - 1] && Run(txs[n - 1], view).Ok? {
        RunReadable(txs[n - 1], view);
        assert a !in Accounts(txs[n - 1]) by {
          assert view.Read(a).None?;
        }
      }
    }
  }

  lemma {:induction false} WritesWithinRange(txs: seq<Tx>, i: nat, base: Balances, other: Balances, range: Account -> bool)
    requires i < |txs|
    requires Agree(Serial(txs, All(|txs|), i, base, range), Serial(txs, All(|txs|), i, other, range), range)
    ensures RecordedWrites(txs, i, base, range) == RecordedWrites(txs, i, other, range)
  {
    hide Run;
    hide Serial;
    var s := Ranged(Serial(txs, All(|txs|), i, base, range), range);
    var t := Ranged(Serial(txs, All(|txs|), i, other, range), range);
    assert SameOn(Accounts(txs[i]), s, t);
    RunLocal(txs[i], s, t);
  }

  lemma {:induction false} AgreeAfter(s: Balances, t: Balances, x: Balances, range: Account -> bool)
    requires Agree(s, t, range)
    ensures Agree(s + x, t + x, range)
  {
  }

  /** The changes a run on a range makes do not depend on what lies outside the range. */
  lemma {:induction false} SerialWithinRange(txs: seq<Tx>, n: nat, base: Balances, other: Balances, range: Account -> bool)
    requires n <= |txs| && Agree(base, other, range)
    ensures other + Applied(txs, All(|txs|), n, base, range) == Serial(txs, All(|txs|), n, other, range)
    ensures Agree(Serial(txs, All(|txs|), n, base, range), Serial(txs, All(|txs|), n, other, range), range)
  {
    hide Serial;
    hide Applied;
    hide RecordedWrites;
    hide Agree;
    if n == 0 {
      WholeNone(txs, base, range);
      WholeNone(txs, other, range);
      assert other + map[] == other;
    } else {
      SerialWithinRange(txs, n - 1, base, other, range);
      WholeStep(txs, n, base, range);
      WholeStep(txs, n, other, range);
      WritesWithinRange(txs, n - 1, base, other, range);
      var s, t := Serial(txs, All(|txs|), n - 1, base, range), Serial(txs, All(|txs|), n - 1, other, range);
      var o, x := Applied(txs, All(|txs|), n - 1, base, range), RecordedWrites(txs, n - 1, base, range);
      AgreeAfter(s, t, x, range);
      assert other + (o + x) == (other + o) + x;
    }
  }

  /** Recordings from bases that agree on the range lay down the same writes. */
  lemma {:induction false} AppliedWithinRange(txs: seq<Tx>, keep: seq<bool>, n: nat, base: Balances, other: Balances, range: Account -> bool)
    requires n <= |txs| == |keep| && Agree(base, other, range)
    ensures Applied(txs, keep, n, base, range) == Applied(txs, keep, n, other, range)
  {
    hide Serial;
    hide RecordedWrites;
    hide Agree;
    if n > 0 {
      AppliedWithinRange(txs, keep, n - 1, base, other, range);
      SerialWithinRange(txs, n - 1, base, other, range);
      WritesWithinRange(txs, n - 1, base, other, range);
    }
  }

  lemma {:induction false} WholeNone(txs: seq<Tx>, base: Balances, range: Account -> bool)
    ensures Serial(txs, All(|txs|), 0, base, range) == base
    ensures Applied(txs, All(|txs|), 0, base, range) == map[]
  {
  }

  lemma {:induction false} WholeStep(txs: seq<Tx>, n: nat, base: Balances, range: Account -> bool)
    requires 0 < n <= |txs|
    ensures Serial(txs, All(|txs|), n, base, range) == Serial(txs, All(|txs|), n - 1, base, range) + RecordedWrites(txs, n - 1, base, range)
    ensures Applied(txs, All(|txs|), n, base, range) == Applied(txs, All(|txs|), n - 1, base, range) + RecordedWrites(txs, n - 1, base, range)
  {
    hide Run;
    var s := Serial(txs, All(|txs|), n - 1, base, range);
    assert s + map[] == s;
  }

  /** Intra-shard blocks over disjoint ranges may run in either order. */
  lemma {:induction false} InnerBlocksCommute(x: seq<Tx>, xr: Account -> bool, y: seq<Tx>, yr: Account -> bool, base: Balances)
    requires forall a :: !(xr(a) && yr(a))
    ensures Serial(x, All(|x|), |x|, Serial(y, All(|y|), |y|, base, yr), xr)
            == Serial(y, All(|y|), |y|, Serial(x, All(|x|), |x|, base, xr), yr)
  {
    hide Serial;
    hide Applied;
    var ax, ay := Applied(x, All(|x|), |x|, base, xr), Applied(y, All(|y|), |y|, base, yr);
    SerialWithinRange(x, |x|, base, base, xr);
    SerialWithinRange(y, |y|, base, base, yr);
    forall a
      ensures a in ax ==> xr(a)
      ensures a in ay ==> yr(a)
    {
      if a in ax {
        AppliedKeys(x, All(|x|), |x|, base, xr, a);
      }
      if a in ay {
        AppliedKeys(y, All(|y|), |y|, base, yr, a);
      }
    }
    assert Agree(base, base + ay, xr);
    assert Agree(base, base + ax, yr);
    SerialWithinRange(x, |x|, base, base + ay, xr);
    SerialWithinRange(y, |y|, base, base + ax, yr);
    assert (base + ay) + ax == (base + ax) + ay;
  }

  /** Persisting a range-limited overlay of a run on that range persists the whole run. */
  lemma {:induction false} RangeWriteIsSerial(txs: seq<Tx>, data: Balances, memDB: Balances, range: Account -> bool)
    requires data + memDB == Serial(txs, All(|txs|), |txs|, data, range)
    ensures data + Restrict(memDB, range) == Serial(txs, All(|txs|), |txs|, data, range)
  {
    hide Serial;
    var s := Serial(txs, All(|txs|), |txs|, data, range);
    forall a | !range(a)
      ensures a in s <==> a in data
      ensures a in data ==> s[a] == data[a]
    {
      SerialOutside(txs, All(|txs|), |txs|, data, range, a);
    }
  }

  /** The intra-shard blocks, each run on its own range, one after the other. */
  function InnerState(inner: seq<Block>, ranges: map<string, Account -> bool>, n: nat, base: Balances): Balances
    requires n <= |inner| && forall b :: 0 <= b < |inner| ==> inner[b].chainID in ranges
  {
    if n == 0 then base
    else var txs := inner[n - 1].bodyTxs;
      Serial(txs, All(|txs|), |txs|, InnerState(inner, ranges, n - 1, base), ranges[inner[n - 1].chainID])
  }

  function OutputsFor(outs: map<string, seq<Balances>>, hash: string): seq<Balances> {
    if hash in outs then outs[hash] else []
  }

  /** The overlay of every block of a round. */
  function OverlayList(blocks: seq<Block>, bits: seq<seq<bool>>, outs: map<string, seq<Balances>>): (l: seq<Balances>)
    requires |blocks| == |bits| && forall b :: 0 <= b < |blocks| ==> blocks[b].WellFormed()
    ensures |l| == |blocks|
  {
    seq(|blocks|, b requires 0 <= b < |blocks| =>
      Overlay(blocks[b], bits[b], OutputsFor(outs, blocks[b].hash), |blocks[b].txs|))
  }

  /** One more overlay of a round is written in list order. */
  lemma {:induction false} WriteNext(base: Balances, overlays: seq<Balances>, range: Account -> bool, b: nat)
    requires b < |overlays|
    ensures WriteInOrder(base, RestrictAll(overlays, range), InOrder(|overlays|), 0) == base
    ensures WriteInOrder(base, RestrictAll(overlays, range), InOrder(|overlays|), b + 1)
            == WriteInOrder(base, RestrictAll(overlays, range), InOrder(|overlays|), b) + Restrict(overlays[b], range)
  {
  }
}
