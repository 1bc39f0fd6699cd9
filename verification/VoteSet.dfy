/** The baseline's vote collector: first votes count, two thirds decide. */
module VoteSets {
  import opened Basics
  import opened Quorum
  import opened BitVectors

  datatype Vote = Vote(blockHeaderHash: Hash, index: nat, ok: bool, signature: string)

  /** What a vote is counted under. */
  datatype Choice = Choice(hash: Hash, ok: bool)

  function ChoiceOf(v: Vote): Choice {
    Choice(v.blockHeaderHash, v.ok)
  }

  function Choices(votes: seq<Option<Vote>>): (c: seq<Option<Choice>>)
    ensures |c| == |votes|
    ensures forall i :: 0 <= i < |votes| ==> c[i] == if votes[i].Some? then Some(ChoiceOf(votes[i].value)) else None
  {
    seq(|votes|, i requires 0 <= i < |votes| => if votes[i].Some? then Some(ChoiceOf(votes[i].value)) else None)
  }

  datatype AddResult = Fine | Ambiguous

  class VoteSet {
    const validatorNum: nat
    const totalVotes: int
    var votes: seq<Option<Vote>>
    var blockHeaderHashCnt: map<Hash, (int, int)>
    var bitVector: BitVector
    var has_mj23: bool
    var mj23_key: Hash
    var mj23_code: bool
    ghost const weights: seq<nat>

    /** The tally kept for a choice. */
    ghost function Count(c: Choice): int
      reads this
    {
      if c.hash !in blockHeaderHashCnt then 0
      else if c.ok then blockHeaderHashCnt[c.hash].0 else blockHeaderHashCnt[c.hash].1
    }

    /** Tallies weigh the recorded voters, each recorded once. */
    ghost predicate Counting()
      reads this, bitVector
    {
      && |weights| == |votes| == validatorNum && totalVotes == Total(weights) < LIMIT
      && bitVector.Valid() && bitVector.Size == validatorNum
      && (forall i :: 0 <= i < |votes| ==> bitVector.Bits()[i] == votes[i].Some?)
      && (forall i :: 0 <= i < |votes| && votes[i].Some? ==> votes[i].value.index == i)
      && (forall c :: Count(c) == Tally(weights, Choices(votes), c))
    }

    /** The flag is set exactly when some choice exceeds two thirds, with that choice stored. */
    ghost predicate Valid()
      reads this, bitVector
    {
      && Counting()
      && (if has_mj23 then TwoThirds(Tally(weights, Choices(votes), Choice(mj23_key, mj23_code)), totalVotes)
          else forall c :: !TwoThirds(Tally(weights, Choices(votes), c), totalVotes))
    }

    constructor (n: nat, totalVotes: int, ghost weights: seq<nat>)
      requires |weights| == n && totalVotes == Total(weights) < LIMIT
      ensures Valid() && fresh(bitVector) && this.weights == weights
      ensures votes == seq(n, _ => None)
    {
      validatorNum, this.totalVotes, this.weights := n, totalVotes, weights;
      votes, blockHeaderHashCnt := seq(n, _ => None), map[];
      has_mj23, mj23_key, mj23_code := false, [], false;
      bitVector := new BitVector(n);
      new;
      forall c
        ensures Tally(weights, Choices(votes), c) == 0
      {
        TallyEmpty(weights, Choices(votes), c);
      }
    }

    /** Adds a vote with its validator's weight; only a validator's first vote is recorded. */
    method AddVote(vote: Vote, valVote: nat) returns (r: AddResult)
      requires Valid() && vote.index < validatorNum && valVote == weights[vote.index]
      modifies this, bitVector
      ensures Valid() && bitVector == old(bitVector)
      ensures votes == if old(votes)[vote.index].None? then old(votes)[vote.index := Some(vote)] else old(votes)
      ensures r == match old(votes)[vote.index]
                   case None => Fine
                   case Some(raw) => if raw.blockHeaderHash == vote.blockHeaderHash || raw.ok != vote.ok then Ambiguous else Fine
      ensures old(has_mj23) ==> has_mj23 && mj23_key == old(mj23_key) && mj23_code == old(mj23_code)
    {
      hide Tally;
      if bitVector.GetIndex(vote.index) {
        var raw := votes[vote.index].value;
        if vote.blockHeaderHash == raw.blockHeaderHash || vote.ok != raw.ok {
          return Ambiguous;
        }
        return Fine;
      }
      RecordedTallies(vote);
      var count := CountVote(vote, valVote);
      r := Fine;
      if has_mj23 {
        return;
      }
      Exceeds32IsTwoThirds(count, totalVotes);
      if Exceeds32(count, totalVotes) {
        has_mj23, mj23_key, mj23_code := true, vote.blockHeaderHash, vote.ok;
      } else {
        forall c
          ensures !TwoThirds(Tally(weights, Choices(votes), c), totalVotes)
        {
          assert !TwoThirds(Tally(weights, Choices(old(votes)), c), totalVotes);
        }
      }
    }

    /** Records a first vote and adds its weight to its choice's tally, which is returned. */
    method CountVote(vote: Vote, valVote: nat) returns (count: int)
      requires Counting() && vote.index < validatorNum && valVote == weights[vote.index] && votes[vote.index].None?
      modifies this`votes, this`blockHeaderHashCnt, bitVector
      ensures Counting() && bitVector == old(bitVector)
      ensures votes == old(votes)[vote.index := Some(vote)]
      ensures count == Tally(weights, Choices(votes), ChoiceOf(vote))
    {
      hide Unpack;
      hide Tally;
      RecordedTallies(vote);
      var key := vote.blockHeaderHash;
      var done := bitVector.SetIndex(vote.index, true);
      votes := votes[vote.index := Some(vote)];
      var u := if key in blockHeaderHashCnt then blockHeaderHashCnt[key] else (0, 0);
      u := if vote.ok then (u.0 + valVote, u.1) else (u.0, u.1 + valVote);
      blockHeaderHashCnt := blockHeaderHashCnt[key := u];
      forall c
        ensures Count(c) == Tally(weights, Choices(votes), c)
      {
        assert old(Count(c)) == Tally(weights, Choices(old(votes)), c);
        assert c == ChoiceOf(vote) <==> c.hash == key && c.ok == vote.ok;
      }
      count := if vote.ok then u.0 else u.1;
      assert count == Count(ChoiceOf(vote));
    }

    lemma {:induction false} RecordedTallies(vote: Vote)
      requires Counting() && vote.index < validatorNum && votes[vote.index].None?
      ensures forall c :: Tally(weights, Choices(votes[vote.index := Some(vote)]), c)
                          == Tally(weights, Choices(votes), c) + if c == ChoiceOf(vote) then weights[vote.index] else 0
    {
      hide Tally;
      hide Unpack;
      assert Choices(votes[vote.index := Some(vote)]) == Choices(votes)[vote.index := Some(ChoiceOf(vote))];
      forall c
        ensures Tally(weights, Choices(votes)[vote.index := Some(ChoiceOf(vote))], c)
                == Tally(weights, Choices(votes), c) + if c == ChoiceOf(vote) then weights[vote.index] else 0
      {
        TallyRecord(weights, Choices(votes), vote.index, ChoiceOf(vote), c);
      }
    }

    /** The signatures and the bits of the deciding voters; the bits weigh the winning tally. */
    method GetMaj23AggreSig() returns (sigs: seq<string>, bv: BitVector)
      requires Valid()
      ensures fresh(bv) && bv.Valid() && bv.Bits() == Voters(Choices(votes), Choice(mj23_key, mj23_code))
      ensures Weight(weights, bv.Bits()) == Tally(weights, Choices(votes), Choice(mj23_key, mj23_code))
      ensures has_mj23 ==> TwoThirds(Weight(weights, bv.Bits()), totalVotes)
      ensures sigs == SignaturesOf(votes, Choice(mj23_key, mj23_code), validatorNum)
      ensures |sigs| == Rank(bv.Bits(), |votes|)
      ensures forall i :: 0 <= i < |votes| && bv.Bits()[i] ==> Rank(bv.Bits(), i) < |sigs| && votes[i].Some? && sigs[Rank(bv.Bits(), i)] == votes[i].value.signature
    {
      hide Unpack;
      hide Weight;
      hide Tally;
      hide TwoThirds;
      TallyOf(weights, Choices(votes), Choice(mj23_key, mj23_code));
      sigs, bv := CollectSignatures();
      hide SignaturesOf;
      SignaturesRanked(votes, Choice(mj23_key, mj23_code), validatorNum);
    }

    method CollectSignatures() returns (sigs: seq<string>, bv: BitVector)
      requires bitVector.Valid() && bitVector.Size == |votes| == validatorNum
      requires forall i :: 0 <= i < |votes| ==> bitVector.Bits()[i] == votes[i].Some?
      ensures fresh(bv) && bv.Valid() && bv.Bits() == Voters(Choices(votes), Choice(mj23_key, mj23_code))
      ensures sigs == SignaturesOf(votes, Choice(mj23_key, mj23_code), validatorNum)
    {
      hide Unpack;
      sigs := [];
      bv := new BitVector(validatorNum);
      ghost var want := Voters(Choices(votes), Choice(mj23_key, mj23_code));
      for i := 0 to validatorNum
        invariant fresh(bv) && bv.Valid() && bv.Size == validatorNum
        invariant forall j :: 0 <= j < validatorNum ==> bv.Bits()[j] == (j < i && want[j])
        invariant sigs == SignaturesOf(votes, Choice(mj23_key, mj23_code), i)
      {
        if bitVector.GetIndex(i) {
          var vote := votes[i].value;
          if vote.ok == mj23_code && vote.blockHeaderHash == mj23_key {
            sigs := sigs + [vote.signature];
            var done := bv.SetIndex(i, true);
          }
        }
      }
      assert bv.Bits() == want;
    }
  }

  lemma {:induction false} TallyOf(w: seq<nat>, rec: seq<Option<Choice>>, c: Choice)
    requires |w| == |rec|
    ensures Tally(w, rec, c) == Weight(w, Voters(rec, c))
  {
  }

  /** The signatures of the first n validators' votes for a choice, in validator order. */
  function SignaturesOf(votes: seq<Option<Vote>>, c: Choice, n: nat): seq<string>
    requires n <= |votes|
  {
    if n == 0 then []
    else SignaturesOf(votes, c, n - 1) +
         if votes[n - 1].Some? && ChoiceOf(votes[n - 1].value) == c then [votes[n - 1].value.signature] else []
  }

  /** How many of the first n bits are set. */
  function Rank(bits: seq<bool>, n: nat): nat
    requires n <= |bits|
  {
    if n == 0 then 0 else Rank(bits, n - 1) + if bits[n - 1] then 1 else 0
  }

  /** The k-th signature is that of the k-th marked validator. */
  lemma {:induction false} SignaturesRanked(votes: seq<Option<Vote>>, c: Choice, n: nat)
    requires n <= |votes|
    ensures |SignaturesOf(votes, c, n)| == Rank(Voters(Choices(votes), c), n)
    ensures forall i :: 0 <= i < n && Voters(Choices(votes), c)[i] ==>
              && Rank(Voters(Choices(votes), c), i) < |SignaturesOf(votes, c, n)| && votes[i].Some?
              && SignaturesOf(votes, c, n)[Rank(Voters(Choices(votes), c), i)] == votes[i].value.signature
  {
    if n > 0 {
      SignaturesRanked(votes, c, n - 1);
    }
  }

  // ----- the decision does not depend on the order of delivery -----

  /** What AddVote records, over a whole delivery. */
  function Recorded(n: nat, delivery: seq<Vote>): (rec: seq<Option<Vote>>)
    requires forall k :: 0 <= k < |delivery| ==> delivery[k].index < n
    ensures |rec| == n
  {
    if delivery == [] then seq(n, _ => None)
    else
      var rec, v := Recorded(n, delivery[..|delivery| - 1]), delivery[|delivery| - 1];
      if rec[v.index].None? then rec[v.index := Some(v)] else rec
  }

  /** No validator casts two different votes. */
  ghost predicate Honest(delivery: seq<Vote>) {
    forall j, k :: 0 <= j < |delivery| && 0 <= k < |delivery| && delivery[j].index == delivery[k].index ==> delivery[j] == delivery[k]
  }

  lemma {:induction false} RecordedIs(n: nat, delivery: seq<Vote>, i: nat)
    requires forall k :: 0 <= k < |delivery| ==> delivery[k].index < n
    requires Honest(delivery) && i < n
    ensures Recorded(n, delivery)[i].Some? ==> Recorded(n, delivery)[i].value in delivery && Recorded(n, delivery)[i].value.index == i
    ensures Recorded(n, delivery)[i].None? ==> forall v :: v in delivery ==> v.index != i
  {
    if delivery != [] {
      var rest := delivery[..|delivery| - 1];
      RecordedIs(n, rest, i);
      assert delivery == rest + [delivery[|delivery| - 1]];
    }
  }

  /** Deliveries of the same votes in any order and with any repetition record the same votes. */
  lemma {:induction false} RecordingIgnoresOrder(n: nat, x: seq<Vote>, y: seq<Vote>)
    requires forall k :: 0 <= k < |x| ==> x[k].index < n
    requires forall k :: 0 <= k < |y| ==> y[k].index < n
    requires Honest(x) && Honest(y) && forall v :: v in x <==> v in y
    ensures Recorded(n, x) == Recorded(n, y)
  {
    forall i | 0 <= i < n
      ensures Recorded(n, x)[i] == Recorded(n, y)[i]
    {
      RecordedIs(n, x, i);
      RecordedIs(n, y, i);
      if Recorded(n, x)[i].Some? && Recorded(n, y)[i].Some? {
        SameVote(x, Recorded(n, x)[i].value, Recorded(n, y)[i].value);
      }
    }
  }

  lemma {:induction false} SameVote(x: seq<Vote>, a: Vote, b: Vote)
    requires Honest(x) && a in x && b in x && a.index == b.index
    ensures a == b
  {
    var j :| 0 <= j < |x| && x[j] == a;
    var k :| 0 <= k < |x| && x[k] == b;
  }

  /** Two collectors over the same weights that recorded the same votes decide alike. */
  lemma {:induction false} DecisionIgnoresOrder(a: VoteSet, b: VoteSet)
    requires a.Valid() && b.Valid() && a.weights == b.weights && a.votes == b.votes
    ensures a.has_mj23 == b.has_mj23
    ensures a.has_mj23 ==> a.mj23_key == b.mj23_key && a.mj23_code == b.mj23_code
  {
    hide Tally;
    hide Unpack;
    if a.has_mj23 && b.has_mj23 {
      OneMajority(a.weights, Choices(a.votes), Choice(a.mj23_key, a.mj23_code), Choice(b.mj23_key, b.mj23_code));
    }
  }

  /** Feeds a delivery to a collector: what is recorded is the specified recording. */
  method Deliver(vs: VoteSet, delivery: seq<Vote>, weights: seq<nat>)
    requires vs.Valid() && vs.weights == weights && vs.votes == Recorded(vs.validatorNum, [])
    requires forall k :: 0 <= k < |delivery| ==> delivery[k].index < vs.validatorNum
    modifies vs, vs.bitVector
    ensures vs.Valid() && vs.votes == Recorded(vs.validatorNum, delivery)
  {
    for k := 0 to |delivery|
      invariant vs.Valid() && vs.bitVector == old(vs.bitVector)
      invariant vs.votes == Recorded(vs.validatorNum, delivery[..k])
    {
      assert delivery[..k + 1][..k] == delivery[..k];
      var r := vs.AddVote(delivery[k], weights[delivery[k].index]);
    }
    assert delivery[..|delivery|] == delivery;
  }
}
