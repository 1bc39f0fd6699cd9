/** Ideal signatures and aggregates of them. */
module Signatures {

  /** A signature tells which validator of which chain signed what. */
  datatype Signature<M> = Signature(chain: string, signer: int, msg: M)

  /** A signature verifies for validator i of a chain if that validator made it over that message. */
  predicate Verify<M(==)>(chain: string, sig: Signature<M>, msg: M, index: int) {
    sig == Signature(chain, index, msg)
  }

  /** An aggregate keeps who signed what; verification wants exactly the marked validators over one message. */
  type Aggregate<M(==)> = multiset<Signature<M>>

  /** One signature over the message of each marked validator among the first n. */
  function Expected<M(==)>(chain: string, msg: M, bits: seq<bool>, n: nat): Aggregate<M>
    requires n <= |bits|
  {
    if n == 0 then multiset{}
    else Expected(chain, msg, bits, n - 1) + if bits[n - 1] then multiset{Signature(chain, n - 1, msg)} else multiset{}
  }

  predicate VerifyAggregate<M(==)>(chain: string, size: nat, agg: Aggregate<M>, msg: M, bits: seq<bool>) {
    size == |bits| && agg == Expected(chain, msg, bits, |bits|)
  }

  lemma {:induction false} ExpectedHas<M>(chain: string, msg: M, bits: seq<bool>, n: nat, i: nat)
    requires i < n <= |bits| && bits[i]
    ensures Signature(chain, i, msg) in Expected(chain, msg, bits, n)
  {
    if i < n - 1 {
      ExpectedHas(chain, msg, bits, n - 1, i);
    }
  }

  lemma {:induction false} ExpectedOnly<M>(chain: string, msg: M, bits: seq<bool>, n: nat, s: Signature<M>)
    requires n <= |bits| && s in Expected(chain, msg, bits, n)
    ensures s.msg == msg
  {
    if s in Expected(chain, msg, bits, n - 1) {
      ExpectedOnly(chain, msg, bits, n - 1, s);
    }
  }

  lemma {:induction false} NoneExpected<M>(chain: string, msg: M, bits: seq<bool>, n: nat)
    requires n <= |bits| && forall i :: 0 <= i < |bits| ==> !bits[i]
    ensures Expected(chain, msg, bits, n) == multiset{}
  {
    if n > 0 {
      NoneExpected(chain, msg, bits, n - 1);
    }
  }

  lemma {:induction false} OneMoreExpected<M>(chain: string, msg: M, bits: seq<bool>, i: nat, n: nat)
    requires n <= |bits| && i < |bits| && !bits[i]
    ensures Expected(chain, msg, bits[i := true], n)
            == Expected(chain, msg, bits, n) + if i < n then multiset{Signature(chain, i, msg)} else multiset{}
  {
    if n > 0 {
      OneMoreExpected(chain, msg, bits, i, n - 1);
    }
  }
}
