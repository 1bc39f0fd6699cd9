/** Voting weight, two-thirds thresholds and their intersection. */
module Quorum {
  import opened Basics

  /** The weight of the validators whose bit is set. */
  function Weight(w: seq<nat>, bits: seq<bool>): nat
    requires |w| == |bits|
  {
    if w == [] then 0 else (if bits[0] then w[0] else 0) + Weight(w[1..], bits[1..])
  }

  function Total(w: seq<nat>): nat {
    if w == [] then 0 else w[0] + Total(w[1..])
  }

  lemma {:induction false} WeightAtMostTotal(w: seq<nat>, bits: seq<bool>)
    requires |w| == |bits|
    ensures Weight(w, bits) <= Total(w)
  {
    if w != [] {
      WeightAtMostTotal(w[1..], bits[1..]);
    }
  }

  lemma {:induction false} WeightSet(w: seq<nat>, bits: seq<bool>, i: nat)
    requires |w| == |bits| && i < |w| && !bits[i]
    ensures Weight(w, bits[i := true]) == Weight(w, bits) + w[i]
  {
    if i == 0 {
      assert bits[0 := true][1..] == bits[1..];
    } else {
      WeightSet(w[1..], bits[1..], i - 1);
      assert bits[i := true][1..] == bits[1..][i - 1 := true];
    }
  }

  lemma {:induction false} WeightNone(w: seq<nat>, bits: seq<bool>)
    requires |w| == |bits| && forall i :: 0 <= i < |bits| ==> !bits[i]
    ensures Weight(w, bits) == 0
  {
    if w != [] {
      WeightNone(w[1..], bits[1..]);
    }
  }

  /** Sets that exclude each other weigh at most the total together. */
  lemma {:induction false} DisjointWeights(w: seq<nat>, a: seq<bool>, b: seq<bool>)
    requires |w| == |a| == |b| && forall i :: 0 <= i < |w| ==> !(a[i] && b[i])
    ensures Weight(w, a) + Weight(w, b) <= Total(w)
  {
    if w != [] {
      DisjointWeights(w[1..], a[1..], b[1..]);
    }
  }

  /** If everything two sets share lies in a third, their weights exceed the total by at most the third's. */
  lemma {:induction false} OverlapWeight(w: seq<nat>, a: seq<bool>, b: seq<bool>, f: seq<bool>)
    requires |w| == |a| == |b| == |f| && forall i :: 0 <= i < |w| && a[i] && b[i] ==> f[i]
    ensures Weight(w, a) + Weight(w, b) <= Total(w) + Weight(w, f)
  {
    if w != [] {
      OverlapWeight(w[1..], a[1..], b[1..], f[1..]);
    }
  }

  lemma {:induction false} WeightGrows(w: seq<nat>, a: seq<bool>, b: seq<bool>)
    requires |w| == |a| == |b| && forall i :: 0 <= i < |w| && a[i] ==> b[i]
    ensures Weight(w, a) <= Weight(w, b)
  {
    if w != [] {
      WeightGrows(w[1..], a[1..], b[1..]);
    }
  }

  /** The total is the weight of everybody. */
  lemma {:induction false} TotalIsAll(w: seq<nat>, bits: seq<bool>)
    requires |w| == |bits| && forall i :: 0 <= i < |w| ==> bits[i]
    ensures Weight(w, bits) == Total(w)
  {
    if w != [] {
      TotalIsAll(w[1..], bits[1..]);
    }
  }

  /** More than two thirds, as the source computes it. */
  predicate TwoThirds(votes: int, total: int)
    requires total >= 0
  {
    votes > total * 2 / 3
  }

  /** Rounding the threshold down changes nothing. */
  lemma {:induction false} TwoThirdsIs(votes: int, total: int)
    requires total >= 0
    ensures TwoThirds(votes, total) <==> 3 * votes > 2 * total
  {
  }

  /** Two quorums share a validator outside any set of at most a third of the weight. */
  lemma {:induction false} QuorumsIntersect(w: seq<nat>, a: seq<bool>, b: seq<bool>, f: seq<bool>) returns (i: nat)
    requires |w| == |a| == |b| == |f|
    requires TwoThirds(Weight(w, a), Total(w)) && TwoThirds(Weight(w, b), Total(w))
    requires 3 * Weight(w, f) <= Total(w)
    ensures i < |w| && a[i] && b[i] && !f[i]
  {
    if j :| 0 <= j < |w| && a[j] && b[j] && !f[j] {
      i := j;
    } else {
      OverlapWeight(w, a, b, f);
      assert false;
    }
  }

  // ----- 32-bit arithmetic -----

  /** The value an int32 holds after wrapping. */
  function I32(x: int): int {
    (x + 0x8000_0000) % 0x1_0000_0000 - 0x8000_0000
  }

  /** Division that truncates towards zero. */
  function Quo(x: int, d: int): int
    requires d > 0
  {
    if x >= 0 then x / d else -((-x) / d)
  }

  /** total * 2 / 3 in int32. */
  function Threshold32(total: int): int {
    Quo(I32(total * 2), 3)
  }

  predicate Exceeds32(votes: int, total: int) {
    votes > Threshold32(total)
  }

  const LIMIT := 0x4000_0000

  lemma {:induction false} Exceeds32IsTwoThirds(votes: int, total: int)
    requires 0 <= total < LIMIT
    ensures Exceeds32(votes, total) <==> TwoThirds(votes, total)
  {
  }

  /** The int32 threshold means two thirds exactly for totals below 2^30: above, a single vote passes. */
  lemma {:induction false} Threshold32SoundIff(total: int)
    requires 0 <= total < 0x8000_0000
    ensures (forall votes :: votes >= 0 && Exceeds32(votes, total) ==> 3 * votes > 2 * total) <==> total < LIMIT
  {
    if total >= LIMIT {
      assert Exceeds32(1, total);
    } else {
      forall votes | votes >= 0 && Exceeds32(votes, total)
        ensures 3 * votes > 2 * total
      {
        Exceeds32IsTwoThirds(votes, total);
      }
    }
  }

  // ----- tallies by key -----

  /** Which validators were recorded with a key. */
  function Voters<K(==)>(rec: seq<Option<K>>, key: K): (bits: seq<bool>)
    ensures |bits| == |rec| && forall i :: 0 <= i < |rec| ==> bits[i] == (rec[i] == Some(key))
  {
    seq(|rec|, i requires 0 <= i < |rec| => rec[i] == Some(key))
  }

  function Tally<K(==)>(w: seq<nat>, rec: seq<Option<K>>, key: K): nat
    requires |w| == |rec|
  {
    Weight(w, Voters(rec, key))
  }

  /** Recording a new voter adds its weight to its key and to no other. */
  lemma {:induction false} TallyRecord<K(!new)>(w: seq<nat>, rec: seq<Option<K>>, i: nat, key: K, other: K)
    requires |w| == |rec| && i < |rec| && rec[i].None?
    ensures Tally(w, rec[i := Some(key)], other) == Tally(w, rec, other) + if other == key then w[i] else 0
  {
    var after := rec[i := Some(key)];
    if other == key {
      assert Voters(after, key) == Voters(rec, key)[i := true];
      WeightSet(w, Voters(rec, key), i);
    } else {
      assert Voters(after, other) == Voters(rec, other);
    }
  }

  lemma {:induction false} TallyEmpty<K>(w: seq<nat>, rec: seq<Option<K>>, key: K)
    requires |w| == |rec| && forall i :: 0 <= i < |rec| ==> rec[i] != Some(key)
    ensures Tally(w, rec, key) == 0
  {
    WeightNone(w, Voters(rec, key));
  }

  /** At most one key exceeds two thirds. */
  lemma {:induction false} OneMajority<K>(w: seq<nat>, rec: seq<Option<K>>, x: K, y: K)
    requires |w| == |rec|
    requires TwoThirds(Tally(w, rec, x), Total(w)) && TwoThirds(Tally(w, rec, y), Total(w))
    ensures x == y
  {
    if x != y {
      DisjointWeights(w, Voters(rec, x), Voters(rec, y));
    }
  }
}
