/** A linked list whose readers may wait for a neighbour or for a first element. */
module CLists {

  /**
   * A wait group of one and its channel, which are always released together. A released wait is
   * replaced by one of the next generation.
   */
  datatype Wait = Wait(generation: nat, open: bool)
  {
    /** Done on the group and close of the channel; a second time would be a panic. */
    function Release(): Wait
      requires open
    {
      this.(open := false)
    }

    function Renew(): Wait
      requires !open
    {
      Wait(generation + 1, true)
    }

    /** Who waited on this one was let go if another one took its place. */
    predicate Succeeds(before: Wait) {
      generation == before.generation || (generation == before.generation + 1 && !before.open)
    }
  }

  /** Whoever waited on a wait that was replaced saw it released: every generation that was left was closed first. */
  lemma {:induction false} EveryWaitIsReleased(history: seq<Wait>, g: nat)
    requires forall k :: 0 < k < |history| ==> history[k].Succeeds(history[k - 1])
    requires |history| > 0 && history[0].generation <= g < history[|history| - 1].generation
    ensures exists k :: 0 <= k < |history| && history[k] == Wait(g, false)
  {
    var n := |history| - 1;
    if n > 0 {
      assert history[n].Succeeds(history[n - 1]);
      if history[n - 1].generation <= g {
        assert history[n - 1] == Wait(g, false);
      } else {
        EveryWaitIsReleased(history[..n], g);
        var k :| 0 <= k < n && history[..n][k] == Wait(g, false);
        assert history[k] == Wait(g, false);
      }
    }
  }

  class CElement<T> {
    const Value: T
    var prev: CElement?<T>
    var prevWait: Wait
    var next: CElement?<T>
    var nextWait: Wait
    var removed: bool

    constructor (v: T)
      ensures Value == v && prev == null && next == null && !removed && Waiting()
    {
      Value, prev, next, removed := v, null, null, false;
      prevWait, nextWait := Wait(0, true), Wait(0, true);
    }

    /** A wait is released exactly when its neighbour exists or the element was removed. */
    ghost predicate Waiting()
      reads this
    {
      && (prevWait.open <==> prev == null && !removed)
      && (nextWait.open <==> next == null && !removed)
    }

    method SetNext(newNext: CElement?<T>)
      requires Waiting() && !removed
      modifies this`next, this`nextWait
      ensures Waiting() && next == newNext && nextWait.Succeeds(old(nextWait))
    {
      var oldNext := next;
      next := newNext;
      if oldNext != null && newNext == null {
        nextWait := nextWait.Renew();
      }
      if oldNext == null && newNext != null {
        nextWait := nextWait.Release();
      }
    }

    method SetPrev(newPrev: CElement?<T>)
      requires Waiting() && !removed
      modifies this`prev, this`prevWait
      ensures Waiting() && prev == newPrev && prevWait.Succeeds(old(prevWait))
    {
      var oldPrev := prev;
      prev := newPrev;
      if oldPrev != null && newPrev == null {
        prevWait := prevWait.Renew();
      }
      if oldPrev == null && newPrev != null {
        prevWait := prevWait.Release();
      }
    }

    method SetRemoved()
      requires Waiting() && !removed
      modifies this`removed, this`prevWait, this`nextWait
      ensures Waiting() && removed
      ensures prevWait.generation == old(prevWait).generation && nextWait.generation == old(nextWait).generation
    {
      removed := true;
      if prev == null {
        prevWait := prevWait.Release();
      }
      if next == null {
        nextWait := nextWait.Release();
      }
    }

    /** Only a removed element may let go of its neighbours. */
    method DetachNext()
      requires removed && Waiting()
      modifies this`next
      ensures Waiting() && next == null
    {
      next := null;
    }

    method DetachPrev()
      requires removed && Waiting()
      modifies this`prev
      ensures Waiting() && prev == null
    {
      prev := null;
    }
  }

  /** The element before or after position i, if there is one. */
  ghost function At<T>(elems: seq<CElement<T>>, i: int): CElement?<T> {
    if 0 <= i < |elems| then elems[i] else null
  }

  /** Element i knows its neighbours. */
  ghost predicate Linked<T>(elems: seq<CElement<T>>, i: nat)
    requires i < |elems|
    reads elems[i]
  {
    elems[i].prev == At(elems, i - 1) && elems[i].next == At(elems, i + 1) && !elems[i].removed && elems[i].Waiting()
  }

  ghost predicate Distinct<T>(elems: seq<CElement<T>>) {
    forall i, j :: 0 <= i < j < |elems| ==> elems[i] != elems[j]
  }

  /** The sequence without its element at position i. */
  ghost function Without<T>(elems: seq<CElement<T>>, i: nat): (r: seq<CElement<T>>)
    requires i < |elems|
    ensures |r| == |elems| - 1 && forall j :: 0 <= j < |r| ==> r[j] == elems[if j < i then j else j + 1]
    ensures Distinct(elems) ==> Distinct(r)
  {
    elems[..i] + elems[i + 1..]
  }

  class CList<T> {
    const maxLen: nat
    var wait: Wait
    var head: CElement?<T>
    var tail: CElement?<T>
    var len: int
    ghost var elems: seq<CElement<T>>

    /** Both chains, both ends and the length describe one sequence; the list's wait is open exactly when it is empty. */
    ghost predicate Valid()
      reads this, elems
    {
      && Distinct(elems) && (forall i :: 0 <= i < |elems| ==> Linked(elems, i))
      && head == At(elems, 0) && tail == At(elems, |elems| - 1)
      && len == |elems| <= maxLen && (wait.open <==> elems == [])
    }

    constructor (maxLength: nat)
      ensures Valid() && elems == [] && maxLen == maxLength
    {
      maxLen, wait, head, tail, len, elems := maxLength, Wait(0, true), null, null, 0, [];
    }

    /** Appends an element. A list at its maximal length fails instead. */
    method PushBack(v: T) returns (e: CElement<T>)
      requires Valid() && |elems| < maxLen
      modifies this, elems
      ensures Valid() && fresh(e) && e.Value == v
      ensures elems == old(elems) + [e] && wait.Succeeds(old(wait))
      ensures forall x :: x in old(elems) ==> x.nextWait.Succeeds(old(x.nextWait)) && x.prevWait == old(x.prevWait)
    {
      e := new CElement(v);
      ghost var n := |elems|;
      assert n > 0 ==> Linked(elems, n - 1);
      if len == 0 {
        wait := wait.Release();
      }
      len := len + 1;
      if tail == null {
        head, tail := e, e;
      } else {
        e.SetPrev(tail);
        tail.SetNext(e);
        tail := e;
      }
      elems := elems + [e];
      forall i | 0 <= i < |elems|
        ensures Linked(elems, i)
      {
        if i < n {
          assert old(Linked(elems, i));
        }
      }
    }

    /** Links the two neighbours of an element to each other, or an end of the list to the only one. */
    method Bypass(prev: CElement?<T>, next: CElement?<T>)
      requires prev == null || (prev != next && prev.Waiting() && !prev.removed)
      requires next == null || (next.Waiting() && !next.removed)
      modifies this`head, this`tail, prev, next
      ensures head == if prev == null then next else old(head)
      ensures tail == if next == null then prev else old(tail)
      ensures prev != null ==> prev.next == next && prev.Waiting() && !prev.removed && prev.nextWait.Succeeds(old(prev.nextWait))
      ensures prev != null ==> prev.prev == old(prev.prev) && prev.prevWait == old(prev.prevWait)
      ensures next != null ==> next.prev == prev && next.Waiting() && !next.removed && next.prevWait.Succeeds(old(next.prevWait))
      ensures next != null ==> next.next == old(next.next) && next.nextWait == old(next.nextWait)
    {
      if prev == null {
        head := next;
      } else {
        prev.SetNext(next);
      }
      if next == null {
        tail := prev;
      } else {
        next.SetPrev(prev);
      }
    }

    /** Takes an element from between its neighbours; it keeps its own links. */
    method Unlink(e: CElement<T>, prev: CElement?<T>, next: CElement?<T>)
      requires e.Waiting() && !e.removed && e != prev && e != next
      requires prev == null || (prev != next && prev.Waiting() && !prev.removed)
      requires next == null || (next.Waiting() && !next.removed)
      modifies this`head, this`tail, e`removed, e`prevWait, e`nextWait, prev, next
      ensures e.Waiting() && e.removed && e.nextWait.Succeeds(old(e.nextWait)) && e.prevWait.Succeeds(old(e.prevWait))
      ensures head == if prev == null then next else old(head)
      ensures tail == if next == null then prev else old(tail)
      ensures prev != null ==> prev.next == next && prev.Waiting() && !prev.removed && prev.nextWait.Succeeds(old(prev.nextWait))
      ensures prev != null ==> prev.prev == old(prev.prev) && prev.prevWait == old(prev.prevWait)
      ensures next != null ==> next.prev == prev && next.Waiting() && !next.removed && next.prevWait.Succeeds(old(next.prevWait))
      ensures next != null ==> next.next == old(next.next) && next.nextWait == old(next.nextWait)
    {
      Bypass(prev, next);
      e.SetRemoved();
    }

    /** Removes a present element, which stays where it was only as a removed one. */
    method Remove(e: CElement<T>) returns (v: T)
      requires Valid() && e in elems
      modifies this, elems
      ensures Valid() && v == e.Value && e.removed && e.Waiting()
      ensures exists i :: 0 <= i < |old(elems)| && old(elems)[i] == e && elems == Without(old(elems), i)
      ensures wait.Succeeds(old(wait))
      ensures forall x :: x in old(elems) ==> x.nextWait.Succeeds(old(x.nextWait)) && x.prevWait.Succeeds(old(x.prevWait))
    {
      hide Without;
      ghost var i :| 0 <= i < |elems| && elems[i] == e;
      ghost var n := |elems|;
      assert Linked(elems, i) && (i > 0 ==> Linked(elems, i - 1)) && (i + 1 < n ==> Linked(elems, i + 1));
      var prev, next := e.prev, e.next;
      if len == 1 {
        wait := wait.Renew();
      }
      len := len - 1;
      Unlink(e, prev, next);
      elems := Without(elems, i);
      v := e.Value;
      assert elems == Without(old(elems), i);
      forall j | 0 <= j < |elems|
        ensures Linked(elems, j)
      {
        var k := if j < i then j else j + 1;
        assert old(Linked(elems, k)) && elems[j] == old(elems)[k] != e;
        if k == i - 1 {
          assert elems[j] == prev;
        } else if k == i + 1 {
          assert elems[j] == next;
        } else {
          assert elems[j] != prev && elems[j] != next;
        }
      }
    }

    /** Walks the list from its front. */
    method Forward() returns (values: seq<T>)
      requires Valid()
      ensures values == Values(elems)
    {
      values := [];
      var e := head;
      ghost var i := 0;
      while e != null
        invariant 0 <= i <= |elems| && e == At(elems, i) && values == Values(elems)[..i]
        decreases |elems| - i
      {
        assert Linked(elems, i);
        values := values + [e.Value];
        e := e.next;
        i := i + 1;
      }
    }

    /** Walks the list from its back. */
    method Backward() returns (values: seq<T>)
      requires Valid()
      ensures values == Values(elems)
    {
      values := [];
      var e := tail;
      ghost var i := |elems|;
      while e != null
        invariant 0 <= i <= |elems| && e == At(elems, i - 1) && values == Values(elems)[i..]
        decreases i
      {
        assert Linked(elems, i - 1);
        values := [e.Value] + values;
        e := e.prev;
        i := i - 1;
      }
    }
  }

  ghost function Values<T>(elems: seq<CElement<T>>): (v: seq<T>)
    ensures |v| == |elems| && forall i :: 0 <= i < |elems| ==> v[i] == elems[i].Value
  {
    seq(|elems|, i requires 0 <= i < |elems| => elems[i].Value)
  }
}
