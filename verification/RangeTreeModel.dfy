/**
 * The interval tree as a value. A node stores one bound of its interval: the upper one if it is
 * the root or a left child, the lower one if it is a right child. Callers supply the other.
 */
module RangeTreeModel {
  import opened Basics

  /** Keys are only compared; byte strings in their usual order embed into the reals (see KeyOrder). */
  type Key = real

  datatype Tree = Leaf(ukey: Key) | Node(ukey: Key, left: Tree, right: Tree)
  {
    function Depth(): nat {
      if Leaf? then 0 else 1 + if left.Depth() > right.Depth() then left.Depth() else right.Depth()
    }
  }

  /** The bounds nest: low <= left's upper <= right's lower <= high, all the way down. */
  ghost predicate Wf(t: Tree, low: Key, high: Key) {
    low <= high &&
    (t.Node? ==> low <= t.left.ukey <= t.right.ukey <= high && Wf(t.left, low, t.left.ukey) && Wf(t.right, t.right.ukey, high))
  }

  /** The stored bound is the upper one on the left side and at the root, the lower one on the right. */
  ghost predicate Sided(t: Tree, low: Key, high: Key, isLeft: bool) {
    t.ukey == if isLeft then high else low
  }

  /** The key set: the union of the leaves' half-open intervals. */
  ghost predicate Covers(t: Tree, low: Key, high: Key, p: Key) {
    match t
    case Leaf(_) => low <= p < high
    case Node(_, l, r) => Covers(l, low, l.ukey, p) || Covers(r, r.ukey, high, p)
  }

  lemma {:induction false} CoversWithin(t: Tree, low: Key, high: Key, p: Key)
    requires Wf(t, low, high) && Covers(t, low, high, p)
    ensures low <= p < high
  {
    if t.Node? {
      if Covers(t.left, low, t.left.ukey, p) {
        CoversWithin(t.left, low, t.left.ukey, p);
      } else {
        CoversWithin(t.right, t.right.ukey, high, p);
      }
    }
  }

  // ----- search and listing -----

  predicate InRange(s: Key, u: Key, v: Key) {
    u <= s <= v
  }

  function Search(t: Tree, p: Key, low: Key, high: Key): bool {
    if t.Leaf? then low <= p < high
    else if p < t.left.ukey then Search(t.left, p, low, t.left.ukey)
    else if p >= t.right.ukey then Search(t.right, p, t.right.ukey, high)
    else false
  }

  /** Search decides membership. */
  lemma {:induction false} SearchIsMembership(t: Tree, p: Key, low: Key, high: Key)
    requires Wf(t, low, high)
    ensures Search(t, p, low, high) <==> Covers(t, low, high, p)
  {
    if t.Node? {
      SearchIsMembership(t.left, p, low, t.left.ukey);
      SearchIsMembership(t.right, p, t.right.ukey, high);
      if Covers(t.left, low, t.left.ukey, p) {
        CoversWithin(t.left, low, t.left.ukey, p);
      }
      if Covers(t.right, t.right.ukey, high, p) {
        CoversWithin(t.right, t.right.ukey, high, p);
      }
    }
  }

  datatype Interval = Interval(low: Key, high: Key)

  function Ranges(t: Tree, low: Key, high: Key): seq<Interval> {
    match t
    case Leaf(_) => [Interval(low, high)]
    case Node(_, l, r) => Ranges(l, low, l.ukey) + Ranges(r, r.ukey, high)
  }

  /** Intervals from left to right without overlap, all inside [low, high]. */
  ghost predicate Ordered(s: seq<Interval>, low: Key, high: Key) {
    (forall i :: 0 <= i < |s| ==> low <= s[i].low <= s[i].high <= high) &&
    (forall i, j :: 0 <= i < j < |s| ==> s[i].high <= s[j].low)
  }

  ghost predicate Listed(s: seq<Interval>, p: Key) {
    exists i :: 0 <= i < |s| && s[i].low <= p < s[i].high
  }

  lemma {:induction false} ListedConcat(a: seq<Interval>, b: seq<Interval>, p: Key)
    ensures Listed(a + b, p) <==> Listed(a, p) || Listed(b, p)
  {
    if i :| 0 <= i < |a| && a[i].low <= p < a[i].high {
      assert (a + b)[i] == a[i];
    }
    if j :| 0 <= j < |b| && b[j].low <= p < b[j].high {
      assert (a + b)[|a| + j] == b[j];
    }
  }

  /** The listing is ordered and lists exactly the key set. */
  lemma {:induction false} RangesListKeys(t: Tree, low: Key, high: Key)
    requires Wf(t, low, high)
    ensures Ordered(Ranges(t, low, high), low, high)
    ensures forall p :: Listed(Ranges(t, low, high), p) <==> Covers(t, low, high, p)
  {
    match t
    case Leaf(_) =>
      forall p
        ensures Listed(Ranges(t, low, high), p) <==> low <= p < high
      {
        assert Ranges(t, low, high)[0] == Interval(low, high);
      }
    case Node(_, l, r) =>
      RangesListKeys(l, low, l.ukey);
      RangesListKeys(r, r.ukey, high);
      forall p
        ensures Listed(Ranges(t, low, high), p) <==> Covers(t, low, high, p)
      {
        ListedConcat(Ranges(l, low, l.ukey), Ranges(r, r.ukey, high), p);
      }
  }

  // ----- adding a range below a node -----

  function MaxDepth(l: Tree, r: Tree): nat {
    if l.Depth() > r.Depth() then l.Depth() else r.Depth()
  }

  /** The deferred step of AddRange: two leaves that meet become one. */
  function Joined(ukey: Key, l: Tree, r: Tree): Tree {
    if l.Leaf? && r.Leaf? && l.ukey == r.ukey then Leaf(ukey) else Node(ukey, l, r)
  }

  /** The children after closing the gap between them. */
  function Closed(l: Tree, r: Tree): (Tree, Tree) {
    if l.Depth() < r.Depth() then (l.(ukey := r.ukey), r) else (l, r.(ukey := l.ukey))
  }

  /** The children after a range was put into the gap between them. */
  function Filled(l: Tree, r: Tree, lo: Key, hi: Key): (Tree, Tree) {
    if l.Depth() < r.Depth() then (Node(hi, l, Leaf(lo)), r) else (l, Node(lo, Leaf(hi), r))
  }

  /** The six cases of AddRange at an inner node: what the children become. */
  function AddKids(t: Tree, low: Key, lo: Key, hi: Key, high: Key): (Tree, Tree)
    requires t.Node?
    decreases t.Depth(), 0
  {
    var l, r := t.left, t.right;
    if InRange(lo, low, l.ukey) && InRange(hi, r.ukey, high) then
      Closed(AddNode(l, low, lo, l.ukey, l.ukey), AddNode(r, r.ukey, r.ukey, hi, high))
    else if InRange(lo, low, l.ukey) && InRange(hi, low, l.ukey) then
      (AddNode(l, low, lo, hi, l.ukey), r)
    else if InRange(lo, r.ukey, high) && InRange(hi, r.ukey, high) then
      (l, AddNode(r, r.ukey, lo, hi, high))
    else if InRange(lo, l.ukey, r.ukey) && InRange(hi, r.ukey, high) then
      (l, AddNode(r.(ukey := lo), lo, lo, hi, high))
    else if InRange(lo, low, l.ukey) && InRange(hi, l.ukey, r.ukey) then
      (AddNode(l.(ukey := hi), low, lo, hi, hi), r)
    else
      Filled(l, r, lo, hi)
  }

  function AddNode(t: Tree, low: Key, lo: Key, hi: Key, high: Key): Tree
    decreases t.Depth(), 1
  {
    if t.Leaf? then t
    else var (x, y) := AddKids(t, low, lo, hi, high); Joined(t.ukey, x, y)
  }

  /** Moving the upper bound up adds exactly the keys between the two bounds. */
  lemma {:induction false} RaiseHigh(t: Tree, low: Key, high: Key, higher: Key, p: Key, k: Key)
    requires Wf(t, low, high) && high <= higher
    ensures Wf(t.(ukey := k), low, higher)
    ensures Covers(t.(ukey := k), low, higher, p) <==> Covers(t, low, high, p) || high <= p < higher
  {
    if t.Node? {
      RaiseHigh(t.right, t.right.ukey, high, higher, p, t.right.ukey);
      assert t.right.(ukey := t.right.ukey) == t.right;
    }
  }

  /** Moving the lower bound down adds exactly the keys between the two bounds. */
  lemma {:induction false} DropLow(t: Tree, low: Key, high: Key, lower: Key, p: Key, k: Key)
    requires Wf(t, low, high) && lower <= low
    ensures Wf(t.(ukey := k), lower, high)
    ensures Covers(t.(ukey := k), lower, high, p) <==> Covers(t, low, high, p) || lower <= p < low
  {
    if t.Node? {
      DropLow(t.left, low, t.left.ukey, lower, p, t.left.ukey);
      assert t.left.(ukey := t.left.ukey) == t.left;
    }
  }

  lemma {:induction false} JoinedCovers(ukey: Key, l: Tree, r: Tree, low: Key, high: Key, p: Key)
    requires low <= l.ukey <= r.ukey <= high && Wf(l, low, l.ukey) && Wf(r, r.ukey, high)
    ensures Wf(Joined(ukey, l, r), low, high)
    ensures Covers(Joined(ukey, l, r), low, high, p) <==> Covers(l, low, l.ukey, p) || Covers(r, r.ukey, high, p)
  {
  }

  lemma {:induction false} ClosedCovers(l: Tree, r: Tree, low: Key, high: Key, p: Key)
    requires low <= l.ukey <= r.ukey <= high && Wf(l, low, l.ukey) && Wf(r, r.ukey, high)
    ensures var (x, y) := Closed(l, r);
            && low <= x.ukey <= y.ukey <= high && Wf(x, low, x.ukey) && Wf(y, y.ukey, high)
            && ((Covers(x, low, x.ukey, p) || Covers(y, y.ukey, high, p)) <==>
                (Covers(l, low, l.ukey, p) || Covers(r, r.ukey, high, p) || l.ukey <= p < r.ukey))
  {
    RaiseHigh(l, low, l.ukey, r.ukey, p, r.ukey);
    DropLow(r, r.ukey, high, l.ukey, p, l.ukey);
  }

  lemma {:induction false} FilledCovers(l: Tree, r: Tree, low: Key, lo: Key, hi: Key, high: Key, p: Key)
    requires low <= l.ukey <= lo <= hi <= r.ukey <= high && Wf(l, low, l.ukey) && Wf(r, r.ukey, high)
    ensures var (x, y) := Filled(l, r, lo, hi);
            && low <= x.ukey <= y.ukey <= high && Wf(x, low, x.ukey) && Wf(y, y.ukey, high)
            && ((Covers(x, low, x.ukey, p) || Covers(y, y.ukey, high, p)) <==>
                (Covers(l, low, l.ukey, p) || Covers(r, r.ukey, high, p) || lo <= p < hi))
  {
    assert Covers(Leaf(lo), lo, hi, p) <==> lo <= p < hi;
    assert Covers(Leaf(hi), lo, hi, p) <==> lo <= p < hi;
  }

  /**
   * Adding [lo, hi) below a node gives the old keys and the new ones, keeps the bounds nested
   * and does not touch the node's own bound.
   */
  lemma {:induction false} AddNodeCovers(t: Tree, low: Key, lo: Key, hi: Key, high: Key, p: Key)
    requires Wf(t, low, high) && low <= lo <= hi <= high
    ensures Wf(AddNode(t, low, lo, hi, high), low, high)
    ensures AddNode(t, low, lo, hi, high).ukey == t.ukey
    ensures Covers(AddNode(t, low, lo, hi, high), low, high, p) <==> Covers(t, low, high, p) || lo <= p < hi
    decreases t.Depth(), 1
  {
    if t.Node? {
      AddKidsCovers(t, low, lo, hi, high, p);
      hide AddKids;
      hide Joined;
      var kids := AddKids(t, low, lo, hi, high);
      JoinedCovers(t.ukey, kids.0, kids.1, low, high, p);
    }
  }

  lemma {:induction false} AddKidsCovers(t: Tree, low: Key, lo: Key, hi: Key, high: Key, p: Key)
    requires t.Node? && Wf(t, low, high) && low <= lo <= hi <= high
    ensures var (x, y) := AddKids(t, low, lo, hi, high);
            && low <= x.ukey <= y.ukey <= high && Wf(x, low, x.ukey) && Wf(y, y.ukey, high)
            && ((Covers(x, low, x.ukey, p) || Covers(y, y.ukey, high, p)) <==> Covers(t, low, high, p) || lo <= p < hi)
    decreases t.Depth(), 0
  {
    hide Closed;
    hide Filled;
    hide AddNode;
    var l, r := t.left, t.right;
    if InRange(lo, low, l.ukey) && InRange(hi, r.ukey, high) {
      AddNodeCovers(l, low, lo, l.ukey, l.ukey, p);
      AddNodeCovers(r, r.ukey, r.ukey, hi, high, p);
      ClosedCovers(AddNode(l, low, lo, l.ukey, l.ukey), AddNode(r, r.ukey, r.ukey, hi, high), low, high, p);
    } else if InRange(lo, low, l.ukey) && InRange(hi, low, l.ukey) {
      AddNodeCovers(l, low, lo, hi, l.ukey, p);
    } else if InRange(lo, r.ukey, high) && InRange(hi, r.ukey, high) {
      AddNodeCovers(r, r.ukey, lo, hi, high, p);
    } else if InRange(lo, l.ukey, r.ukey) && InRange(hi, r.ukey, high) {
      DropLow(r, r.ukey, high, lo, p, lo);
      assert r.(ukey := lo).Depth() == r.Depth();
      AddNodeCovers(r.(ukey := lo), lo, lo, hi, high, p);
    } else if InRange(lo, low, l.ukey) && InRange(hi, l.ukey, r.ukey) {
      RaiseHigh(l, low, l.ukey, hi, p, hi);
      AddNodeCovers(l.(ukey := hi), low, lo, hi, hi, p);
    } else {
      FilledCovers(l, r, low, lo, hi, high, p);
    }
  }

  // ----- deleting a range below a node -----

  /** What remains of a node, and the bounds of what remains. */
  datatype Cut = Cut(node: Option<Tree>, low: Key, high: Key)

  /** Re-assembles a node after its children were cut; isLeft tells which bound the node stores. */
  function Reassemble(l: Option<Tree>, r: Option<Tree>, low: Key, high: Key, isLeft: bool): Cut {
    match (l, r)
    case (None, None) => Cut(None, low, high)
    case (Some(a), Some(b)) => Cut(Some(Node(if isLeft then high else low, a, b)), low, high)
    case (Some(a), None) =>
      if isLeft then Cut(Some(a), low, a.ukey) else Cut(Some(a.(ukey := low)), low, a.ukey)
    case (None, Some(b)) =>
      if isLeft then Cut(Some(b.(ukey := high)), b.ukey, high) else Cut(Some(b), b.ukey, high)
  }

  function DeleteLeaf(t: Tree, low: Key, lo: Key, hi: Key, high: Key): Cut
    requires t.Leaf?
  {
    if hi == high then Cut(Some(if t.ukey == high then Leaf(lo) else t), low, lo)
    else if lo == low then Cut(Some(if t.ukey == low then Leaf(hi) else t), hi, high)
    else Cut(Some(Node(t.ukey, Leaf(lo), Leaf(hi))), low, high)
  }

  /** The overlap cases of DeleteRange at an inner node: what the children become, with their bounds. */
  function DeleteKids(t: Tree, low: Key, lo: Key, hi: Key, high: Key): (Cut, Cut)
    requires t.Node?
    decreases t, 0
  {
    var l, r := t.left, t.right;
    var x, y := Cut(Some(l), low, l.ukey), Cut(Some(r), r.ukey, high);
    if InRange(lo, low, l.ukey) && InRange(hi, r.ukey, high) then
      (DeleteNode(l, low, lo, l.ukey, l.ukey), DeleteNode(r, r.ukey, r.ukey, hi, high))
    else if InRange(lo, low, l.ukey) && InRange(hi, low, l.ukey) then
      (DeleteNode(l, low, lo, hi, l.ukey), y)
    else if InRange(lo, r.ukey, high) && InRange(hi, r.ukey, high) then
      (x, DeleteNode(r, r.ukey, lo, hi, high))
    else if InRange(lo, l.ukey, r.ukey) && InRange(hi, r.ukey, high) then
      (x, DeleteNode(r, r.ukey, r.ukey, hi, high))
    else if InRange(lo, low, l.ukey) && InRange(hi, l.ukey, r.ukey) then
      (DeleteNode(l, low, lo, l.ukey, l.ukey), y)
    else
      (x, y)
  }

  function DeleteNode(t: Tree, low: Key, lo: Key, hi: Key, high: Key): Cut
    decreases t, 1
  {
    if lo == low && hi == high then Cut(None, low, high)
    else if lo == hi then Cut(Some(t), low, high)
    else if t.Leaf? then DeleteLeaf(t, low, lo, hi, high)
    else var (x, y) := DeleteKids(t, low, lo, hi, high); Reassemble(x.node, y.node, x.low, y.high, t.ukey == high)
  }

  /** The keys of what a cut left. */
  ghost predicate CutCovers(c: Cut, p: Key) {
    c.node.Some? && Covers(c.node.value, c.low, c.high, p)
  }

  /** What a cut left is nested and still stores the bound of its side. */
  ghost predicate CutWf(c: Cut, low: Key, high: Key, isLeft: bool) {
    c.node.Some? ==> low <= c.low <= c.high <= high && Wf(c.node.value, c.low, c.high) && Sided(c.node.value, c.low, c.high, isLeft)
  }

  /** Re-assembly keeps the keys of both cuts, through promotion of an only child as well. */
  lemma {:induction false} ReassembleCovers(x: Cut, y: Cut, low: Key, mid: Key, mid': Key, high: Key, isLeft: bool, p: Key)
    requires low <= mid <= mid' <= high
    requires CutWf(x, low, mid, true) && CutWf(y, mid', high, false)
    ensures var c := Reassemble(x.node, y.node, x.low, y.high, isLeft);
            CutWf(c, low, high, isLeft) && (CutCovers(c, p) <==> CutCovers(x, p) || CutCovers(y, p))
  {
    if x.node.Some? && y.node.None? {
      RaiseHigh(x.node.value, x.low, x.high, x.high, p, x.low);
    }
    if x.node.None? && y.node.Some? {
      DropLow(y.node.value, y.low, y.high, y.low, p, y.high);
    }
  }

  lemma {:induction false} DeleteLeafCovers(t: Tree, low: Key, lo: Key, hi: Key, high: Key, isLeft: bool, p: Key)
    requires t.Leaf? && Sided(t, low, high, isLeft) && low <= lo < hi <= high && !(lo == low && hi == high)
    ensures var c := DeleteLeaf(t, low, lo, hi, high);
            CutWf(c, low, high, isLeft) && (CutCovers(c, p) <==> low <= p < high && !(lo <= p < hi))
  {
    assert Covers(Leaf(lo), low, lo, p) <==> low <= p < lo;
    assert Covers(Leaf(hi), hi, high, p) <==> hi <= p < high;
  }

  /**
   * Deleting [lo, hi) below a node leaves exactly the other keys; what remains, a promoted child
   * included, is nested and stores the bound of the node's side.
   */
  lemma {:induction false} DeleteNodeCovers(t: Tree, low: Key, lo: Key, hi: Key, high: Key, isLeft: bool, p: Key)
    requires Wf(t, low, high) && Sided(t, low, high, isLeft) && low <= lo <= hi <= high
    ensures var c := DeleteNode(t, low, lo, hi, high);
            CutWf(c, low, high, isLeft) && (CutCovers(c, p) <==> Covers(t, low, high, p) && !(lo <= p < hi))
    decreases t, 1
  {
    if Covers(t, low, high, p) {
      CoversWithin(t, low, high, p);
    }
    if lo == low && hi == high {
    } else if lo == hi {
    } else if t.Leaf? {
      DeleteLeafCovers(t, low, lo, hi, high, isLeft, p);
    } else {
      DeleteInner(t, low, lo, hi, high, isLeft, p);
    }
  }

  lemma {:induction false} DeleteInner(t: Tree, low: Key, lo: Key, hi: Key, high: Key, isLeft: bool, p: Key)
    requires t.Node? && Wf(t, low, high) && Sided(t, low, high, isLeft) && low <= lo < hi <= high && !(lo == low && hi == high)
    ensures var c := DeleteNode(t, low, lo, hi, high);
            CutWf(c, low, high, isLeft) && (CutCovers(c, p) <==> Covers(t, low, high, p) && !(lo <= p < hi))
    decreases t, 0, 1
  {
    DeleteKidsCovers(t, low, lo, hi, high, p);
    var kids := DeleteKids(t, low, lo, hi, high);
    hide DeleteKids;
    hide Reassemble;
    hide CutWf;
    hide CutCovers;
    ReassembleCovers(kids.0, kids.1, low, t.left.ukey, t.right.ukey, high, isLeft, p);
  }

  lemma {:induction false} DeleteKidsCovers(t: Tree, low: Key, lo: Key, hi: Key, high: Key, p: Key)
    requires t.Node? && Wf(t, low, high) && low <= lo < hi <= high
    ensures var (x, y) := DeleteKids(t, low, lo, hi, high);
            && CutWf(x, low, t.left.ukey, true) && CutWf(y, t.right.ukey, high, false)
            && (CutCovers(x, p) || CutCovers(y, p) <==> Covers(t, low, high, p) && !(lo <= p < hi))
    decreases t, 0, 0
  {
    hide DeleteNode;
    var l, r := t.left, t.right;
    if Covers(l, low, l.ukey, p) {
      CoversWithin(l, low, l.ukey, p);
    }
    if Covers(r, r.ukey, high, p) {
      CoversWithin(r, r.ukey, high, p);
    }
    if InRange(lo, low, l.ukey) && InRange(hi, r.ukey, high) {
      DeleteNodeCovers(l, low, lo, l.ukey, l.ukey, true, p);
      DeleteNodeCovers(r, r.ukey, r.ukey, hi, high, false, p);
    } else if InRange(lo, low, l.ukey) && InRange(hi, low, l.ukey) {
      DeleteNodeCovers(l, low, lo, hi, l.ukey, true, p);
    } else if InRange(lo, r.ukey, high) && InRange(hi, r.ukey, high) {
      DeleteNodeCovers(r, r.ukey, lo, hi, high, false, p);
    } else if InRange(lo, l.ukey, r.ukey) && InRange(hi, r.ukey, high) {
      DeleteNodeCovers(r, r.ukey, r.ukey, hi, high, false, p);
    } else if InRange(lo, low, l.ukey) && InRange(hi, l.ukey, r.ukey) {
      DeleteNodeCovers(l, low, lo, l.ukey, l.ukey, true, p);
    }
  }

  // ----- the tree as a whole -----

  /** The tree object: the outer bounds and the root, if any. */
  datatype Forest = Forest(start: Key, end: Key, root: Option<Tree>)

  ghost predicate ForestWf(f: Forest) {
    f.root.Some? ==> Wf(f.root.value, f.start, f.end) && Sided(f.root.value, f.start, f.end, true)
  }

  ghost predicate Has(f: Forest, p: Key) {
    f.root.Some? && Covers(f.root.value, f.start, f.end, p)
  }

  predicate SearchForest(f: Forest, p: Key) {
    f.root.Some? && Search(f.root.value, p, f.start, f.end)
  }

  function RangesOf(f: Forest): seq<Interval> {
    if f.root.None? then [] else Ranges(f.root.value, f.start, f.end)
  }

  function AddRange(f: Forest, lo: Key, hi: Key): Forest {
    if hi < lo then f
    else if f.root.None? then Forest(lo, hi, Some(Leaf(hi)))
    else if hi < f.start then Forest(lo, f.end, Some(Node(f.end, Leaf(hi), f.root.value.(ukey := f.start))))
    else if lo > f.end then Forest(f.start, hi, Some(Node(hi, f.root.value, Leaf(lo))))
    else
      var end := if hi > f.end then hi else f.end;
      var start := if lo < f.start then lo else f.start;
      var root := if hi > f.end then f.root.value.(ukey := hi) else f.root.value;
      Forest(start, end, Some(AddNode(root, start, lo, hi, end)))
  }

  /** AddRange unites the key set with [lo, hi). */
  lemma {:induction false} AddRangeUnites(f: Forest, lo: Key, hi: Key, p: Key)
    requires ForestWf(f)
    ensures ForestWf(AddRange(f, lo, hi))
    ensures Has(AddRange(f, lo, hi), p) <==> Has(f, p) || lo <= p < hi
  {
    hide AddNode;
    if f.root.Some? && lo <= hi {
      var t := f.root.value;
      if hi < f.start {
        assert Covers(Leaf(hi), lo, hi, p) <==> lo <= p < hi;
        assert Wf(Leaf(hi), lo, hi);
        DropLow(t, f.start, f.end, f.start, p, f.start);
        assert Covers(AddRange(f, lo, hi).root.value, lo, f.end, p)
               <==> Covers(Leaf(hi), lo, hi, p) || Covers(t.(ukey := f.start), f.start, f.end, p);
      } else if lo > f.end {
        assert Covers(Leaf(lo), lo, hi, p) <==> lo <= p < hi;
        assert Wf(Leaf(lo), lo, hi) && f.start <= f.end;
        assert t.ukey == f.end && Wf(t, f.start, t.ukey);
        assert Wf(Node(hi, t, Leaf(lo)), f.start, hi);
      } else {
        var end := if hi > f.end then hi else f.end;
        var start := if lo < f.start then lo else f.start;
        RaiseHigh(t, f.start, f.end, end, p, end);
        DropLow(t.(ukey := end), f.start, end, start, p, end);
        AddNodeCovers(t.(ukey := end), start, lo, hi, end, p);
      }
    }
  }

  function DeleteRange(f: Forest, lo: Key, hi: Key): Forest {
    if hi < lo || f.root.None? then f
    else if hi < f.start || lo > f.end then f
    else
      var c := DeleteNode(f.root.value, f.start, if lo < f.start then f.start else lo, if hi > f.end then f.end else hi, f.end);
      Forest(c.low, c.high, c.node)
  }

  /** DeleteRange removes exactly [lo, hi). */
  lemma {:induction false} DeleteRangeRemoves(f: Forest, lo: Key, hi: Key, p: Key)
    requires ForestWf(f)
    ensures ForestWf(DeleteRange(f, lo, hi))
    ensures Has(DeleteRange(f, lo, hi), p) <==> Has(f, p) && !(lo <= p < hi)
  {
    hide DeleteNode;
    if Has(f, p) {
      CoversWithin(f.root.value, f.start, f.end, p);
    }
    if lo <= hi && f.root.Some? && f.start <= hi && lo <= f.end {
      DeleteNodeCovers(f.root.value, f.start, if lo < f.start then f.start else lo, if hi > f.end then f.end else hi, f.end, true, p);
    }
  }

  /** Adding the first n of a list of intervals. */
  function AddIntervals(f: Forest, s: seq<Interval>, n: nat): Forest
    requires n <= |s|
  {
    if n == 0 then f else AddRange(AddIntervals(f, s, n - 1), s[n - 1].low, s[n - 1].high)
  }

  lemma {:induction false} AddIntervalsUnites(f: Forest, s: seq<Interval>, n: nat, p: Key)
    requires ForestWf(f) && n <= |s|
    ensures ForestWf(AddIntervals(f, s, n))
    ensures Has(AddIntervals(f, s, n), p) <==> Has(f, p) || Listed(s[..n], p)
  {
    if n > 0 {
      AddIntervalsUnites(f, s, n - 1, p);
      AddRangeUnites(AddIntervals(f, s, n - 1), s[n - 1].low, s[n - 1].high, p);
      assert s[..n] == s[..n - 1] + [s[n - 1]];
      ListedConcat(s[..n - 1], [s[n - 1]], p);
      assert Listed([s[n - 1]], p) <==> s[n - 1].low <= p < s[n - 1].high by {
        assert [s[n - 1]][0] == s[n - 1];
      }
    }
  }

  function AddForest(f: Forest, other: Forest): Forest {
    AddIntervals(f, RangesOf(other), |RangesOf(other)|)
  }

  /** The listing of a tree is ordered, inside the outer bounds, and lists exactly its keys. */
  lemma {:induction false} RangesOfLists(f: Forest)
    requires ForestWf(f)
    ensures Ordered(RangesOf(f), f.start, f.end)
    ensures forall p :: Listed(RangesOf(f), p) <==> Has(f, p)
  {
    if f.root.Some? {
      RangesListKeys(f.root.value, f.start, f.end);
    }
  }

  /** Add computes the union of two trees. */
  lemma {:induction false} AddForestUnites(f: Forest, other: Forest, p: Key)
    requires ForestWf(f) && ForestWf(other)
    ensures ForestWf(AddForest(f, other))
    ensures Has(AddForest(f, other), p) <==> Has(f, p) || Has(other, p)
  {
    RangesOfLists(other);
    var s := RangesOf(other);
    AddIntervalsUnites(f, s, |s|, p);
    assert s[..|s|] == s;
  }

  // ----- histories -----

  datatype Op = AddOp(lo: Key, hi: Key) | DeleteOp(lo: Key, hi: Key)

  /** The tree after a history that starts from the empty tree. */
  function After(ops: seq<Op>): Forest {
    if ops == [] then Forest(0.0, 0.0, None)
    else var f := After(ops[..|ops| - 1]);
      match ops[|ops| - 1]
      case AddOp(lo, hi) => AddRange(f, lo, hi)
      case DeleteOp(lo, hi) => DeleteRange(f, lo, hi)
  }

  /** The key set a history means: a key is in if the last operation on its range added it. */
  ghost predicate Meant(ops: seq<Op>, p: Key) {
    ops != [] &&
    var op := ops[|ops| - 1];
    if op.lo <= p < op.hi then op.AddOp? else Meant(ops[..|ops| - 1], p)
  }

  /** Over any history, Search answers what the history means, and the bounds stay nested. */
  lemma {:induction false} HistoryIsMeant(ops: seq<Op>, p: Key)
    ensures ForestWf(After(ops))
    ensures Has(After(ops), p) <==> Meant(ops, p)
    ensures SearchForest(After(ops), p) <==> Meant(ops, p)
  {
    hide AddRange;
    hide DeleteRange;
    if ops != [] {
      var rest, op := ops[..|ops| - 1], ops[|ops| - 1];
      HistoryIsMeant(rest, p);
      if op.AddOp? {
        AddRangeUnites(After(rest), op.lo, op.hi, p);
      } else {
        DeleteRangeRemoves(After(rest), op.lo, op.hi, p);
      }
    }
    if After(ops).root.Some? {
      SearchIsMembership(After(ops).root.value, p, After(ops).start, After(ops).end);
    }
  }
}
