/** The mutable interval tree: nodes linked by pointers, bounds rewritten in place. */
module RangeTrees {
  import opened Basics
  import opened RangeTreeModel

  class RangeTreeNode {
    var Ukey: Key
    var LeftChild: RangeTreeNode?
    var RightChild: RangeTreeNode?
    var depth: nat

    ghost var Repr: set<object>
    ghost var tree: Tree

    /** The node and everything below it form the tree value `tree`. */
    ghost predicate Valid()
      reads this, Repr
      decreases Repr
    {
      this in Repr && depth == tree.Depth() && Ukey == tree.ukey &&
      (if LeftChild == null then RightChild == null && tree == Leaf(Ukey)
       else LeftChild in Repr && LeftChild.Repr <= Repr - {this} &&
            RightChild != null && RightChild in Repr && RightChild.Repr <= Repr - {this} &&
            LeftChild.Repr !! RightChild.Repr && LeftChild.Valid() && RightChild.Valid() &&
            tree == Node(Ukey, LeftChild.tree, RightChild.tree))
    }

    constructor NewLeaf(ukey: Key)
      ensures Valid() && fresh(Repr) && Repr == {this}
      ensures tree == Tree.Leaf(ukey)
    {
      Ukey, LeftChild, RightChild, depth := ukey, null, null, 0;
      Repr, tree := {this}, Tree.Leaf(ukey);
    }

    /** A new inner node over two existing trees. */
    constructor NewInner(ukey: Key, left: RangeTreeNode, right: RangeTreeNode, d: nat)
      requires left.Valid() && right.Valid() && left.Repr !! right.Repr
      requires d == 1 + MaxDepth(left.tree, right.tree)
      ensures Valid() && fresh(Repr - left.Repr - right.Repr) && Repr == {this} + left.Repr + right.Repr
      ensures tree == Node(ukey, left.tree, right.tree)
    {
      Ukey, LeftChild, RightChild, depth := ukey, left, right, d;
      Repr, tree := {this} + left.Repr + right.Repr, Node(ukey, left.tree, right.tree);
    }

    predicate IsLeaf()
      reads this
    {
      LeftChild == null
    }

    method SetUkey(k: Key)
      requires Valid()
      modifies this`Ukey, this`tree
      ensures Valid() && tree == old(tree).(ukey := k)
    {
      Ukey := k;
      tree := tree.(ukey := k);
    }

    method Search(p: Key, low: Key, high: Key) returns (found: bool)
      requires Valid()
      ensures found == RangeTreeModel.Search(tree, p, low, high)
      decreases Repr
    {
      if IsLeaf() {
        return low <= p < high;
      }
      if p < LeftChild.Ukey {
        found := LeftChild.Search(p, low, LeftChild.Ukey);
      } else if p >= RightChild.Ukey {
        found := RightChild.Search(p, RightChild.Ukey, high);
      } else {
        found := false;
      }
    }

    method Range(outputList: seq<Interval>, start: Key, end: Key) returns (r: seq<Interval>)
      requires Valid()
      ensures r == outputList + Ranges(tree, start, end)
      decreases Repr
    {
      if IsLeaf() {
        return outputList + [Interval(start, end)];
      }
      r := LeftChild.Range(outputList, start, LeftChild.Ukey);
      r := RightChild.Range(r, RightChild.Ukey, end);
    }

    /** Two valid children, whatever the node itself records. */
    ghost predicate Kids()
      reads this, LeftChild, RightChild, if LeftChild != null then LeftChild.Repr else {}, if RightChild != null then RightChild.Repr else {}
    {
      && LeftChild != null && RightChild != null
      && LeftChild.Valid() && RightChild.Valid()
      && LeftChild.Repr !! RightChild.Repr && this !in LeftChild.Repr && this !in RightChild.Repr
    }

    /** The deferred step of AddRange. */
    method Finish()
      requires Kids()
      modifies this
      ensures Valid() && Repr <= {this} + old(LeftChild.Repr) + old(RightChild.Repr)
      ensures tree == Joined(old(Ukey), old(LeftChild.tree), old(RightChild.tree))
    {
      if LeftChild.IsLeaf() && RightChild.IsLeaf() && LeftChild.Ukey == RightChild.Ukey {
        LeftChild, RightChild := null, null;
        depth := 0;
        Repr, tree := {this}, Tree.Leaf(Ukey);
        return;
      }
      var ld, rd := LeftChild.depth, RightChild.depth;
      depth := if ld > rd then ld + 1 else rd + 1;
      Repr, tree := {this} + LeftChild.Repr + RightChild.Repr, Node(Ukey, LeftChild.tree, RightChild.tree);
    }

    /** The gap between the children is closed from the shallower side. */
    method CloseGap()
      requires Kids()
      modifies LeftChild, RightChild
      ensures Kids() && LeftChild == old(LeftChild) && RightChild == old(RightChild)
      ensures LeftChild.Repr == old(LeftChild.Repr) && RightChild.Repr == old(RightChild.Repr)
      ensures (LeftChild.tree, RightChild.tree) == Closed(old(LeftChild.tree), old(RightChild.tree))
    {
      if LeftChild.depth < RightChild.depth {
        LeftChild.SetUkey(RightChild.Ukey);
      } else {
        RightChild.SetUkey(LeftChild.Ukey);
      }
    }

    /** A range inside the gap becomes a new leaf on the shallower side. */
    method FillGap(lo: Key, hi: Key)
      requires Kids()
      modifies this
      ensures Kids() && Ukey == old(Ukey)
      ensures fresh(LeftChild.Repr + RightChild.Repr - old(LeftChild.Repr) - old(RightChild.Repr))
      ensures (LeftChild.tree, RightChild.tree) == Filled(old(LeftChild.tree), old(RightChild.tree), lo, hi)
    {
      if LeftChild.depth < RightChild.depth {
        var newRight := new RangeTreeNode.NewLeaf(lo);
        LeftChild := new RangeTreeNode.NewInner(hi, LeftChild, newRight, LeftChild.depth + 1);
      } else {
        var newLeft := new RangeTreeNode.NewLeaf(hi);
        RightChild := new RangeTreeNode.NewInner(lo, newLeft, RightChild, RightChild.depth + 1);
      }
    }

    method AddRange(low: Key, lo: Key, hi: Key, high: Key)
      requires Valid() && Wf(tree, low, high) && low <= lo <= hi <= high
      modifies Repr
      ensures Valid() && fresh(Repr - old(Repr))
      ensures tree == AddNode(old(tree), low, lo, hi, high)
      decreases Repr
    {
      if IsLeaf() {
        return;
      }
      AddToKids(low, lo, hi, high);
      Finish();
    }

    /** The six overlap cases; one of them always applies. */
    method AddToKids(low: Key, lo: Key, hi: Key, high: Key)
      requires Valid() && !IsLeaf() && Wf(tree, low, high) && low <= lo <= hi <= high
      modifies Repr
      ensures Kids() && Ukey == old(Ukey)
      ensures fresh(LeftChild.Repr + RightChild.Repr - old(Repr))
      ensures (LeftChild.tree, RightChild.tree) == AddKids(old(tree), low, lo, hi, high)
      decreases Repr, 0
    {
      hide AddNode;
      hide Joined;
      hide Closed;
      hide Filled;
      if InRange(lo, low, LeftChild.Ukey) && InRange(hi, RightChild.Ukey, high) {
        LeftChild.AddRange(low, lo, LeftChild.Ukey, LeftChild.Ukey);
        RightChild.AddRange(RightChild.Ukey, RightChild.Ukey, hi, high);
        CloseGap();
      } else if InRange(lo, low, LeftChild.Ukey) && InRange(hi, low, LeftChild.Ukey) {
        LeftChild.AddRange(low, lo, hi, LeftChild.Ukey);
      } else if InRange(lo, RightChild.Ukey, high) && InRange(hi, RightChild.Ukey, high) {
        RightChild.AddRange(RightChild.Ukey, lo, hi, high);
      } else if InRange(lo, LeftChild.Ukey, RightChild.Ukey) && InRange(hi, RightChild.Ukey, high) {
        DropLow(RightChild.tree, RightChild.Ukey, high, lo, lo, lo);
        RightChild.SetUkey(lo);
        RightChild.AddRange(lo, lo, hi, high);
      } else if InRange(lo, low, LeftChild.Ukey) && InRange(hi, LeftChild.Ukey, RightChild.Ukey) {
        RaiseHigh(LeftChild.tree, low, LeftChild.Ukey, hi, hi, hi);
        LeftChild.SetUkey(hi);
        LeftChild.AddRange(low, lo, hi, hi);
      } else if InRange(lo, LeftChild.Ukey, RightChild.Ukey) && InRange(hi, LeftChild.Ukey, RightChild.Ukey) {
        FillGap(lo, hi);
      } else {
        assert false;
      }
    }

    /** Children that may have been deleted. */
    ghost predicate Halves()
      reads this, LeftChild, RightChild, if LeftChild != null then LeftChild.Repr else {}, if RightChild != null then RightChild.Repr else {}
    {
      && (LeftChild != null ==> LeftChild.Valid() && this !in LeftChild.Repr)
      && (RightChild != null ==> RightChild.Valid() && this !in RightChild.Repr)
      && (LeftChild != null && RightChild != null ==> LeftChild.Repr !! RightChild.Repr)
    }

    ghost function Below(): set<object>
      reads this, LeftChild, RightChild
    {
      ReprOf(LeftChild) + ReprOf(RightChild)
    }

    /** A leaf loses one end or splits in two. */
    method DeleteFromLeaf(low: Key, lo: Key, hi: Key, high: Key) returns (newLow: Key, newHigh: Key)
      requires Valid() && IsLeaf()
      modifies this
      ensures Valid() && fresh(Repr - old(Repr))
      ensures Cut(Some(tree), newLow, newHigh) == DeleteLeaf(old(tree), low, lo, hi, high)
    {
      if hi == high {
        if Ukey == high {
          SetUkey(lo);
        }
        return low, lo;
      }
      if lo == low {
        if Ukey == low {
          SetUkey(hi);
        }
        return hi, high;
      }
      LeftChild := new RangeTreeNode.NewLeaf(lo);
      RightChild := new RangeTreeNode.NewLeaf(hi);
      depth := depth + 1;
      Repr, tree := {this} + LeftChild.Repr + RightChild.Repr, Node(Ukey, LeftChild.tree, RightChild.tree);
      return low, high;
    }

    /**
     * The end of DeleteRange: the node stores its new bound, or hands over to an only child.
     * The node's own key is always one of the two bounds, so the panic is not reached.
     */
    method Settle(low: Key, high: Key, leftRange: Key, rightRange: Key)
      returns (node: RangeTreeNode?, newLow: Key, newHigh: Key)
      requires Halves() && (Ukey == high || Ukey == low)
      modifies this, LeftChild, RightChild
      ensures node != null ==> node.Valid() && node.Repr <= {this} + old(Below())
      ensures Cut(TreeOf(node), newLow, newHigh)
              == Reassemble(old(TreeOf(LeftChild)), old(TreeOf(RightChild)), leftRange, rightRange, old(Ukey) == high)
    {
      if LeftChild == null && RightChild == null {
        return null, leftRange, rightRange;
      }
      var isLeft: bool;
      if Ukey == high {
        Ukey := rightRange;
        isLeft := true;
      } else if Ukey == low {
        Ukey := leftRange;
        isLeft := false;
      } else {
        assert false;
      }
      if LeftChild != null && RightChild != null {
        depth := if LeftChild.depth > RightChild.depth then LeftChild.depth + 1 else RightChild.depth + 1;
        Repr, tree := {this} + LeftChild.Repr + RightChild.Repr, Node(Ukey, LeftChild.tree, RightChild.tree);
        return this, leftRange, rightRange;
      }
      if LeftChild != null {
        if isLeft {
          return LeftChild, leftRange, LeftChild.Ukey;
        }
        newHigh := LeftChild.Ukey;
        LeftChild.SetUkey(leftRange);
        return LeftChild, leftRange, newHigh;
      } else {
        if isLeft {
          newLow := RightChild.Ukey;
          RightChild.SetUkey(rightRange);
          return RightChild, newLow, rightRange;
        }
        return RightChild, RightChild.Ukey, rightRange;
      }
    }

    method DeleteRange(low: Key, lo: Key, hi: Key, high: Key) returns (node: RangeTreeNode?, newLow: Key, newHigh: Key)
      requires Valid() && Wf(tree, low, high) && (Ukey == low || Ukey == high) && low <= lo <= hi <= high
      modifies Repr
      ensures node != null ==> node.Valid() && fresh(node.Repr - old(Repr))
      ensures Cut(TreeOf(node), newLow, newHigh) == DeleteNode(old(tree), low, lo, hi, high)
      decreases Repr, 1
    {
      if lo == low && hi == high {
        return null, low, high;
      }
      if lo == hi {
        return this, low, high;
      }
      if IsLeaf() {
        newLow, newHigh := DeleteFromLeaf(low, lo, hi, high);
        return this, newLow, newHigh;
      }
      var leftRange, rightRange := DeleteFromKids(low, lo, hi, high);
      node, newLow, newHigh := Settle(low, high, leftRange, rightRange);
    }

    /** The left child keeps what lies outside the range. */
    method CutLeft(low: Key, lo: Key, hi: Key) returns (leftRange: Key)
      requires Halves() && LeftChild != null && Wf(LeftChild.tree, low, LeftChild.Ukey) && low <= lo <= hi <= LeftChild.Ukey
      modifies this`LeftChild, LeftChild.Repr
      ensures Halves() && fresh(ReprOf(LeftChild) - old(LeftChild.Repr))
      ensures RightChild != null ==> RightChild.Repr == old(RightChild.Repr) && RightChild.tree == old(RightChild.tree)
      ensures var c := DeleteNode(old(LeftChild.tree), low, lo, hi, old(LeftChild.Ukey));
              TreeOf(LeftChild) == c.node && leftRange == c.low
      decreases LeftChild.Repr, 2
    {
      hide DeleteNode;
      hide Wf;
      var x;
      LeftChild, leftRange, x := LeftChild.DeleteRange(low, lo, hi, LeftChild.Ukey);
    }

    /** The right child keeps what lies outside the range. */
    method CutRight(lo: Key, hi: Key, high: Key) returns (rightRange: Key)
      requires Halves() && RightChild != null && Wf(RightChild.tree, RightChild.Ukey, high) && RightChild.Ukey <= lo <= hi <= high
      modifies this`RightChild, RightChild.Repr
      ensures Halves() && fresh(ReprOf(RightChild) - old(RightChild.Repr))
      ensures LeftChild != null ==> LeftChild.Repr == old(LeftChild.Repr) && LeftChild.tree == old(LeftChild.tree)
      ensures var c := DeleteNode(old(RightChild.tree), old(RightChild.Ukey), lo, hi, high);
              TreeOf(RightChild) == c.node && rightRange == c.high
      decreases RightChild.Repr, 2
    {
      hide DeleteNode;
      hide Wf;
      var y;
      RightChild, y, rightRange := RightChild.DeleteRange(RightChild.Ukey, lo, hi, high);
    }

    /** The overlap cases: which child is cut, and where. */
    method DeleteFromKids(low: Key, lo: Key, hi: Key, high: Key) returns (leftRange: Key, rightRange: Key)
      requires Valid() && !IsLeaf() && Wf(tree, low, high) && low <= lo < hi <= high && !(lo == low && hi == high)
      modifies Repr
      ensures Halves() && Ukey == old(Ukey) && fresh(Below() - old(Repr))
      ensures var (x, y) := DeleteKids(old(tree), low, lo, hi, high);
              TreeOf(LeftChild) == x.node && TreeOf(RightChild) == y.node && leftRange == x.low && rightRange == y.high
      decreases Repr, 0
    {
      hide DeleteNode;
      leftRange, rightRange := low, high;
      var l, r := LeftChild.Ukey, RightChild.Ukey;
      if InRange(lo, low, l) && InRange(hi, r, high) {
        leftRange := CutLeft(low, lo, l);
        rightRange := CutRight(r, hi, high);
      } else if InRange(lo, low, l) && InRange(hi, low, l) {
        leftRange := CutLeft(low, lo, hi);
      } else if InRange(lo, r, high) && InRange(hi, r, high) {
        rightRange := CutRight(lo, hi, high);
      } else if InRange(lo, l, r) && InRange(hi, r, high) {
        rightRange := CutRight(r, hi, high);
      } else if InRange(lo, low, l) && InRange(hi, l, r) {
        leftRange := CutLeft(low, lo, l);
      }
    }
  }

  ghost function TreeOf(node: RangeTreeNode?): Option<Tree>
    reads node
  {
    if node == null then None else Some(node.tree)
  }

  ghost function ReprOf(node: RangeTreeNode?): set<object>
    reads node
  {
    if node == null then {} else node.Repr
  }

  class RangeTree {
    var start: Key
    var end: Key
    var root: RangeTreeNode?

    /** The tree as a value. */
    ghost function Model(): Forest
      reads this, root
    {
      Forest(start, end, TreeOf(root))
    }

    ghost function Footprint(): set<object>
      reads this, root
    {
      {this} + ReprOf(root)
    }

    ghost predicate Valid()
      reads this, root, ReprOf(root)
    {
      (root != null ==> root.Valid() && this !in root.Repr) && ForestWf(Model())
    }

    /** The key set. */
    ghost predicate Holds(p: Key)
      reads this, root
    {
      Has(Model(), p)
    }

    constructor ()
      ensures Valid() && fresh(Footprint())
      ensures Model() == After([])
    {
      start, end, root := 0.0, 0.0, null;
    }

    method Search(p: Key) returns (found: bool)
      requires Valid()
      ensures found == Holds(p)
    {
      if root == null {
        return false;
      }
      SearchIsMembership(root.tree, p, start, end);
      found := root.Search(p, start, end);
    }

    /** The listing is ordered, lies inside the outer bounds and lists exactly the held keys. */
    method Range() returns (r: seq<Interval>)
      requires Valid()
      ensures r == RangesOf(Model())
      ensures Ordered(r, start, end)
      ensures forall p :: Listed(r, p) <==> Holds(p)
    {
      RangesOfLists(Model());
      if root == null {
        return [];
      }
      r := root.Range([], start, end);
    }

    method AddRange(lo: Key, hi: Key)
      requires Valid()
      modifies Footprint()
      ensures Valid() && fresh(Footprint() - old(Footprint()))
      ensures Model() == RangeTreeModel.AddRange(old(Model()), lo, hi)
      ensures forall p :: Holds(p) <==> old(Holds(p)) || lo <= p < hi
    {
      AddRangeUnites(Model(), lo, hi, lo);
      forall p
        ensures Has(RangeTreeModel.AddRange(Model(), lo, hi), p) <==> Holds(p) || lo <= p < hi
      {
        AddRangeUnites(Model(), lo, hi, p);
      }
      AddRangeInPlace(lo, hi);
    }

    method AddRangeInPlace(lo: Key, hi: Key)
      requires Valid()
      modifies Footprint()
      ensures root != null ==> root.Valid() && this !in root.Repr
      ensures fresh(Footprint() - old(Footprint()))
      ensures Model() == RangeTreeModel.AddRange(old(Model()), lo, hi)
    {
      hide AddNode;
      hide ForestWf;
      if hi < lo {
        return;
      }
      if root == null {
        start, end := lo, hi;
        root := new RangeTreeNode.NewLeaf(end);
        return;
      }
      if hi < start {
        AddBefore(lo, hi);
      } else if lo > end {
        AddAfter(lo, hi);
      } else {
        AddOverlapping(lo, hi);
      }
    }

    /** The range lies before all keys: the old root becomes the right child of a new one. */
    method AddBefore(lo: Key, hi: Key)
      requires root != null && root.Valid() && this !in root.Repr && lo <= hi < start
      modifies Footprint()
      ensures root != null && root.Valid() && this !in root.Repr
      ensures fresh(Footprint() - old(Footprint()))
      ensures Model() == RangeTreeModel.AddRange(old(Model()), lo, hi)
    {
      hide AddNode;
      var rightNode := root;
      rightNode.SetUkey(start);
      var leftNode := new RangeTreeNode.NewLeaf(hi);
      start := lo;
      root := new RangeTreeNode.NewInner(end, leftNode, rightNode, rightNode.depth + 1);
    }

    /** The range lies behind all keys: the old root becomes the left child of a new one. */
    method AddAfter(lo: Key, hi: Key)
      requires root != null && root.Valid() && this !in root.Repr && lo <= hi && start <= hi && end < lo
      modifies Footprint()
      ensures root != null && root.Valid() && this !in root.Repr
      ensures fresh(Footprint() - old(Footprint()))
      ensures Model() == RangeTreeModel.AddRange(old(Model()), lo, hi)
    {
      hide AddNode;
      var leftNode := root;
      var rightNode := new RangeTreeNode.NewLeaf(lo);
      end := hi;
      root := new RangeTreeNode.NewInner(end, leftNode, rightNode, leftNode.depth + 1);
    }

    /** The range meets the outer bounds: they are widened before the range goes below the root. */
    method AddOverlapping(lo: Key, hi: Key)
      requires Valid() && root != null && lo <= hi && start <= hi && lo <= end
      modifies Footprint()
      ensures root != null && root.Valid() && this !in root.Repr
      ensures fresh(Footprint() - old(Footprint()))
      ensures Model() == RangeTreeModel.AddRange(old(Model()), lo, hi)
    {
      hide AddNode;
      RaiseHigh(root.tree, start, end, if hi > end then hi else end, hi, if hi > end then hi else end);
      if hi > end {
        end := hi;
        root.SetUkey(end);
      }
      DropLow(root.tree, start, end, if lo < start then lo else start, lo, end);
      if lo < start {
        start := lo;
      }
      root.AddRange(start, lo, hi, end);
    }

    method DeleteRange(lo: Key, hi: Key)
      requires Valid()
      modifies Footprint()
      ensures Valid() && fresh(Footprint() - old(Footprint()))
      ensures Model() == RangeTreeModel.DeleteRange(old(Model()), lo, hi)
      ensures forall p :: Holds(p) <==> old(Holds(p)) && !(lo <= p < hi)
    {
      DeleteRangeRemoves(Model(), lo, hi, lo);
      forall p
        ensures Has(RangeTreeModel.DeleteRange(Model(), lo, hi), p) <==> Holds(p) && !(lo <= p < hi)
      {
        DeleteRangeRemoves(Model(), lo, hi, p);
      }
      DeleteRangeInPlace(lo, hi);
    }

    method DeleteRangeInPlace(lo: Key, hi: Key)
      requires Valid()
      modifies Footprint()
      ensures root != null ==> root.Valid() && this !in root.Repr
      ensures fresh(Footprint() - old(Footprint()))
      ensures Model() == RangeTreeModel.DeleteRange(old(Model()), lo, hi)
    {
      hide DeleteNode;
      if hi < lo || root == null {
        return;
      }
      if hi < start || lo > end {
        return;
      }
      var rangeLow := if lo < start then start else lo;
      var rangeHigh := if hi > end then end else hi;
      root, start, end := root.DeleteRange(start, rangeLow, rangeHigh, end);
    }

    /** Unites another tree's keys with this one's; the other may be this very tree, and is left as it was if it is not. */
    method Add(other: RangeTree)
      requires Valid() && other.Valid()
      modifies Footprint()
      ensures Valid() && fresh(Footprint() - old(Footprint()))
      ensures old(Footprint() !! other.Footprint()) ==> other.Valid() && other.Footprint() == old(other.Footprint())
      ensures old(Footprint() !! other.Footprint()) ==> other.Model() == old(other.Model()) && Footprint() !! other.Footprint()
      ensures Model() == AddForest(old(Model()), old(other.Model()))
      ensures forall p :: Holds(p) <==> old(Holds(p)) || old(other.Holds(p))
    {
      forall p
        ensures Has(AddForest(Model(), other.Model()), p) <==> Holds(p) || other.Holds(p)
      {
        AddForestUnites(Model(), other.Model(), p);
      }
      var pairs := other.Range();
      for i := 0 to |pairs|
        invariant Valid() && fresh(Footprint() - old(Footprint()))
        invariant Model() == AddIntervals(old(Model()), pairs, i)
        invariant old(Footprint() !! other.Footprint()) ==> other.Valid() && other.Footprint() == old(other.Footprint())
        invariant old(Footprint() !! other.Footprint()) ==> other.Model() == old(other.Model()) && Footprint() !! other.Footprint()
      {
        AddRange(pairs[i].low, pairs[i].high);
      }
    }
  }
}
