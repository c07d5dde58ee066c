/**
  gps/utils/LocHeap.cpp in place: LocHeapNode objects linked by left and right, updated by
  swapping data and unlinking one leaf. Each operation is proved to compute the function of the
  same name in RankedTree on the tree the nodes form, whether or not that tree is in good order.
  */
module LocHeapInPlace {
  import opened Basics
  import opened RankedTree

  class LocHeapNode<T(==)> {
    var size: int
    var left: LocHeapNode?<T>
    var right: LocHeapNode?<T>
    var data: T

    constructor (x: T)
      ensures size == 1 && left == null && right == null && data == x
    {
      size, left, right, data := 1, null, null, x;
    }

    /** Only data is exchanged, so both trees keep their shape. */
    method Swap(node: LocHeapNode<T>, ghost s: Shape<T>)
      requires Forms(this, s) && s.At? && node !in Nodes(s)
      modifies this`data, node`data
      ensures Forms(this, s)
      ensures data == old(node.data) && node.data == old(data)
      ensures View(this, s) == Node(size, data, old(View(left, s.l)), old(View(right, s.r)))
    {
      data, node.data := node.data, data;
    }

    method Resize(change: int, ghost s: Shape<T>)
      requires Forms(this, s)
      modifies this`size
      ensures size == old(size) + change && Forms(this, s)
      ensures View(this, s) == Node(size, data, old(View(left, s.l)), old(View(right, s.r)))
    {
      size := size + change;
    }

    /** Hangs a tree, unshared with the rest, in the left slot. */
    method SetLeft(n: LocHeapNode?<T>, ghost l: Shape<T>, ghost r: Shape<T>)
      requires Forms(n, l) && Forms(right, r) && this !in Nodes(l) && this !in Nodes(r) && Nodes(l) !! Nodes(r)
      modifies this`left
      ensures left == n && Forms(this, Join(this, l, r))
      ensures View(this, Join(this, l, r)) == Node(size, data, old(View(n, l)), old(View(right, r)))
    {
      left := n;
    }

    method SetRight(n: LocHeapNode?<T>, ghost l: Shape<T>, ghost r: Shape<T>)
      requires Forms(left, l) && Forms(n, r) && this !in Nodes(l) && this !in Nodes(r) && Nodes(l) !! Nodes(r)
      modifies this`right
      ensures right == n && Forms(this, Join(this, l, r))
      ensures View(this, Join(this, l, r)) == Node(size, data, old(View(left, l)), old(View(n, r)))
    {
      right := n;
    }

    /** `s` is the shape of the tree below this node; the result is its shape afterwards. */
    method Push(node: LocHeapNode<T>, ranks: (T, T) -> int, ghost s: Shape<T>) returns (ghost s': Shape<T>)
      requires Forms(this, s)
      requires node !in Nodes(s) && node.size == 1 && node.left == null && node.right == null
      modifies Nodes(s), node
      ensures Forms(this, s') && Nodes(s') == Nodes(s) + {node}
      ensures View(this, s') == RankedTree.Push(old(View(this, s)), old(node.data), ranks)
      decreases s, 2
    {
      if OutRanks(ranks, node.data, data) {
        Swap(node, s);
      }
      s' := Drop(node, ranks, s);
    }

    method Drop(node: LocHeapNode<T>, ranks: (T, T) -> int, ghost s: Shape<T>) returns (ghost s': Shape<T>)
      requires Forms(this, s)
      requires node !in Nodes(s) && node.size == 1 && node.left == null && node.right == null
      modifies Nodes(s), node
      ensures Forms(this, s') && Nodes(s') == Nodes(s) + {node}
      ensures var t := old(View(this, s));
              View(this, s') == if PushesLeft(t)
                                then t.(size := t.size + 1, left := RankedTree.Push(t.left, old(node.data), ranks))
                                else t.(size := t.size + 1, right := RankedTree.Push(t.right, old(node.data), ranks))
      decreases s, 1
    {
      if left == null {
        left := node;
        size := size + 1;
        s' := Join(this, Join(node, Nil, Nil), s.r);
        assert Forms(left, s'.l) && Forms(right, s.r) && View(right, s.r) == old(View(right, s.r));
      } else if right == null {
        right := node;
        size := size + 1;
        s' := Join(this, s.l, Join(node, Nil, Nil));
        assert Forms(right, s'.r) && Forms(left, s.l) && View(left, s.l) == old(View(left, s.l));
      } else if left.size <= right.size {
        s' := DropLeft(node, ranks, s);
      } else {
        s' := DropRight(node, ranks, s);
      }
    }

    method DropLeft(node: LocHeapNode<T>, ranks: (T, T) -> int, ghost s: Shape<T>) returns (ghost s': Shape<T>)
      requires Forms(this, s) && left != null
      requires node !in Nodes(s) && node.size == 1 && node.left == null && node.right == null
      modifies Nodes(s), node
      ensures Forms(this, s') && Nodes(s') == Nodes(s) + {node}
      ensures var t := old(View(this, s));
              View(this, s') == t.(size := t.size + 1, left := RankedTree.Push(t.left, old(node.data), ranks))
      decreases s, 0
    {
      ghost var l := left.Push(node, ranks, s.l);
      s' := Join(this, l, s.r);
      Resize(1, s');
    }

    method DropRight(node: LocHeapNode<T>, ranks: (T, T) -> int, ghost s: Shape<T>) returns (ghost s': Shape<T>)
      requires Forms(this, s) && right != null
      requires node !in Nodes(s) && node.size == 1 && node.left == null && node.right == null
      modifies Nodes(s), node
      ensures Forms(this, s') && Nodes(s') == Nodes(s) + {node}
      ensures var t := old(View(this, s));
              View(this, s') == t.(size := t.size + 1, right := RankedTree.Push(t.right, old(node.data), ranks))
      decreases s, 0
    {
      ghost var r := right.Push(node, ranks, s.r);
      s' := Join(this, s.l, r);
      Resize(1, s');
    }

    /** `top` stands for the pointer slot that holds the tree: newTop is what pop leaves there. The
        popped node has no children, so deleting it deletes nothing else. */
    static method Pop(top: LocHeapNode<T>, ranks: (T, T) -> int, ghost s: Shape<T>)
      returns (newTop: LocHeapNode?<T>, popped: LocHeapNode<T>, ghost s': Shape<T>)
      requires Forms(top, s)
      modifies Nodes(s)
      ensures Forms(newTop, s') && popped in Nodes(s) && Nodes(s') == Nodes(s) - {popped}
      ensures View(newTop, s') == RankedTree.Pop(old(View(top, s)), ranks)
      ensures popped.data == old(top.data) && popped.left == null && popped.right == null
      decreases s, 2
    {
      if top.left != null || top.right != null {
        if top.left == null || (top.right != null && !OutRanks(ranks, top.left.data, top.right.data)) {
          popped, s' := PopRight(top, ranks, s);
        } else {
          popped, s' := PopLeft(top, ranks, s);
        }
        newTop := top;
      } else {
        top.size := top.size - 1;
        newTop, popped, s' := null, top, Nil;
      }
    }

    /** The top loses a node of its subtree and trades items with the child to pop from. */
    static method PullUp(top: LocHeapNode<T>, sub: LocHeapNode<T>, ghost s: Shape<T>)
      requires s.At? && Forms(top, s) && (sub == top.left || sub == top.right)
      modifies top`size, top`data, sub`data
      ensures Forms(top, s)
      ensures top.size == old(top.size) - 1 && top.data == old(sub.data) && sub.data == old(top.data)
      ensures View(top.left, s.l) == OnlyTop(old(View(top.left, s.l)), top.left == sub, sub.data)
      ensures View(top.right, s.r) == OnlyTop(old(View(top.right, s.r)), top.right == sub, sub.data)
    {
      top.size := top.size - 1;
      top.data, sub.data := sub.data, top.data;
    }

    static method PopLeft(top: LocHeapNode<T>, ranks: (T, T) -> int, ghost s: Shape<T>)
      returns (popped: LocHeapNode<T>, ghost s': Shape<T>)
      requires Forms(top, s) && top.left != null
      modifies Nodes(s)
      ensures Forms(top, s') && popped in Nodes(s) && Nodes(s') == Nodes(s) - {popped}
      ensures var t := old(View(top, s));
              t.left.Node? && View(top, s') == Node(t.size - 1, t.left.data, RankedTree.Pop(t.left, ranks), t.right)
      ensures popped.data == old(top.data) && popped.left == null && popped.right == null
      decreases s, 1
    {
      ghost var t := View(top, s);
      PullUp(top, top.left, s);
      PopIgnoresTop(t.left, top.left.data, ranks);
      popped, s' := TakeLeft(top, ranks, s);
    }

    /** Pops from the left subtree. */
    static method TakeLeft(top: LocHeapNode<T>, ranks: (T, T) -> int, ghost s: Shape<T>)
      returns (popped: LocHeapNode<T>, ghost s': Shape<T>)
      requires Forms(top, s) && top.left != null
      modifies Nodes(s)
      ensures Forms(top, s') && popped in Nodes(s) && Nodes(s') == Nodes(s) - {popped}
      ensures var t := old(View(top, s));
              && t.left.Node? && View(top, s') == t.(left := RankedTree.Pop(t.left, ranks))
              && popped.data == t.left.data
      ensures popped.left == null && popped.right == null
      decreases s, 0
    {
      var rest, node, l := Pop(top.left, ranks, s.l);
      top.SetLeft(rest, l, s.r);
      popped, s' := node, Join(top, l, s.r);
    }

    static method PopRight(top: LocHeapNode<T>, ranks: (T, T) -> int, ghost s: Shape<T>)
      returns (popped: LocHeapNode<T>, ghost s': Shape<T>)
      requires Forms(top, s) && top.right != null
      modifies Nodes(s)
      ensures Forms(top, s') && popped in Nodes(s) && Nodes(s') == Nodes(s) - {popped}
      ensures var t := old(View(top, s));
              t.right.Node? && View(top, s') == Node(t.size - 1, t.right.data, t.left, RankedTree.Pop(t.right, ranks))
      ensures popped.data == old(top.data) && popped.left == null && popped.right == null
      decreases s, 1
    {
      ghost var t := View(top, s);
      PullUp(top, top.right, s);
      PopIgnoresTop(t.right, top.right.data, ranks);
      popped, s' := TakeRight(top, ranks, s);
    }

    /** Pops from the right subtree. */
    static method TakeRight(top: LocHeapNode<T>, ranks: (T, T) -> int, ghost s: Shape<T>)
      returns (popped: LocHeapNode<T>, ghost s': Shape<T>)
      requires Forms(top, s) && top.right != null
      modifies Nodes(s)
      ensures Forms(top, s') && popped in Nodes(s) && Nodes(s') == Nodes(s) - {popped}
      ensures var t := old(View(top, s));
              && t.right.Node? && View(top, s') == t.(right := RankedTree.Pop(t.right, ranks))
              && popped.data == t.right.data
      ensures popped.left == null && popped.right == null
      decreases s, 0
    {
      var rest, node, r := Pop(top.right, ranks, s.r);
      top.SetRight(rest, s.l, r);
      popped, s' := node, Join(top, s.l, r);
    }

    /** What a search that may unlink one node reports, against the tree `t` it searched. */
    ghost static predicate Reports(t: Tree<T>, x: T, found: Removal<T>, s: Shape<T>,
                                   newTop: LocHeapNode?<T>, removed: LocHeapNode?<T>, s': Shape<T>)
      reads Nodes(s), Nodes(s')
    {
      && Forms(newTop, s')
      && (removed != null <==> found.Removed?)
      && (removed == null ==> s' == s && View(newTop, s') == t)
      && (removed != null ==>
            && removed in Nodes(s) && Nodes(s') == Nodes(s) - {removed}
            && removed.data == x && removed.left == null && removed.right == null
            && View(newTop, s') == found.rest)
    }

    static method Remove(top: LocHeapNode<T>, x: T, ranks: (T, T) -> int, ghost s: Shape<T>)
      returns (newTop: LocHeapNode?<T>, removed: LocHeapNode?<T>, ghost s': Shape<T>)
      requires Forms(top, s)
      modifies Nodes(s)
      ensures Reports(old(View(top, s)), x, RankedTree.Remove(old(View(top, s)), x, ranks), s, newTop, removed, s')
      decreases s, 3
    {
      newTop, removed, s' := top, null, s;
      if top.data == x {
        newTop, removed, s' := Pop(top, ranks, s);
      } else if !OutRanks(ranks, x, top.data) {
        removed, s' := RemoveBelow(top, x, ranks, s);
      }
    }

    ghost static function Side(t: Tree<T>, x: T, ranks: (T, T) -> int): Removal<T> {
      if t.Node? then RankedTree.Remove(t, x, ranks) else NotFound
    }

    static method RemoveBelow(top: LocHeapNode<T>, x: T, ranks: (T, T) -> int, ghost s: Shape<T>)
      returns (removed: LocHeapNode?<T>, ghost s': Shape<T>)
      requires Forms(top, s)
      modifies Nodes(s)
      ensures var t := old(View(top, s));
              var found := FromSides(t, Side(t.left, x, ranks), Side(t.right, x, ranks));
              Reports(t, x, found, s, top, removed, s')
      decreases s, 1
    {
      removed, s' := RemoveLeft(top, x, ranks, s);
      if removed == null {
        removed, s' := RemoveRight(top, x, ranks, s);
      }
      if removed != null {
        top.Resize(-1, s');
      }
    }

    ghost static function InLeft(t: Tree<T>, found: Removal<T>): Removal<T>
      requires t.Node?
    {
      if found.Removed? then Removed(t.(left := found.rest)) else NotFound
    }

    ghost static function InRight(t: Tree<T>, found: Removal<T>): Removal<T>
      requires t.Node?
    {
      if found.Removed? then Removed(t.(right := found.rest)) else NotFound
    }

    static method RemoveLeft(top: LocHeapNode<T>, x: T, ranks: (T, T) -> int, ghost s: Shape<T>)
      returns (removed: LocHeapNode?<T>, ghost s': Shape<T>)
      requires Forms(top, s)
      modifies Nodes(s)
      ensures var t := old(View(top, s));
              t.Node? && Reports(t, x, InLeft(t, Side(t.left, x, ranks)), s, top, removed, s')
      decreases s, 0
    {
      removed, s' := null, s;
      if top.left != null {
        var rest, node, l := Remove(top.left, x, ranks, s.l);
        top.SetLeft(rest, l, s.r);
        removed, s' := node, Join(top, l, s.r);
      }
    }

    static method RemoveRight(top: LocHeapNode<T>, x: T, ranks: (T, T) -> int, ghost s: Shape<T>)
      returns (removed: LocHeapNode?<T>, ghost s': Shape<T>)
      requires Forms(top, s)
      modifies Nodes(s)
      ensures var t := old(View(top, s));
              t.Node? && Reports(t, x, InRight(t, Side(t.right, x, ranks)), s, top, removed, s')
      decreases s, 0
    {
      removed, s' := null, s;
      if top.right != null {
        var rest, node, r := Remove(top.right, x, ranks, s.r);
        top.SetRight(rest, s.l, r);
        removed, s' := node, Join(top, s.l, r);
      }
    }

    method CheckNodes(ranks: (T, T) -> int, ghost s: Shape<T>) returns (ok: bool)
      requires s.At? && Forms(this, s)
      ensures ok == RankedTree.CheckNodes(View(this, s), ranks)
      decreases s
    {
      var totalSize := size;
      if left != null {
        if OutRanks(ranks, left.data, data) { return false; }
        var leftOk := left.CheckNodes(ranks, s.l);
        if !leftOk { return false; }
        totalSize := totalSize - left.size;
      }
      if right != null {
        if OutRanks(ranks, right.data, data) { return false; }
        var rightOk := right.CheckNodes(ranks, s.r);
        if !rightOk { return false; }
        totalSize := totalSize - right.size;
      }
      return totalSize == 1;
    }
  }

  lemma PopIgnoresTop<T>(t: Tree<T>, x: T, ranks: (T, T) -> int)
    requires t.Node?
    ensures RankedTree.Pop(t.(data := x), ranks) == RankedTree.Pop(t, ranks)
  {
  }

  ghost function OnlyTop<T>(t: Tree<T>, swapped: bool, x: T): Tree<T> {
    if swapped && t.Node? then t.(data := x) else t
  }

  /** Which node object is where: the links of a tree as a value, with the set of its nodes. */
  datatype Shape<T> = Nil | At(node: LocHeapNode<T>, l: Shape<T>, r: Shape<T>, all: set<LocHeapNode<T>>)

  ghost function Nodes<T>(s: Shape<T>): set<LocHeapNode<T>> {
    if s.Nil? then {} else s.all
  }

  ghost function Join<T>(n: LocHeapNode<T>, l: Shape<T>, r: Shape<T>): Shape<T> {
    At(n, l, r, {n} + Nodes(l) + Nodes(r))
  }

  /** The links from `n` have shape `s`, and no node is reached twice: no cycle and no sharing. */
  ghost predicate Forms<T>(n: LocHeapNode?<T>, s: Shape<T>)
    reads Nodes(s)
    decreases s
  {
    match s
    case Nil => n == null
    case At(m, l, r, all) =>
      && n == m && m !in Nodes(l) && m !in Nodes(r) && Nodes(l) !! Nodes(r)
      && all == {m} + Nodes(l) + Nodes(r)
      && Forms(m.left, l) && Forms(m.right, r)
  }

  ghost function View<T>(n: LocHeapNode?<T>, s: Shape<T>): Tree<T>
    requires Forms(n, s)
    reads Nodes(s)
    decreases s
  {
    match s
    case Nil => Leaf
    case At(m, l, r, _) => Node(m.size, m.data, View(m.left, l), View(m.right, r))
  }

  /** The heap its users see. Each call does what RankedTree.Apply says of it; what those calls add
      up to over a whole run is RankedTree.RunConserves and RankedTree.DrainSorts. */
  class LocHeap<T(==)> {
    var root: LocHeapNode?<T>
    ghost var shape: Shape<T>

    ghost predicate Valid()
      reads this, Nodes(shape)
    {
      Forms(root, shape)
    }

    ghost function Contents(): Tree<T>
      requires Valid()
      reads this, Nodes(shape)
    {
      View(root, shape)
    }

    constructor ()
      ensures Valid() && Contents() == Leaf && Nodes(shape) == {}
    {
      root, shape := null, Nil;
    }

    method Push(x: T, ranks: (T, T) -> int)
      requires Valid()
      modifies this, Nodes(shape)
      ensures Valid() && fresh(Nodes(shape) - old(Nodes(shape)))
      ensures Contents() == Apply(old(Contents()), PushOp(x), ranks).0
    {
      var node := new LocHeapNode(x);
      if root == null {
        root, shape := node, Join(node, Nil, Nil);
      } else {
        shape := root.Push(node, ranks, shape);
      }
    }

    method Peek() returns (top: Option<T>)
      requires Valid()
      ensures top == if Contents().Leaf? then None else Some(Contents().data)
    {
      if root == null { return None; }
      return Some(root.data);
    }

    method Pop(ranks: (T, T) -> int) returns (out: Option<T>)
      requires Valid()
      modifies this, Nodes(shape)
      ensures Valid() && Nodes(shape) <= old(Nodes(shape))
      ensures (Contents(), out) == Apply(old(Contents()), PopOp, ranks)
    {
      out := None;
      if root != null {
        var node;
        root, node, shape := LocHeapNode<T>.Pop(root, ranks, shape);
        out := Some(node.data);
      }
    }

    method Remove(x: T, ranks: (T, T) -> int) returns (out: Option<T>)
      requires Valid()
      modifies this, Nodes(shape)
      ensures Valid() && Nodes(shape) <= old(Nodes(shape))
      ensures (Contents(), out) == Apply(old(Contents()), RemoveOp(x), ranks)
    {
      out := None;
      if root != null {
        var node;
        root, node, shape := LocHeapNode<T>.Remove(root, x, ranks, shape);
        if node != null {
          out := Some(node.data);
        }
      }
    }

    method CheckTree(ranks: (T, T) -> int) returns (ok: bool)
      requires Valid()
      ensures ok == Ok(Contents(), ranks)
    {
      OkIsCheckNodes(Contents(), ranks);
      if root == null { return true; }
      ok := root.CheckNodes(ranks, shape);
    }
  }
}
