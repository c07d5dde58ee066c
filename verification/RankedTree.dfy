/**
  The heap of gps/utils/LocHeap.cpp on values: the binary tree that LocHeapNode objects form, with
  push, pop and remove as functions, and the properties of those functions. The pointer version,
  in LocHeap.dfy, is proved to compute these functions.

  Items stand for the addresses stored in mData: `==` compares addresses, and `ranks` is the
  virtual LocRankable::ranks, of which only a total preorder is asked.
  */
module RankedTree {
  import opened Basics

  predicate OutRanks<T>(ranks: (T, T) -> int, a: T, b: T) {
    ranks(a, b) > 0
  }

  /** "Does not outrank" is a total preorder. */
  ghost predicate IsRanking<T(!new)>(ranks: (T, T) -> int) {
    && (forall a, b {:trigger OutRanks(ranks, a, b)} :: OutRanks(ranks, a, b) ==> !OutRanks(ranks, b, a))
    && (forall a, b, c {:trigger OutRanks(ranks, a, b), OutRanks(ranks, b, c)} ::
          !OutRanks(ranks, a, b) && !OutRanks(ranks, b, c) ==> !OutRanks(ranks, a, c))
  }

  /** `size` is the stored mSize, which nothing forces to be right: see Sized and CheckNodes. */
  datatype Tree<T> = Leaf | Node(size: int, data: T, left: Tree<T>, right: Tree<T>)

  function Single<T>(x: T): Tree<T> {
    Node(1, x, Leaf, Leaf)
  }

  ghost function Elements<T>(t: Tree<T>): multiset<T> {
    match t
    case Leaf => multiset{}
    case Node(_, x, l, r) => multiset{x} + Elements(l) + Elements(r)
  }

  function Count<T>(t: Tree<T>): nat {
    match t
    case Leaf => 0
    case Node(_, _, l, r) => 1 + Count(l) + Count(r)
  }

  function Height<T>(t: Tree<T>): nat {
    match t
    case Leaf => 0
    case Node(_, _, l, r) => 1 + if Height(l) >= Height(r) then Height(l) else Height(r)
  }

  // ---------------------------------------------------------------- the operations

  /** push gives the lower-ranked of the two items to an empty child, else to the smaller subtree. */
  predicate PushesLeft<T>(t: Tree<T>)
    requires t.Node?
  {
    t.left.Leaf? || (t.right.Node? && t.left.size <= t.right.size)
  }

  function Push<T>(t: Tree<T>, x: T, ranks: (T, T) -> int): Tree<T> {
    if t.Leaf? then Single(x) else
    var (high, low) := if OutRanks(ranks, x, t.data) then (x, t.data) else (t.data, x);
    if PushesLeft(t)
    then Node(t.size + 1, high, Push(t.left, low, ranks), t.right)
    else Node(t.size + 1, high, t.left, Push(t.right, low, ranks))
  }

  /** How many times push runs on the way down, the call on the top node included. */
  function PushCalls<T>(t: Tree<T>): nat {
    if t.Leaf? then 0
    else 1 + if PushesLeft(t) then PushCalls(t.left) else PushCalls(t.right)
  }

  predicate PopsLeft<T>(t: Tree<T>, ranks: (T, T) -> int)
    requires t.Node?
  {
    t.left.Node? && (t.right.Leaf? || OutRanks(ranks, t.left.data, t.right.data))
  }

  /** The tree after its top item is popped. */
  function Pop<T>(t: Tree<T>, ranks: (T, T) -> int): (rest: Tree<T>)
    requires t.Node?
    ensures Count(rest) == Count(t) - 1
  {
    if t.left.Leaf? && t.right.Leaf? then Leaf
    else if PopsLeft(t, ranks) then Node(t.size - 1, t.left.data, Pop(t.left, ranks), t.right)
    else Node(t.size - 1, t.right.data, t.left, Pop(t.right, ranks))
  }

  datatype Removal<T> = NotFound | Removed(rest: Tree<T>)

  /** Depth-first search by address that does not enter a subtree whose top `x` outranks. */
  function Remove<T(==)>(t: Tree<T>, x: T, ranks: (T, T) -> int): Removal<T>
    requires t.Node?
  {
    if t.data == x then Removed(Pop(t, ranks))
    else if OutRanks(ranks, x, t.data) then NotFound
    else FromSides(t, if t.left.Node? then Remove(t.left, x, ranks) else NotFound,
                      if t.right.Node? then Remove(t.right, x, ranks) else NotFound)
  }

  /** The search goes right only if the left finds nothing; a top whose subtree lost a node counts one less. */
  function FromSides<T>(t: Tree<T>, inLeft: Removal<T>, inRight: Removal<T>): Removal<T>
    requires t.Node?
  {
    if inLeft.Removed? then Removed(Node(t.size - 1, t.data, inLeft.rest, t.right))
    else if inRight.Removed? then Removed(Node(t.size - 1, t.data, t.left, inRight.rest))
    else NotFound
  }

  /** LocHeapNode::checkNodes, test by test. */
  predicate CheckNodes<T>(t: Tree<T>, ranks: (T, T) -> int)
    requires t.Node?
  {
    var total := t.size;
    if t.left.Node? && (OutRanks(ranks, t.left.data, t.data) || !CheckNodes(t.left, ranks)) then false else
    var total' := if t.left.Node? then total - t.left.size else total;
    if t.right.Node? && (OutRanks(ranks, t.right.data, t.data) || !CheckNodes(t.right, ranks)) then false else
    var total'' := if t.right.Node? then total' - t.right.size else total';
    total'' == 1
  }

  // ---------------------------------------------------------------- what checkNodes means

  /** Every stored mSize is the number of nodes at and below its node. */
  ghost predicate SizesExact<T>(t: Tree<T>) {
    t.Node? ==> t.size == Count(t) && SizesExact(t.left) && SizesExact(t.right)
  }

  /** No item outranks an item stored above it. */
  ghost predicate TopsRankHighest<T(!new)>(t: Tree<T>, ranks: (T, T) -> int) {
    t.Node? ==>
      && (forall x :: x in Elements(t) ==> !OutRanks(ranks, x, t.data))
      && TopsRankHighest(t.left, ranks) && TopsRankHighest(t.right, ranks)
  }

  function Size<T>(t: Tree<T>): int {
    if t.Leaf? then 0 else t.size
  }

  predicate Below<T>(t: Tree<T>, x: T, ranks: (T, T) -> int) {
    t.Leaf? || !OutRanks(ranks, t.data, x)
  }

  /** A heap in good order, said locally: each node against its children. */
  predicate Ok<T>(t: Tree<T>, ranks: (T, T) -> int) {
    t.Leaf? || (
      && t.size == 1 + Size(t.left) + Size(t.right)
      && Below(t.left, t.data, ranks) && Below(t.right, t.data, ranks)
      && Ok(t.left, ranks) && Ok(t.right, ranks))
  }

  lemma {:induction false} OkIsCheckNodes<T>(t: Tree<T>, ranks: (T, T) -> int)
    ensures Ok(t, ranks) <==> t.Leaf? || CheckNodes(t, ranks)
  {
    if t.Node? {
      OkIsCheckNodes(t.left, ranks);
      OkIsCheckNodes(t.right, ranks);
    }
  }

  lemma {:induction false} OkSizes<T>(t: Tree<T>, ranks: (T, T) -> int)
    requires Ok(t, ranks)
    ensures SizesExact(t) && Size(t) == Count(t)
  {
    if t.Node? {
      OkSizes(t.left, ranks);
      OkSizes(t.right, ranks);
    }
  }

  lemma {:induction false} OkTops<T(!new)>(t: Tree<T>, ranks: (T, T) -> int)
    requires IsRanking(ranks) && Ok(t, ranks)
    ensures TopsRankHighest(t, ranks)
  {
    if t.Node? {
      OkTops(t.left, ranks);
      OkTops(t.right, ranks);
      forall x | x in Elements(t) ensures !OutRanks(ranks, x, t.data) {
        if x in Elements(t.left) {
          assert !OutRanks(ranks, x, t.left.data);
        } else if x in Elements(t.right) {
          assert !OutRanks(ranks, x, t.right.data);
        }
      }
    }
  }

  lemma {:induction false} TopsAndSizesOk<T(!new)>(t: Tree<T>, ranks: (T, T) -> int)
    requires SizesExact(t) && TopsRankHighest(t, ranks)
    ensures Ok(t, ranks) && Size(t) == Count(t)
  {
    if t.Node? {
      TopsAndSizesOk(t.left, ranks);
      TopsAndSizesOk(t.right, ranks);
      assert t.left.Node? ==> t.left.data in Elements(t);
      assert t.right.Node? ==> t.right.data in Elements(t);
    }
  }

  /** checkNodes, which compares neighbours only, decides exactly the two whole-tree properties. */
  lemma CheckNodesMeaning<T(!new)>(t: Tree<T>, ranks: (T, T) -> int)
    requires IsRanking(ranks) && t.Node?
    ensures CheckNodes(t, ranks) <==> SizesExact(t) && TopsRankHighest(t, ranks)
  {
    OkIsCheckNodes(t, ranks);
    if CheckNodes(t, ranks) {
      OkSizes(t, ranks);
      OkTops(t, ranks);
    } else if SizesExact(t) && TopsRankHighest(t, ranks) {
      TopsAndSizesOk(t, ranks);
    }
  }

  /** The head of a heap in good order ranks at least as high as everything in it. */
  lemma HeadRanksHighest<T(!new)>(t: Tree<T>, ranks: (T, T) -> int, x: T)
    requires IsRanking(ranks) && t.Node? && Ok(t, ranks) && x in Elements(t)
    ensures !OutRanks(ranks, x, t.data)
  {
    OkTops(t, ranks);
  }

  lemma {:induction false} ElementsCount<T>(t: Tree<T>)
    ensures |Elements(t)| == Count(t)
  {
    if t.Node? {
      ElementsCount(t.left);
      ElementsCount(t.right);
    }
  }

  // ---------------------------------------------------------------- push

  lemma {:induction false} PushSize<T>(t: Tree<T>, x: T, ranks: (T, T) -> int)
    ensures Push(t, x, ranks).Node? && Push(t, x, ranks).size == Size(t) + 1
    ensures Count(Push(t, x, ranks)) == Count(t) + 1
  {
    if t.Node? {
      var low := if OutRanks(ranks, x, t.data) then t.data else x;
      PushSize(if PushesLeft(t) then t.left else t.right, low, ranks);
    }
  }

  lemma {:induction false} PushElements<T>(t: Tree<T>, x: T, ranks: (T, T) -> int)
    ensures Elements(Push(t, x, ranks)) == Elements(t) + multiset{x}
  {
    if t.Node? {
      var low := if OutRanks(ranks, x, t.data) then t.data else x;
      var high := if OutRanks(ranks, x, t.data) then x else t.data;
      if PushesLeft(t) {
        PushElements(t.left, low, ranks);
        Exchanged(t.data, x, high, low, Elements(t.left), Elements(t.right));
      } else {
        PushElements(t.right, low, ranks);
        Exchanged(t.data, x, high, low, Elements(t.left), Elements(t.right));
      }
    }
  }

  lemma Exchanged<T>(data: T, x: T, high: T, low: T, l: multiset<T>, r: multiset<T>)
    requires (high == data && low == x) || (high == x && low == data)
    ensures multiset{high} + (l + multiset{low}) + r == multiset{data} + l + r + multiset{x}
    ensures multiset{high} + l + (r + multiset{low}) == multiset{data} + l + r + multiset{x}
  {
  }

  /** The new head is whichever of the old head and `x` ranks higher, the old one if they tie. */
  function PushedHead<T>(t: Tree<T>, x: T, ranks: (T, T) -> int): T {
    if t.Leaf? || OutRanks(ranks, x, t.data) then x else t.data
  }

  lemma {:induction false} PushOk<T(!new)>(t: Tree<T>, x: T, ranks: (T, T) -> int)
    requires IsRanking(ranks) && Ok(t, ranks)
    ensures Ok(Push(t, x, ranks), ranks)
    ensures Push(t, x, ranks).Node? && Push(t, x, ranks).data == PushedHead(t, x, ranks)
  {
    if t.Node? {
      var low := if OutRanks(ranks, x, t.data) then t.data else x;
      var sub := if PushesLeft(t) then t.left else t.right;
      PushOk(sub, low, ranks);
      PushSize(sub, low, ranks);
      assert Below(t.left, PushedHead(t, x, ranks), ranks);
      assert Below(t.right, PushedHead(t, x, ranks), ranks);
      assert Below(Push(sub, low, ranks), PushedHead(t, x, ranks), ranks);
    }
  }

  /** push keeps the heap in good order and adds exactly `x`. */
  lemma PushKeeps<T(!new)>(t: Tree<T>, x: T, ranks: (T, T) -> int)
    requires IsRanking(ranks) && Ok(t, ranks)
    ensures Ok(Push(t, x, ranks), ranks)
    ensures Elements(Push(t, x, ranks)) == Elements(t) + multiset{x}
    ensures Push(t, x, ranks).Node? && Push(t, x, ranks).data == PushedHead(t, x, ranks)
    ensures Push(t, x, ranks).data == if t.Node? && ranks(x, t.data) <= 0 then t.data else x
  {
    PushOk(t, x, ranks);
    PushElements(t, x, ranks);
  }

  function Pow2(n: nat): nat {
    if n == 0 then 1 else 2 * Pow2(n - 1)
  }

  /** push is logarithmic on every shape of tree: c calls on n items satisfy 2^c <= n + 1. */
  lemma {:induction false} PushIsLogarithmic<T>(t: Tree<T>)
    requires SizesExact(t)
    ensures Pow2(PushCalls(t)) <= Count(t) + 1
  {
    if t.Node? {
      PushIsLogarithmic(t.left);
      PushIsLogarithmic(t.right);
    }
  }

  /** At every node the left subtree has as many items as the right one, or one more. */
  ghost predicate Balanced<T>(t: Tree<T>) {
    t.Node? ==> 0 <= Count(t.left) - Count(t.right) <= 1 && Balanced(t.left) && Balanced(t.right)
  }

  function PushAll<T>(xs: seq<T>, ranks: (T, T) -> int): Tree<T> {
    if xs == [] then Leaf else Push(PushAll(xs[..|xs| - 1], ranks), xs[|xs| - 1], ranks)
  }

  lemma {:induction false} PushKeepsBalance<T(!new)>(t: Tree<T>, x: T, ranks: (T, T) -> int)
    requires Balanced(t) && SizesExact(t)
    ensures Balanced(Push(t, x, ranks)) && SizesExact(Push(t, x, ranks))
  {
    if t.Node? {
      var low := if OutRanks(ranks, x, t.data) then t.data else x;
      PushKeepsBalance(if PushesLeft(t) then t.left else t.right, low, ranks);
      PushSize(if PushesLeft(t) then t.left else t.right, low, ranks);
    }
  }

  lemma {:induction false} BalancedHeight<T>(t: Tree<T>)
    requires Balanced(t) && t.Node?
    ensures Pow2(Height(t) - 1) <= Count(t)
  {
    if t.left.Node? {
      BalancedHeight(t.left);
      if t.right.Node? { BalancedHeight(t.right); }
    }
  }

  /** A tree built by pushes alone is balanced, and so low: height h for n items has 2^(h-1) <= n. */
  lemma {:induction false} PushAllIsBalanced<T(!new)>(xs: seq<T>, ranks: (T, T) -> int)
    ensures Balanced(PushAll(xs, ranks)) && SizesExact(PushAll(xs, ranks))
    ensures Count(PushAll(xs, ranks)) == |xs|
    ensures xs != [] ==> Height(PushAll(xs, ranks)) >= 1 && Pow2(Height(PushAll(xs, ranks)) - 1) <= |xs|
  {
    if xs != [] {
      PushAllIsBalanced(xs[..|xs| - 1], ranks);
      PushKeepsBalance(PushAll(xs[..|xs| - 1], ranks), xs[|xs| - 1], ranks);
      PushSize(PushAll(xs[..|xs| - 1], ranks), xs[|xs| - 1], ranks);
      BalancedHeight(PushAll(xs, ranks));
    }
  }

  // ---------------------------------------------------------------- pop

  lemma {:induction false} PopElements<T>(t: Tree<T>, ranks: (T, T) -> int)
    requires t.Node?
    ensures Elements(t) == Elements(Pop(t, ranks)) + multiset{t.data}
  {
    if t.left.Node? || t.right.Node? {
      PopElements(if PopsLeft(t, ranks) then t.left else t.right, ranks);
    }
  }

  lemma PopBelow<T(!new)>(t: Tree<T>, ranks: (T, T) -> int)
    requires IsRanking(ranks) && t.Node? && Ok(t, ranks)
    ensures Below(Pop(t, ranks), t.data, ranks)
  {
    PopElements(t, ranks);
    if Pop(t, ranks).Node? {
      assert Pop(t, ranks).data in Elements(Pop(t, ranks));
      HeadRanksHighest(t, ranks, Pop(t, ranks).data);
    }
  }

  lemma {:induction false} PopOk<T(!new)>(t: Tree<T>, ranks: (T, T) -> int)
    requires IsRanking(ranks) && t.Node? && Ok(t, ranks)
    ensures Ok(Pop(t, ranks), ranks) && Size(Pop(t, ranks)) == t.size - 1
  {
    if t.left.Node? || t.right.Node? {
      var sub := if PopsLeft(t, ranks) then t.left else t.right;
      var other := if PopsLeft(t, ranks) then t.right else t.left;
      PopOk(sub, ranks);
      PopBelow(sub, ranks);
      assert Below(other, sub.data, ranks);
      assert Pop(t, ranks).data == sub.data;
    }
  }

  /** pop takes out the head and keeps the rest in good order. */
  lemma PopKeeps<T(!new)>(t: Tree<T>, ranks: (T, T) -> int)
    requires IsRanking(ranks) && t.Node? && Ok(t, ranks)
    ensures Ok(Pop(t, ranks), ranks)
    ensures Elements(t) == Elements(Pop(t, ranks)) + multiset{t.data}
  {
    PopOk(t, ranks);
    PopElements(t, ranks);
  }

  /** The items in the order in which popping until empty returns them. */
  ghost function Drain<T>(t: Tree<T>, ranks: (T, T) -> int): seq<T>
    decreases Count(t)
  {
    if t.Leaf? then [] else [t.data] + Drain(Pop(t, ranks), ranks)
  }

  /** No item outranks one that comes before it. */
  ghost predicate SortedByRank<T>(s: seq<T>, ranks: (T, T) -> int) {
    forall i, j :: 0 <= i < j < |s| ==> !OutRanks(ranks, s[j], s[i])
  }

  /** Popping until empty sorts: a permutation in which no item outranks an earlier one. */
  lemma {:induction false} DrainSorts<T(!new)>(t: Tree<T>, ranks: (T, T) -> int)
    requires IsRanking(ranks) && Ok(t, ranks)
    ensures multiset(Drain(t, ranks)) == Elements(t)
    ensures SortedByRank(Drain(t, ranks), ranks)
    decreases Count(t)
  {
    if t.Node? {
      PopKeeps(t, ranks);
      DrainSorts(Pop(t, ranks), ranks);
      ConsSorted(t, Drain(Pop(t, ranks), ranks), ranks);
    }
  }

  lemma ConsSorted<T(!new)>(t: Tree<T>, rest: seq<T>, ranks: (T, T) -> int)
    requires IsRanking(ranks) && t.Node? && Ok(t, ranks)
    requires multiset(rest) <= Elements(t) && SortedByRank(rest, ranks)
    ensures SortedByRank([t.data] + rest, ranks)
  {
    forall j | 0 <= j < |rest| ensures !OutRanks(ranks, rest[j], t.data) {
      assert rest[j] in multiset(rest);
      HeadRanksHighest(t, ranks, rest[j]);
    }
  }

  /** pop replaces the head from below: by the left top if there is no right one or that outranks the
      right one, by the right top otherwise, ties included. The other subtree is not touched. */
  lemma PopReplacesHead<T(!new)>(t: Tree<T>, ranks: (T, T) -> int)
    requires t.Node? && Count(t) > 1
    ensures var rest := Pop(t, ranks);
            rest.Node? &&
            if t.right.Leaf? || (t.left.Node? && ranks(t.left.data, t.right.data) > 0)
            then t.left.Node? && rest.data == t.left.data && rest.right == t.right
            else rest.data == t.right.data && rest.left == t.left
  {
  }

  // ---------------------------------------------------------------- remove

  /** What remove promises of the tree it leaves: one `x` less, good order, and the same head
      unless `x` was the head. */
  ghost predicate Without<T>(rest: Tree<T>, t: Tree<T>, x: T, ranks: (T, T) -> int)
    requires t.Node?
  {
    && Ok(rest, ranks)
    && Elements(t) == Elements(rest) + multiset{x}
    && Size(rest) == t.size - 1
    && (x != t.data ==> rest.Node? && rest.data == t.data)
  }

  /** What a search of `t` for `x` must come back with. */
  ghost predicate Finds<T>(t: Tree<T>, x: T, found: Removal<T>, ranks: (T, T) -> int) {
    && (found.Removed? <==> x in Elements(t))
    && (found.Removed? && t.Node? ==> Without(found.rest, t, x, ranks))
  }

  /** The pruned search is complete: it finds `x` exactly when `x` is stored. */
  lemma {:induction false} RemoveKeeps<T(!new)>(t: Tree<T>, x: T, ranks: (T, T) -> int)
    requires IsRanking(ranks) && t.Node? && Ok(t, ranks)
    ensures Finds(t, x, Remove(t, x, ranks), ranks)
  {
    if t.data == x {
      PopOk(t, ranks);
      PopElements(t, ranks);
    } else if OutRanks(ranks, x, t.data) {
      if x in Elements(t) { HeadRanksHighest(t, ranks, x); }
    } else {
      if t.left.Node? { RemoveKeeps(t.left, x, ranks); }
      if t.right.Node? { RemoveKeeps(t.right, x, ranks); }
      FindsFromSides(t, x, if t.left.Node? then Remove(t.left, x, ranks) else NotFound,
                           if t.right.Node? then Remove(t.right, x, ranks) else NotFound, ranks);
    }
  }

  /** remove searches the left subtree first, and leaves the right one alone if it finds the item there. */
  lemma RemoveLooksLeftFirst<T(!new)>(t: Tree<T>, x: T, ranks: (T, T) -> int)
    requires IsRanking(ranks) && t.Node? && Ok(t, ranks) && x != t.data
    ensures Remove(t, x, ranks).Removed? ==>
              var rest := Remove(t, x, ranks).rest;
              if x in Elements(t.left) then rest.Node? && rest.right == t.right
              else rest.Node? && rest.left == t.left
  {
    if t.left.Node? {
      RemoveKeeps(t.left, x, ranks);
    }
  }

  lemma FindsFromSides<T(!new)>(t: Tree<T>, x: T, inLeft: Removal<T>, inRight: Removal<T>, ranks: (T, T) -> int)
    requires IsRanking(ranks) && t.Node? && Ok(t, ranks) && t.data != x
    requires Finds(t.left, x, inLeft, ranks) && Finds(t.right, x, inRight, ranks)
    ensures Finds(t, x, FromSides(t, inLeft, inRight), ranks)
  {
    InSubtrees(t, x);
    if inLeft.Removed? {
      FoundLeft(t, x, inLeft.rest, ranks);
    } else if inRight.Removed? {
      FoundRight(t, x, inRight.rest, ranks);
    }
  }

  lemma InSubtrees<T>(t: Tree<T>, x: T)
    requires t.Node? && t.data != x
    ensures x in Elements(t) <==> x in Elements(t.left) || x in Elements(t.right)
  {
  }

  lemma FoundLeft<T(!new)>(t: Tree<T>, x: T, rest: Tree<T>, ranks: (T, T) -> int)
    requires IsRanking(ranks) && t.Node? && Ok(t, ranks) && t.data != x
    requires t.left.Node? && Without(rest, t.left, x, ranks)
    ensures Without(Node(t.size - 1, t.data, rest, t.right), t, x, ranks)
  {
    ElementsAbove(t, rest, t.right, x);
    WithoutAbove(t, rest, t.right, x, ranks);
  }

  lemma FoundRight<T(!new)>(t: Tree<T>, x: T, rest: Tree<T>, ranks: (T, T) -> int)
    requires IsRanking(ranks) && t.Node? && Ok(t, ranks) && t.data != x
    requires t.right.Node? && Without(rest, t.right, x, ranks)
    ensures Without(Node(t.size - 1, t.data, t.left, rest), t, x, ranks)
  {
    ElementsAbove(t, t.left, rest, x);
    WithoutAbove(t, t.left, rest, x, ranks);
  }

  lemma ElementsAbove<T>(t: Tree<T>, l: Tree<T>, r: Tree<T>, x: T)
    requires t.Node?
    requires (l == t.left && Elements(t.right) == Elements(r) + multiset{x})
          || (r == t.right && Elements(t.left) == Elements(l) + multiset{x})
    ensures Elements(t) == Elements(Node(t.size - 1, t.data, l, r)) + multiset{x}
    ensures Elements(l) <= Elements(t) && Elements(r) <= Elements(t)
  {
    if l == t.left && Elements(t.right) == Elements(r) + multiset{x} {
      Regroup(multiset{t.data}, Elements(l), Elements(r), multiset{}, multiset{x});
    } else {
      Regroup(multiset{t.data}, Elements(l), Elements(r), multiset{x}, multiset{});
    }
  }

  lemma Regroup<T>(top: multiset<T>, l: multiset<T>, r: multiset<T>, dl: multiset<T>, dr: multiset<T>)
    ensures top + (l + dl) + (r + dr) == top + l + r + (dl + dr)
    ensures l + multiset{} == l && r + multiset{} == r && multiset{} + dr == dr && dl + multiset{} == dl
    ensures l <= top + (l + dl) + (r + dr) && r <= top + (l + dl) + (r + dr)
  {
  }

  /** A subtree that lost `x` is put back under the same top. */
  lemma WithoutAbove<T(!new)>(t: Tree<T>, l: Tree<T>, r: Tree<T>, x: T, ranks: (T, T) -> int)
    requires IsRanking(ranks) && t.Node? && Ok(t, ranks)
    requires Ok(l, ranks) && Ok(r, ranks) && Size(l) + Size(r) == Size(t.left) + Size(t.right) - 1
    requires Elements(l) <= Elements(t) && Elements(r) <= Elements(t)
    ensures Ok(Node(t.size - 1, t.data, l, r), ranks)
  {
    SubtreeBelow(t, l, ranks);
    SubtreeBelow(t, r, ranks);
  }

  lemma SubtreeBelow<T(!new)>(t: Tree<T>, rest: Tree<T>, ranks: (T, T) -> int)
    requires IsRanking(ranks) && t.Node? && Ok(t, ranks) && Elements(rest) <= Elements(t)
    ensures Below(rest, t.data, ranks)
  {
    if rest.Node? {
      assert rest.data in Elements(rest);
      HeadRanksHighest(t, ranks, rest.data);
    }
  }

  // ---------------------------------------------------------------- every run

  datatype Op<T> = PushOp(x: T) | PopOp | RemoveOp(x: T)

  /** One call of LocHeap::push, pop or remove: the tree after it, and the pointer it returns. */
  function Apply<T(==)>(t: Tree<T>, op: Op<T>, ranks: (T, T) -> int): (Tree<T>, Option<T>) {
    match op
    case PushOp(x) => (Push(t, x, ranks), None)
    case PopOp => if t.Leaf? then (t, None) else (Pop(t, ranks), Some(t.data))
    case RemoveOp(x) =>
      if t.Leaf? then (t, None) else
      var r := Remove(t, x, ranks);
      if r.Removed? then (r.rest, Some(x)) else (t, None)
  }

  function Run<T(==)>(t: Tree<T>, ops: seq<Op<T>>, ranks: (T, T) -> int): Tree<T>
    decreases |ops|
  {
    if ops == [] then t else Run(Apply(t, ops[0], ranks).0, ops[1..], ranks)
  }

  ghost function Pushed<T>(ops: seq<Op<T>>): multiset<T> {
    if ops == [] then multiset{}
    else (if ops[0].PushOp? then multiset{ops[0].x} else multiset{}) + Pushed(ops[1..])
  }

  ghost function Returned<T>(t: Tree<T>, ops: seq<Op<T>>, ranks: (T, T) -> int): multiset<T>
    decreases |ops|
  {
    if ops == [] then multiset{} else
    var (t', out) := Apply(t, ops[0], ranks);
    Bag(out) + Returned(t', ops[1..], ranks)
  }

  ghost function Bag<T>(x: Option<T>): multiset<T> {
    if x.Some? then multiset{x.value} else multiset{}
  }

  lemma ApplyConserves<T(!new)>(t: Tree<T>, op: Op<T>, ranks: (T, T) -> int)
    requires IsRanking(ranks) && Ok(t, ranks)
    ensures Ok(Apply(t, op, ranks).0, ranks)
    ensures Elements(t) + Pushed([op]) == Bag(Apply(t, op, ranks).1) + Elements(Apply(t, op, ranks).0)
  {
    assert Pushed([op]) == if op.PushOp? then multiset{op.x} else multiset{};
    match op {
      case PushOp(x) => PushKeeps(t, x, ranks);
      case PopOp => if t.Node? { PopKeeps(t, ranks); }
      case RemoveOp(x) => if t.Node? { RemoveKeeps(t, x, ranks); }
    }
  }

  /** Over any sequence of calls the heap stays in good order and loses nothing: what was stored
      or pushed is what was returned or is still stored. */
  lemma {:induction false} RunConserves<T(!new)>(t: Tree<T>, ops: seq<Op<T>>, ranks: (T, T) -> int)
    requires IsRanking(ranks) && Ok(t, ranks)
    ensures Ok(Run(t, ops, ranks), ranks)
    ensures Elements(t) + Pushed(ops) == Returned(t, ops, ranks) + Elements(Run(t, ops, ranks))
    decreases |ops|
  {
    if ops != [] {
      var (t', out) := Apply(t, ops[0], ranks);
      ApplyConserves(t, ops[0], ranks);
      RunConserves(t', ops[1..], ranks);
      PushedFirst(ops);
      Telescope(Elements(t), Pushed([ops[0]]), Bag(out), Elements(t'),
                Pushed(ops[1..]), Returned(t', ops[1..], ranks), Elements(Run(t', ops[1..], ranks)));
    }
  }

  lemma PushedFirst<T>(ops: seq<Op<T>>)
    requires ops != []
    ensures Pushed(ops) == Pushed([ops[0]]) + Pushed(ops[1..])
  {
    assert [ops[0]][1..] == [];
  }
}
