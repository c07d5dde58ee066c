/** The doubly linked list of gps/utils/linked_list.c, which GPS threads use as a message queue. */
module GpsLinkedList {
  import opened Basics

  /** A data pointer, never null, and the function to free it with, if any. */
  datatype Item = Item(data: int, dealloc: Option<int>)

  datatype Error = Success | FailureGeneral | InvalidParameter | UnavailableResource

  // ---------------------------------------------------------------- the list as a value, newest item first

  /** Where the newest item is that `equal` accepts; the length if there is none. */
  function Newest(s: seq<Item>, equal: int -> bool): (k: nat)
    ensures k <= |s|
    ensures k < |s| ==> equal(s[k].data)
    ensures forall j :: 0 <= j < k ==> !equal(s[j].data)
  {
    if s == [] || equal(s[0].data) then 0 else 1 + Newest(s[1..], equal)
  }

  /** The items with a function to free them, in order. */
  function Freeable(s: seq<Item>): seq<Item> {
    if s == [] then [] else (if s[0].dealloc.Some? then [s[0]] else []) + Freeable(s[1..])
  }

  /** Arrival order. */
  function Fifo(s: seq<Item>): seq<Item> {
    if s == [] then [] else Fifo(s[1..]) + [s[0]]
  }

  lemma {:induction false} FifoIsReverse(s: seq<Item>)
    ensures |Fifo(s)| == |s|
    ensures forall i :: 0 <= i < |s| ==> Fifo(s)[i] == s[|s| - 1 - i]
  {
    if s != [] {
      FifoIsReverse(s[1..]);
    }
  }

  // ---------------------------------------------------------------- one operation, on values

  datatype Op =
    | AddOp(item: Item)
    | RemoveOp
    | FlushOp
    | SearchOp(equal: int -> bool, wantsData: bool, remove: bool)

  function After(s: seq<Item>, op: Op): seq<Item> {
    match op
    case AddOp(item) => [item] + s
    case RemoveOp => if s == [] then s else s[..|s| - 1]
    case FlushOp => []
    case SearchOp(equal, _, remove) => if remove then DropAt(s, Newest(s, equal)) else s
  }

  /** The items an operation hands back for good, in order. */
  function HandedBack(s: seq<Item>, op: Op): seq<Item> {
    match op
    case RemoveOp => if s == [] then [] else [s[|s| - 1]]
    case SearchOp(equal, wantsData, remove) =>
      var k := Newest(s, equal);
      if k < |s| && wantsData && remove then [s[k]] else []
    case _ => []
  }

  /** The items an operation lets go without handing them back. */
  function LetGo(s: seq<Item>, op: Op): seq<Item> {
    match op
    case FlushOp => s
    case SearchOp(equal, wantsData, remove) =>
      var k := Newest(s, equal);
      if k < |s| && !wantsData && remove then [s[k]] else []
    case _ => []
  }

  // ---------------------------------------------------------------- the list in place

  class Element {
    var next: Element?
    var prev: Element?
    var item: Item

    constructor (item: Item, next: Element?)
      ensures this.item == item && this.next == next && prev == null
    {
      this.item, this.next, prev := item, next, null;
    }
  }

  function At(nodes: seq<Element>, i: int): Element? {
    if 0 <= i < |nodes| then nodes[i] else null
  }

  lemma AtDropAt(s: seq<Element>, k: nat, i: int)
    requires k < |s| && -1 <= i < |s|
    ensures At(DropAt(s, k), i) == At(s, if i < k then i else i + 1)
  {
  }

  /** next and prev are inverse to each other, no node comes twice, and each has its item. */
  ghost predicate Linked(nodes: seq<Element>, contents: seq<Item>)
    reads nodes
  {
    && (forall i, j :: 0 <= i < j < |nodes| ==> nodes[i] != nodes[j])
    && (forall i {:trigger nodes[i].next} :: 0 <= i < |nodes| ==> nodes[i].next == At(nodes, i + 1))
    && (forall i {:trigger nodes[i].prev} :: 0 <= i < |nodes| ==> nodes[i].prev == At(nodes, i - 1))
    && |contents| == |nodes|
    && (forall i {:trigger nodes[i].item} :: 0 <= i < |nodes| ==> nodes[i].item == contents[i])
  }

  /** Like Linked, but the links pass over the k-th node. */
  ghost predicate Bridged(nodes: seq<Element>, contents: seq<Item>, k: nat)
    requires k < |nodes|
    reads nodes
  {
    && (forall i, j :: 0 <= i < j < |nodes| ==> nodes[i] != nodes[j])
    && (forall i {:trigger nodes[i].next} :: 0 <= i < |nodes| && i != k ==>
          nodes[i].next == At(nodes, if i + 1 == k then i + 2 else i + 1))
    && (forall i {:trigger nodes[i].prev} :: 0 <= i < |nodes| && i != k ==>
          nodes[i].prev == At(nodes, if i - 1 == k then i - 2 else i - 1))
    && |contents| == |nodes|
    && (forall i {:trigger nodes[i].item} :: 0 <= i < |nodes| && i != k ==> nodes[i].item == contents[i])
  }

  lemma BridgedIsLinked(nodes: seq<Element>, contents: seq<Item>, k: nat)
    requires k < |nodes| && Bridged(nodes, contents, k)
    ensures Linked(DropAt(nodes, k), DropAt(contents, k))
  {
    var now := DropAt(nodes, k);
    ItemsStay(nodes, contents, k);
    forall i | 0 <= i < |now| ensures now[i].next == At(now, i + 1) && now[i].prev == At(now, i - 1) {
      NextPassesOver(nodes, k, i);
      PrevPassesOver(nodes, k, i);
    }
  }

  /** A link to the k-th node goes one further. */
  lemma NextPassesOver(was: seq<Element>, k: nat, i: nat)
    requires k < |was| && i < |was| - 1
    requires var j := if i < k then i else i + 1;
             was[j].next == At(was, if j + 1 == k then j + 2 else j + 1)
    ensures DropAt(was, k)[i].next == At(DropAt(was, k), i + 1)
  {
    AtDropAt(was, k, i);
    AtDropAt(was, k, i + 1);
    assert DropAt(was, k)[i] == was[if i < k then i else i + 1];
  }

  lemma PrevPassesOver(was: seq<Element>, k: nat, i: nat)
    requires k < |was| && i < |was| - 1
    requires var j := if i < k then i else i + 1;
             was[j].prev == At(was, if j - 1 == k then j - 2 else j - 1)
    ensures DropAt(was, k)[i].prev == At(DropAt(was, k), i - 1)
  {
    AtDropAt(was, k, i);
    AtDropAt(was, k, i - 1);
    assert DropAt(was, k)[i] == was[if i < k then i else i + 1];
  }

  lemma ItemsStay(was: seq<Element>, had: seq<Item>, k: nat)
    requires k < |was| == |had|
    requires forall i, j :: 0 <= i < j < |was| ==> was[i] != was[j]
    requires forall i {:trigger was[i].item} :: 0 <= i < |was| && i != k ==> was[i].item == had[i]
    ensures var now, has := DropAt(was, k), DropAt(had, k);
            && (forall i, j :: 0 <= i < j < |now| ==> now[i] != now[j])
            && |now| == |has| && forall i {:trigger now[i].item} :: 0 <= i < |now| ==> now[i].item == has[i]
  {
    var now, has := DropAt(was, k), DropAt(had, k);
    forall i | 0 <= i < |now| ensures now[i].item == has[i] {
      assert now[i] == was[if i < k then i else i + 1] && has[i] == had[if i < k then i else i + 1];
    }
    forall i, j | 0 <= i < j < |now| ensures now[i] != now[j] {
      assert now[i] == was[if i < k then i else i + 1] && now[j] == was[if j < k then j else j + 1];
    }
  }

  /** Once the last node but one points nowhere, the nodes before the last are a list. */
  lemma ShortenedIsLinked(nodes: seq<Element>, contents: seq<Item>)
    requires nodes != [] && |contents| == |nodes|
    requires forall i, j :: 0 <= i < j < |nodes| ==> nodes[i] != nodes[j]
    requires forall i {:trigger nodes[i].next} :: 0 <= i < |nodes| - 1 ==>
               nodes[i].next == if i == |nodes| - 2 then null else nodes[i + 1]
    requires forall i {:trigger nodes[i].prev} :: 0 <= i < |nodes| ==> nodes[i].prev == At(nodes, i - 1)
    requires forall i {:trigger nodes[i].item} :: 0 <= i < |nodes| ==> nodes[i].item == contents[i]
    ensures Linked(nodes[..|nodes| - 1], contents[..|nodes| - 1])
  {
  }

  /** A node that the first node points back to, put in front of the others. */
  lemma PrecededIsLinked(elem: Element, nodes: seq<Element>, contents: seq<Item>)
    requires |contents| == |nodes| && elem !in nodes && elem.prev == null && elem.next == At(nodes, 0)
    requires forall i, j :: 0 <= i < j < |nodes| ==> nodes[i] != nodes[j]
    requires forall i {:trigger nodes[i].next} :: 0 <= i < |nodes| ==> nodes[i].next == At(nodes, i + 1)
    requires forall i {:trigger nodes[i].prev} :: 0 <= i < |nodes| ==>
               nodes[i].prev == if i == 0 then elem else nodes[i - 1]
    requires forall i {:trigger nodes[i].item} :: 0 <= i < |nodes| ==> nodes[i].item == contents[i]
    ensures Linked([elem] + nodes, [elem.item] + contents)
  {
    var now := [elem] + nodes;
    assert forall i :: 1 <= i < |now| ==> now[i] == nodes[i - 1];
  }

  class LinkedList {
    var head: Element?
    var tail: Element?
    ghost var nodes: seq<Element>
    ghost var contents: seq<Item>
    ghost var freed: seq<Item>    // the items dealloc functions were called for

    /** The nodes are linked, and head and tail are the ends. */
    ghost predicate Valid()
      reads this, nodes
    {
      Linked(nodes, contents) && head == At(nodes, 0) && tail == At(nodes, |nodes| - 1)
    }

    constructor ()
      ensures Valid() && contents == [] && freed == [] && nodes == []
    {
      head, tail := null, null;
      nodes, contents, freed := [], [], [];
    }

    /** `data` is None for a null pointer; `haveMemory` says whether malloc succeeds. */
    method Add(data: Option<int>, dealloc: Option<int>, haveMemory: bool) returns (err: Error)
      requires Valid()
      modifies this, nodes
      ensures Valid() && freed == old(freed) && forall n :: n in nodes ==> n in old(nodes) || fresh(n)
      ensures err == if data.None? then InvalidParameter else if !haveMemory then FailureGeneral else Success
      ensures contents == if err == Success then After(old(contents), AddOp(Item(data.value, dealloc)))
                          else old(contents)
      ensures err == Success ==> contents == [Item(data.value, dealloc)] + old(contents)
    {
      if data.None? { return InvalidParameter; }
      if !haveMemory { return FailureGeneral; }
      var tmp := head;
      var elem := new Element(Item(data.value, dealloc), tmp);
      head := elem;
      if tmp != null {
        tmp.prev := elem;
      } else {
        tail := elem;
      }
      PrecededIsLinked(elem, nodes, contents);
      Adopt([elem] + nodes, [elem.item] + contents);
      return Success;
    }

    /** Takes the oldest item off the tail; `wantsData` says the caller's pointer for it is not null. */
    method Remove(wantsData: bool) returns (err: Error, data: Option<int>)
      requires Valid()
      modifies this, nodes
      ensures Valid() && freed == old(freed) && forall n :: n in nodes ==> n in old(nodes)
      ensures err == if !wantsData then InvalidParameter
                     else if old(contents) == [] then UnavailableResource else Success
      ensures err == Success ==>
                contents == After(old(contents), RemoveOp) && HandedBack(old(contents), RemoveOp) != []
                && data == Some(HandedBack(old(contents), RemoveOp)[0].data)
      ensures err == Success ==> old(contents) == contents + [old(contents)[|old(contents)| - 1]]
                                 && data == Some(old(contents)[|old(contents)| - 1].data)
      ensures err != Success ==> contents == old(contents) && data == None
    {
      if !wantsData { return InvalidParameter, None; }
      if tail == null { return UnavailableResource, None; }
      var tmp := tail;
      data := Some(tmp.item.data);
      tail := tmp.prev;
      if tail != null {
        tail.next := null;
      } else {
        head := tail;
      }
      ShortenedIsLinked(nodes, contents);
      Adopt(nodes[..|nodes| - 1], contents[..|contents| - 1]);
      return Success, data;
    }

    ghost method Adopt(nodes: seq<Element>, contents: seq<Item>)
      requires Linked(nodes, contents) && head == At(nodes, 0) && tail == At(nodes, |nodes| - 1)
      modifies this`nodes, this`contents
      ensures Valid() && this.nodes == nodes && this.contents == contents
    {
      this.nodes, this.contents := nodes, contents;
    }

    method Empty() returns (empty: bool)
      requires Valid()
      ensures empty <==> contents == []
    {
      empty := head == null;
    }

    method Dealloc(item: Item)
      requires item.dealloc.Some?
      modifies this`freed
      ensures freed == old(freed) + [item]
    {
      freed := freed + [item];
    }

    /** Frees every item that has a function for it, newest first. */
    method Flush()
      requires Valid()
      modifies this
      ensures Valid() && nodes == [] && contents == After(old(contents), FlushOp) == []
      ensures freed == old(freed) + Freeable(old(contents))
      ensures freed == old(freed) + Freeable(LetGo(old(contents), FlushOp))
    {
      ghost var k := 0;
      while head != null
        invariant 0 <= k <= |nodes| && head == At(nodes, k)
        invariant nodes == old(nodes) && contents == old(contents) && |contents| == |nodes|
        invariant forall i {:trigger nodes[i].next} :: 0 <= i < |nodes| ==> nodes[i].next == At(nodes, i + 1)
        invariant forall i {:trigger nodes[i].item} :: 0 <= i < |nodes| ==> nodes[i].item == contents[i]
        invariant freed + Freeable(contents[k..]) == old(freed) + Freeable(old(contents))
        decreases |nodes| - k
      {
        assert nodes[k].item == contents[k] && contents[k..][1..] == contents[k + 1..];
        var tmp := head.next;
        if head.item.dealloc.Some? {
          Dealloc(head.item);
        }
        head := tmp;
        k := k + 1;
      }
      tail := null;
      nodes, contents := [], [];
    }

    /** Finds the newest item `equal` accepts. With `remove`, takes out that one; it is freed if the
        caller did not ask for its data. */
    method Search(equal: int -> bool, wantsData: bool, remove: bool) returns (err: Error, data: Option<int>)
      requires Valid()
      modifies this, nodes
      ensures Valid() && forall n :: n in nodes ==> n in old(nodes)
      ensures err == if old(contents) == [] then UnavailableResource else Success
      ensures var op := SearchOp(equal, wantsData, remove);
              && contents == After(old(contents), op)
              && freed == old(freed) + Freeable(LetGo(old(contents), op))
              && (HandedBack(old(contents), op) != [] ==> data == Some(HandedBack(old(contents), op)[0].data))
      ensures var k := Newest(old(contents), equal);
              && data == (if wantsData && k < |old(contents)| then Some(old(contents)[k].data) else None)
              && contents == (if remove then DropAt(old(contents), k) else old(contents))
      // what is copied out is never freed; what is taken out otherwise is, if it has a function for it
      ensures wantsData || !remove ==> freed == old(freed)
      ensures var k := Newest(old(contents), equal);
              !wantsData && remove && k < |old(contents)| ==>
                freed == old(freed) + if old(contents)[k].dealloc.Some? then [old(contents)[k]] else []
    {
      if tail == null { return UnavailableResource, None; }
      var tmp := head;
      data := None;
      ghost var k := 0;
      while tmp != null
        invariant 0 <= k <= |nodes| && tmp == At(nodes, k)
        invariant forall j :: 0 <= j < k ==> !equal(contents[j].data)
        decreases |nodes| - k
      {
        assert nodes[k].item == contents[k];
        if equal(tmp.item.data) {
          assert k == Newest(contents, equal);
          if wantsData {
            data := Some(tmp.item.data);
          }
          if remove {
            Discard(tmp, k, wantsData);
          }
          return Success, data;
        }
        tmp := tmp.next;
        k := k + 1;
      }
      assert k == Newest(contents, equal);
      return Success, data;
    }

    /** Takes the k-th node out; its data is freed if it is not copied out. */
    method Discard(tmp: Element, ghost k: nat, copiedOut: bool)
      requires Valid() && k < |nodes| && nodes[k] == tmp
      modifies this, nodes
      ensures Valid() && nodes == DropAt(old(nodes), k) && contents == DropAt(old(contents), k)
      ensures freed == old(freed) + if copiedOut then [] else Freeable([old(contents)[k]])
    {
      var item := tmp.item;
      assert item == contents[k];
      Unlink(tmp, k);
      if !copiedOut && item.dealloc.Some? {
        Dealloc(item);
      }
    }

    method Unlink(tmp: Element, ghost k: nat)
      requires Valid() && k < |nodes| && nodes[k] == tmp
      modifies this`head, this`tail, this`nodes, this`contents, nodes
      ensures Valid() && nodes == DropAt(old(nodes), k) && contents == DropAt(old(contents), k)
    {
      Bridge(tmp, k);
      Isolate(tmp, k);
      BridgedIsLinked(nodes, contents, k);
      AtDropAt(nodes, k, 0);
      AtDropAt(nodes, k, |nodes| - 2);
      Adopt(DropAt(nodes, k), DropAt(contents, k));
    }

    method Isolate(tmp: Element, ghost k: nat)
      requires k < |nodes| && nodes[k] == tmp && Bridged(nodes, contents, k)
      modifies tmp
      ensures Bridged(nodes, contents, k)
    {
      tmp.prev, tmp.next := null, null;
    }

    /** Joins the neighbours of `tmp`, the k-th node, or the ends of the list where it has none. */
    method Bridge(tmp: Element, ghost k: nat)
      requires Valid() && k < |nodes| && nodes[k] == tmp
      modifies this`head, this`tail, nodes
      ensures nodes == old(nodes) && contents == old(contents) && Bridged(nodes, contents, k)
      ensures head == At(nodes, if k == 0 then 1 else 0)
      ensures tail == At(nodes, if k == |nodes| - 1 then |nodes| - 2 else |nodes| - 1)
      ensures forall i :: 0 <= i < |nodes| ==> nodes[i].item == old(nodes[i].item)
    {
      if tmp.prev == null {
        head := tmp.next;
      } else {
        tmp.prev.next := tmp.next;
      }
      if tmp.next == null {
        tail := tmp.prev;
      } else {
        tmp.next.prev := tmp.prev;
      }
    }

    /** linked_list_destroy, but for the handle itself. */
    method Destroy()
      requires Valid()
      modifies this
      ensures Valid() && contents == After(old(contents), FlushOp) == []
      ensures freed == old(freed) + Freeable(old(contents))
    {
      Flush();
    }
  }

  // ---------------------------------------------------------------- every run

  function Added(op: Op): seq<Item> {
    if op.AddOp? then [op.item] else []
  }

  function Run(s: seq<Item>, ops: seq<Op>): seq<Item>
    decreases |ops|
  {
    if ops == [] then s else Run(After(s, ops[0]), ops[1..])
  }

  function AllAdded(ops: seq<Op>): seq<Item> {
    if ops == [] then [] else Added(ops[0]) + AllAdded(ops[1..])
  }

  function AllHandedBack(s: seq<Item>, ops: seq<Op>): seq<Item>
    decreases |ops|
  {
    if ops == [] then [] else HandedBack(s, ops[0]) + AllHandedBack(After(s, ops[0]), ops[1..])
  }

  function AllLetGo(s: seq<Item>, ops: seq<Op>): seq<Item>
    decreases |ops|
  {
    if ops == [] then [] else LetGo(s, ops[0]) + AllLetGo(After(s, ops[0]), ops[1..])
  }

  /** The calls of dealloc functions a run makes. */
  function AllFreed(s: seq<Item>, ops: seq<Op>): seq<Item>
    decreases |ops|
  {
    if ops == [] then [] else Freeable(LetGo(s, ops[0])) + AllFreed(After(s, ops[0]), ops[1..])
  }

  lemma {:induction false} FreeableJoins(a: seq<Item>, b: seq<Item>)
    ensures Freeable(a + b) == Freeable(a) + Freeable(b)
  {
    if a == [] {
      assert a + b == b;
    } else {
      assert (a + b)[1..] == a[1..] + b;
      FreeableJoins(a[1..], b);
      Associates(if a[0].dealloc.Some? then [a[0]] else [], Freeable(a[1..]), Freeable(b));
    }
  }

  lemma {:induction false} FreedIsFreeable(s: seq<Item>, ops: seq<Op>)
    ensures AllFreed(s, ops) == Freeable(AllLetGo(s, ops))
    decreases |ops|
  {
    if ops != [] {
      FreedIsFreeable(After(s, ops[0]), ops[1..]);
      FreeableJoins(LetGo(s, ops[0]), AllLetGo(After(s, ops[0]), ops[1..]));
    }
  }

  lemma {:induction false} FreeableCounts(s: seq<Item>, x: Item)
    ensures multiset(Freeable(s))[x] == if x.dealloc.Some? then multiset(s)[x] else 0
  {
    if s != [] {
      FreeableCounts(s[1..], x);
      assert s == [s[0]] + s[1..];
    }
  }

  lemma TakenOut(s: seq<Item>, k: nat)
    requires k < |s|
    ensures multiset(s) == multiset([s[k]]) + multiset(DropAt(s, k))
  {
    assert s == s[..k] + [s[k]] + s[k + 1..];
  }

  lemma SearchConserves(s: seq<Item>, op: Op)
    requires op.SearchOp?
    ensures multiset(s) == multiset(HandedBack(s, op) + LetGo(s, op)) + multiset(After(s, op))
  {
    var k := Newest(s, op.equal);
    if k < |s| && op.remove {
      TakenOut(s, k);
      assert HandedBack(s, op) + LetGo(s, op) == [s[k]];
    } else {
      assert HandedBack(s, op) + LetGo(s, op) == [];
    }
  }

  lemma StepConserves(s: seq<Item>, op: Op)
    ensures multiset(s) + multiset(Added(op)) == multiset(HandedBack(s, op) + LetGo(s, op)) + multiset(After(s, op))
  {
    match op {
      case AddOp(_) => assert HandedBack(s, op) + LetGo(s, op) == [];
      case RemoveOp =>
        assert HandedBack(s, op) + LetGo(s, op) == HandedBack(s, op);
        if s != [] { assert s == s[..|s| - 1] + [s[|s| - 1]]; }
      case FlushOp => assert HandedBack(s, op) + LetGo(s, op) == s;
      case SearchOp(_, _, _) => SearchConserves(s, op);
    }
  }

  lemma Parted(h: seq<Item>, l: seq<Item>, hs: seq<Item>, ls: seq<Item>)
    ensures multiset(h + l) + multiset(hs + ls) == multiset((h + hs) + (l + ls))
  {
  }

  /** Over any run every item is handed back once, let go once or still in the list once. */
  lemma {:induction false} ItemsConserved(s: seq<Item>, ops: seq<Op>)
    ensures multiset(s) + multiset(AllAdded(ops))
            == multiset(AllHandedBack(s, ops) + AllLetGo(s, ops)) + multiset(Run(s, ops))
    decreases |ops|
  {
    if ops != [] {
      var s' := After(s, ops[0]);
      StepConserves(s, ops[0]);
      ItemsConserved(s', ops[1..]);
      Telescope(multiset(s), multiset(Added(ops[0])), multiset(HandedBack(s, ops[0]) + LetGo(s, ops[0])), multiset(s'),
                multiset(AllAdded(ops[1..])), multiset(AllHandedBack(s', ops[1..]) + AllLetGo(s', ops[1..])),
                multiset(Run(s', ops[1..])));
      Parted(HandedBack(s, ops[0]), LetGo(s, ops[0]), AllHandedBack(s', ops[1..]), AllLetGo(s', ops[1..]));
    } else {
      assert AllHandedBack(s, []) + AllLetGo(s, []) == [];
    }
  }

  /** Over any run an item with a function to free it is handed back, freed or still stored, once for
      each time it was added; the function of an item that has none is never called. */
  lemma FreedOnce(s: seq<Item>, ops: seq<Op>, x: Item)
    ensures x.dealloc.Some? ==>
              multiset(s)[x] + multiset(AllAdded(ops))[x]
              == multiset(AllHandedBack(s, ops))[x] + multiset(AllFreed(s, ops))[x] + multiset(Run(s, ops))[x]
    ensures x.dealloc.None? ==> x !in AllFreed(s, ops)
  {
    ItemsConserved(s, ops);
    FreedIsFreeable(s, ops);
    FreeableCounts(AllLetGo(s, ops), x);
    assert (multiset(s) + multiset(AllAdded(ops)))[x]
        == (multiset(AllHandedBack(s, ops) + AllLetGo(s, ops)) + multiset(Run(s, ops)))[x];
    if x in AllFreed(s, ops) {
      assert x in multiset(AllFreed(s, ops));
    }
  }

  /** Whether the caller receives the pointer of the item that an operation takes out. */
  predicate Receives(op: Op) {
    op.RemoveOp? || (op.SearchOp? && op.remove && op.wantsData)
  }

  /** Whether it takes items out without the caller receiving them. */
  predicate Discards(op: Op) {
    op.FlushOp? || (op.SearchOp? && op.remove && !op.wantsData)
  }

  /** The dealloc calls of the operations that discard items: all that leave the list there. */
  function FreedByDiscards(s: seq<Item>, ops: seq<Op>): seq<Item>
    decreases |ops|
  {
    if ops == [] then []
    else (if Discards(ops[0]) then Freeable(Leaving(s, ops[0])) else []) + FreedByDiscards(After(s, ops[0]), ops[1..])
  }

  /** The items an operation takes out of the list, whoever gets them. */
  function Leaving(s: seq<Item>, op: Op): seq<Item> {
    match op
    case AddOp(_) => []
    case RemoveOp => if s == [] then [] else [s[|s| - 1]]
    case FlushOp => s
    case SearchOp(equal, _, remove) => if remove && Newest(s, equal) < |s| then [s[Newest(s, equal)]] else []
  }

  lemma LeavingLeaves(s: seq<Item>, op: Op)
    ensures multiset(s) + multiset(Added(op)) == multiset(Leaving(s, op)) + multiset(After(s, op))
  {
    StepConserves(s, op);
    assert HandedBack(s, op) + LetGo(s, op) == Leaving(s, op);
  }

  /** What leaves the list is either received by the caller or freed if it can be, never both: an
      operation whose item the caller receives frees nothing, and one that discards hands nothing back. */
  lemma ReceivedOrFreed(s: seq<Item>, op: Op)
    ensures Receives(op) ==> HandedBack(s, op) == Leaving(s, op) && LetGo(s, op) == []
    ensures Discards(op) ==> HandedBack(s, op) == [] && LetGo(s, op) == Leaving(s, op)
    ensures !Receives(op) && !Discards(op) ==> Leaving(s, op) == []
  {
  }

  /** Over any run the dealloc calls are exactly those for the items that were discarded: no item whose
      pointer a caller received is freed for that. */
  lemma {:induction false} NoReceivedItemFreed(s: seq<Item>, ops: seq<Op>)
    ensures AllFreed(s, ops) == FreedByDiscards(s, ops)
    decreases |ops|
  {
    if ops != [] {
      ReceivedOrFreed(s, ops[0]);
      NoReceivedItemFreed(After(s, ops[0]), ops[1..]);
    }
  }

  // ---------------------------------------------------------------- order

  /** `a` is what is left of `b` after some of its items are struck out. */
  predicate Within(a: seq<Item>, b: seq<Item>)
    decreases |b|
  {
    a == [] || (b != [] && ((a[0] == b[0] && Within(a[1..], b[1..])) || Within(a, b[1..])))
  }

  lemma {:induction false} WithinMore(a: seq<Item>, before: seq<Item>, x: Item, after: seq<Item>)
    requires Within(a, before + after)
    ensures Within(a, before + [x] + after)
    decreases |before|
  {
    if before == [] {
      assert before + after == after;
      assert (before + [x] + after)[1..] == after;
    } else if a != [] {
      assert (before + after)[1..] == before[1..] + after;
      assert (before + [x] + after)[1..] == before[1..] + [x] + after;
      if a[0] == before[0] && Within(a[1..], before[1..] + after) {
        WithinMore(a[1..], before[1..], x, after);
      } else {
        WithinMore(a, before[1..], x, after);
      }
    }
  }

  lemma {:induction false} WithinLonger(a: seq<Item>, before: seq<Item>, after: seq<Item>)
    requires Within(a, after)
    ensures Within(a, before + after)
  {
    if before == [] {
      assert before + after == after;
    } else {
      WithinLonger(a, before[1..], after);
      assert (before + after)[1..] == before[1..] + after;
    }
  }

  lemma {:induction false} WithinItself(a: seq<Item>)
    ensures Within(a, a)
  {
    if a != [] {
      WithinItself(a[1..]);
    }
  }

  lemma {:induction false} FifoJoins(a: seq<Item>, b: seq<Item>)
    ensures Fifo(a + b) == Fifo(b) + Fifo(a)
  {
    if a == [] {
      assert a + b == b;
    } else {
      assert (a + b)[1..] == a[1..] + b;
      FifoJoins(a[1..], b);
    }
  }

  lemma {:induction false} FifoLast(s: seq<Item>)
    requires s != []
    ensures Fifo(s) == [s[|s| - 1]] + Fifo(s[..|s| - 1])
  {
    if |s| > 1 {
      assert s[1..][..|s| - 2] == s[..|s| - 1][1..];
      FifoLast(s[1..]);
    }
  }

  lemma FifoMiddle(a: seq<Item>, x: Item, b: seq<Item>)
    ensures Fifo(a + ([x] + b)) == Fifo(b) + [x] + Fifo(a)
  {
    FifoJoins(a, [x] + b);
    assert ([x] + b)[1..] == b;
  }

  /** Striking out one item leaves the others in order of arrival. */
  lemma StruckOutWithin(a: seq<Item>, x: Item, b: seq<Item>, later: seq<Item>, more: seq<Item>)
    requires Within(later, Fifo(a + b) + more)
    ensures Within(later, Fifo(a + ([x] + b)) + more)
  {
    FifoJoins(a, b);
    FifoMiddle(a, x, b);
    Associates(Fifo(b), Fifo(a), more);
    WithinMore(later, Fifo(b), x, Fifo(a) + more);
    Associates(Fifo(b) + [x], Fifo(a), more);
  }

  /** The items remove() hands back over a run. */
  function AllRemoved(s: seq<Item>, ops: seq<Op>): seq<Item>
    decreases |ops|
  {
    if ops == [] then []
    else (if ops[0].RemoveOp? then HandedBack(s, ops[0]) else []) + AllRemoved(After(s, ops[0]), ops[1..])
  }

  lemma RemoveKeepsOrder(s: seq<Item>, later: seq<Item>, more: seq<Item>)
    requires s != [] && Within(later, Fifo(s[..|s| - 1]) + more)
    ensures Within([s[|s| - 1]] + later, Fifo(s) + more)
  {
    FifoLast(s);
    Associates([s[|s| - 1]], Fifo(s[..|s| - 1]), more);
    WithinCons(s[|s| - 1], later, Fifo(s[..|s| - 1]) + more);
  }

  lemma WithinCons(x: Item, a: seq<Item>, b: seq<Item>)
    requires Within(a, b)
    ensures Within([x] + a, [x] + b)
  {
    assert ([x] + a)[1..] == a && ([x] + b)[1..] == b;
  }

  lemma SearchKeepsOrder(s: seq<Item>, k: nat, later: seq<Item>, more: seq<Item>)
    requires k < |s| && Within(later, Fifo(DropAt(s, k)) + more)
    ensures Within(later, Fifo(s) + more)
  {
    var a, b := s[..k], s[k + 1..];
    StruckOutWithin(a, s[k], b, later, more);
    assert s == a + ([s[k]] + b);
  }

  lemma AddKeepsOrder(s: seq<Item>, item: Item, later: seq<Item>, more: seq<Item>)
    requires Within(later, Fifo([item] + s) + more)
    ensures Within(later, Fifo(s) + ([item] + more))
  {
    assert ([item] + s)[1..] == s;
    Associates(Fifo(s), [item], more);
  }

  lemma StepKeepsOrder(s: seq<Item>, op: Op, later: seq<Item>, more: seq<Item>)
    requires Within(later, Fifo(After(s, op)) + more)
    ensures Within((if op.RemoveOp? then HandedBack(s, op) else []) + later, Fifo(s) + (Added(op) + more))
  {
    assert [] + later == later && [] + more == more;
    match op {
      case AddOp(item) => AddKeepsOrder(s, item, later, more);
      case RemoveOp => if s != [] { RemoveKeepsOrder(s, later, more); }
      case FlushOp => WithinLonger(later, Fifo(s), more);
      case SearchOp(equal, _, remove) =>
        if remove && Newest(s, equal) < |s| {
          SearchKeepsOrder(s, Newest(s, equal), later, more);
        }
    }
  }

  /** Over any run, with flushes and searches that take items out, items leave in the order of their
      arrival: what remove() hands back, followed by what remains, is what was there and was added, in
      that order, with some items struck out. */
  lemma {:induction false} LeaveInOrder(s: seq<Item>, ops: seq<Op>)
    ensures Within(AllRemoved(s, ops) + Fifo(Run(s, ops)), Fifo(s) + AllAdded(ops))
    decreases |ops|
  {
    if ops == [] {
      assert [] + Fifo(s) == Fifo(s) && Fifo(s) + [] == Fifo(s);
      WithinItself(Fifo(s));
    } else {
      var s' := After(s, ops[0]);
      LeaveInOrder(s', ops[1..]);
      StepKeepsOrder(s, ops[0], AllRemoved(s', ops[1..]) + Fifo(Run(s', ops[1..])), AllAdded(ops[1..]));
      Associates(if ops[0].RemoveOp? then HandedBack(s, ops[0]) else [], AllRemoved(s', ops[1..]),
                 Fifo(Run(s', ops[1..])));
    }
  }

  lemma {:induction false} WithinLength(a: seq<Item>, b: seq<Item>)
    requires Within(a, b)
    ensures |a| <= |b| && (|a| == |b| ==> a == b)
    decreases |b|
  {
    if a != [] {
      if a[0] == b[0] && Within(a[1..], b[1..]) {
        WithinLength(a[1..], b[1..]);
        assert a == [a[0]] + a[1..] && b == [b[0]] + b[1..];
      } else {
        WithinLength(a, b[1..]);
      }
    }
  }

  /** Nothing is struck out, so that the list is first in, first out, if and only if no item is
      flushed or taken out by a search. */
  lemma FirstInFirstOutIff(s: seq<Item>, ops: seq<Op>)
    ensures Fifo(s) + AllAdded(ops) == AllRemoved(s, ops) + Fifo(Run(s, ops))
            <==> AllLetGo(s, ops) == [] && |AllHandedBack(s, ops)| == |AllRemoved(s, ops)|
  {
    ItemsConserved(s, ops);
    LeaveInOrder(s, ops);
    RemovedAreHandedBack(s, ops);
    FifoIsReverse(s);
    FifoIsReverse(Run(s, ops));
    WithinLength(AllRemoved(s, ops) + Fifo(Run(s, ops)), Fifo(s) + AllAdded(ops));
    assert |multiset(s) + multiset(AllAdded(ops))|
        == |multiset(AllHandedBack(s, ops) + AllLetGo(s, ops)) + multiset(Run(s, ops))|;
  }

  lemma {:induction false} RemovedAreHandedBack(s: seq<Item>, ops: seq<Op>)
    ensures |AllRemoved(s, ops)| <= |AllHandedBack(s, ops)|
    decreases |ops|
  {
    if ops != [] {
      RemovedAreHandedBack(After(s, ops[0]), ops[1..]);
    }
  }
}
