/**
  Perf-lock handles held for hints: the singly linked list of power/list.c, and perform_hint_action
  and undo_hint_action of power/utils.c on top of it.
  */
module PerfLock {
  import opened Basics
  import opened VideoHint

  /** struct hint_data: which hint, and the perf-lock handle held for it. */
  datatype HintData = HintData(id: int, handle: int)

  // ---------------------------------------------------------------- the list as a value

  /** The first place, from the front, that holds `id`; the length if there is none. */
  function Find(s: seq<HintData>, id: int): (k: nat)
    ensures k <= |s|
    ensures k < |s| ==> s[k].id == id
    ensures forall j :: 0 <= j < k ==> s[j].id != id
  {
    if s == [] then 0 else if s[0].id == id then 0 else 1 + Find(s[1..], id)
  }

  /** The entry at `k` is the newest for `id`: entries are added in front. */
  predicate Newest(s: seq<HintData>, id: int, k: nat)
    requires k < |s|
  {
    s[k].id == id && forall j :: 0 <= j < k ==> s[j].id != id
  }

  lemma NewestIsFound(s: seq<HintData>, id: int)
    ensures forall k :: 0 <= k < |s| && Newest(s, id, k) ==> k == Find(s, id)
    ensures Find(s, id) < |s| ==> Newest(s, id, Find(s, id))
  {
  }

  function Handles(s: seq<HintData>): multiset<int> {
    if s == [] then multiset{} else multiset{s[0].handle} + Handles(s[1..])
  }

  lemma {:induction false} HandlesDropAt(s: seq<HintData>, k: nat)
    requires k < |s|
    ensures Handles(s) == Handles(DropAt(s, k)) + multiset{s[k].handle}
  {
    if k == 0 {
      assert DropAt(s, 0) == s[1..];
    } else {
      HandlesDropAt(s[1..], k - 1);
      assert DropAt(s, k)[1..] == DropAt(s[1..], k - 1) && DropAt(s, k)[0] == s[0];
      Reassociate(multiset{s[0].handle}, Handles(DropAt(s[1..], k - 1)), multiset{s[k].handle});
    }
  }

  lemma Reassociate(a: multiset<int>, b: multiset<int>, c: multiset<int>)
    ensures a + (b + c) == (a + b) + c
  {
  }

  lemma HandlesCons(x: HintData, s: seq<HintData>)
    ensures Handles([x] + s) == Handles(s) + multiset{x.handle}
    ensures Handles([x] + s) - multiset{x.handle} == Handles(s)
  {
    assert ([x] + s)[1..] == s;
  }

  lemma OneHandleLess(s: seq<HintData>, k: nat)
    requires k < |s|
    ensures Handles(DropAt(s, k)) == Handles(s) - multiset{s[k].handle} && s[k].handle in Handles(s)
  {
    HandlesDropAt(s, k);
  }

  // ---------------------------------------------------------------- the list in place

  class ListNode {
    var next: ListNode?
    var data: HintData
    var hasCompare: bool

    constructor (data: HintData, next: ListNode?, hasCompare: bool)
      ensures this.data == data && this.next == next && this.hasCompare == hasCompare
    {
      this.data, this.next, this.hasCompare := data, next, hasCompare;
    }
  }

  /** The list behind the head node active_hint_list_head, newest entry first. */
  class HintList {
    const head: ListNode
    ghost var nodes: seq<ListNode>
    ghost var contents: seq<HintData>

    /** head and nodes are linked in order and end in null, each node once, each with its data and,
        as only perform_hint_action adds nodes, with a compare function. */
    ghost predicate Valid()
      reads this, head, nodes
    {
      && head !in nodes
      && (forall i, j :: 0 <= i < j < |nodes| ==> nodes[i] != nodes[j])
      && head.next == NodeAt(nodes, 0)
      && (forall i {:trigger nodes[i].next} :: 0 <= i < |nodes| ==> nodes[i].next == NodeAt(nodes, i + 1))
      && |contents| == |nodes|
      && (forall i :: 0 <= i < |nodes| ==> nodes[i].data == contents[i] && nodes[i].hasCompare)
    }

    constructor ()
      ensures Valid() && contents == [] && !head.hasCompare && fresh(head) && nodes == []
    {
      head := new ListNode(HintData(0, 0), null, false);
      nodes, contents := [], [];
    }

    method SetCompare()
      requires Valid()
      modifies head`hasCompare
      ensures Valid() && head.hasCompare
    {
      if !head.hasCompare {
        head.hasCompare := true;
      }
    }

    /** A new node right behind the head, with the head's compare; None if malloc fails. */
    method AddListNode(data: HintData, haveMemory: bool) returns (added: bool)
      requires Valid() && head.hasCompare
      modifies this, head
      ensures Valid() && head.hasCompare && forall n :: n in nodes ==> n in old(nodes) || fresh(n)
      ensures added == haveMemory
      ensures contents == if haveMemory then [data] + old(contents) else old(contents)
    {
      if !haveMemory { return false; }
      var node := new ListNode(data, head.next, head.hasCompare);
      head.next := node;
      ghost var oldNodes := nodes;
      nodes, contents := [node] + nodes, [data] + contents;
      assert forall i :: 1 <= i < |nodes| ==> nodes[i] == oldNodes[i - 1];
      return true;
    }

    /** Adds an entry, setting the compare function first; false if either allocation fails. */
    method Track(id: int, handle: int, haveDataMemory: bool, haveNodeMemory: bool) returns (added: bool)
      requires Valid()
      modifies this, head
      ensures Valid() && forall n :: n in nodes ==> n in old(nodes) || fresh(n)
      ensures added == (haveDataMemory && haveNodeMemory)
      ensures contents == if added then [HintData(id, handle)] + old(contents) else old(contents)
    {
      if !haveDataMemory { return false; }
      SetCompare();
      added := AddListNode(HintData(id, handle), haveNodeMemory);
    }

    /** The newest node whose data compares equal to `id`. */
    method FindNode(id: int) returns (found: ListNode?)
      requires Valid()
      ensures found == NodeAt(nodes, Find(contents, id))
    {
      var current := head.next;
      ghost var i := 0;
      while current != null
        invariant 0 <= i <= |nodes| && current == NodeAt(nodes, i)
        invariant forall j :: 0 <= j < i ==> contents[j].id != id
        decreases |nodes| - i
      {
        assert nodes[i].data == contents[i];
        if current.hasCompare && current.data.id == id {
          return current;
        }
        current := current.next;
        i := i + 1;
      }
      return null;
    }

    /** Unlinks `del`; returns false, and changes nothing, if it is not in the list. */
    method RemoveListNode(del: ListNode?) returns (removed: bool)
      requires Valid()
      modifies this, head, nodes
      ensures Valid() && head.hasCompare == old(head.hasCompare)
      ensures removed <==> del in old(nodes)
      ensures !removed ==> contents == old(contents) && nodes == old(nodes)
      ensures forall k :: 0 <= k < |old(nodes)| && old(nodes)[k] == del ==>
                nodes == DropAt(old(nodes), k) && contents == DropAt(old(contents), k)
    {
      if head.next == null { return false; }
      var current, saved := head.next, head;
      ghost var k := 0;
      while current != null && current != del
        invariant 0 <= k <= |nodes| && current == NodeAt(nodes, k)
        invariant saved == if k == 0 then head else nodes[k - 1]
        invariant del !in nodes[..k]
        decreases |nodes| - k
      {
        saved := current;
        current := current.next;
        k := k + 1;
      }
      if current == null { return false; }
      Unlink(saved, current, k);
      return true;
    }

    method Unlink(saved: ListNode, current: ListNode, ghost k: nat)
      requires Valid() && k < |nodes| && nodes[k] == current && saved == if k == 0 then head else nodes[k - 1]
      modifies this`nodes, this`contents, saved`next
      ensures Valid() && nodes == DropAt(old(nodes), k) && contents == DropAt(old(contents), k)
    {
      saved.next := current.next;
      DroppedAt(nodes, k);
      DroppedAt(contents, k);
      ghost var oldNodes, oldContents := nodes, contents;
      nodes, contents := DropAt(nodes, k), DropAt(contents, k);
      forall i | 0 <= i < |nodes| ensures nodes[i].data == contents[i] && nodes[i].hasCompare {
        var j := if i < k then i else i + 1;
        assert DropAt(oldNodes, k)[i] == oldNodes[j] && DropAt(oldContents, k)[i] == oldContents[j];
      }
    }

    /** The node just found is unlinked. */
    method RemoveAt(found: ListNode, ghost k: nat)
      requires Valid() && k < |nodes| && nodes[k] == found
      modifies this, head, nodes
      ensures Valid() && nodes == DropAt(old(nodes), k) && contents == DropAt(old(contents), k)
    {
      var removed := RemoveListNode(found);
    }
  }

  function NodeAt(nodes: seq<ListNode>, i: int): ListNode? {
    if 0 <= i < |nodes| then nodes[i] else null
  }

  lemma DroppedAt<T>(s: seq<T>, k: nat)
    requires k < |s|
    ensures |DropAt(s, k)| == |s| - 1
    ensures forall i {:trigger DropAt(s, k)[i]} :: 0 <= i < |s| - 1 ==> DropAt(s, k)[i] == s[if i < k then i else i + 1]
  {
  }

  // ---------------------------------------------------------------- perform and undo

  /** `tracked` is false if the acquire or an allocation failed. */
  datatype Call = PerformCall(id: int, handle: int, tracked: bool) | UndoCall(id: int)

  function After(s: seq<HintData>, c: Call): seq<HintData> {
    match c
    case PerformCall(id, handle, tracked) => if tracked then [HintData(id, handle)] + s else s
    case UndoCall(id) => DropAt(s, Find(s, id))
  }

  /** The list of held handles, and the perf-lock library's side of it: `outstanding` is every handle
      acquired and not yet released. Both library functions are present. */
  class Hints {
    const list: HintList
    ghost var outstanding: multiset<int>

    ghost predicate Valid()
      reads this, list, list.head, list.nodes
    {
      list.Valid() && outstanding == Handles(list.contents)
    }

    constructor ()
      ensures Valid() && list.contents == [] && fresh(list) && fresh(list.head) && list.nodes == []
    {
      list := new HintList();
      outstanding := multiset{};
    }

    /** Calls of the library do not touch the list. */
    method Acquire(handle: int)
      modifies this`outstanding
      ensures outstanding == old(outstanding) + multiset{handle}
    {
      outstanding := outstanding + multiset{handle};
    }

    method Release(handle: int)
      requires handle in outstanding
      modifies this`outstanding
      ensures outstanding == old(outstanding) - multiset{handle}
    {
      outstanding := outstanding - multiset{handle};
    }

    /** `handle` is what perf_lock_acq returns, -1 if it fails; either allocation may fail, and then
        the handle is given back at once. */
    method PerformHintAction(id: int, handle: int, haveDataMemory: bool, haveNodeMemory: bool)
      requires Valid()
      modifies this`outstanding, list, list.head
      ensures Valid() && forall n :: n in list.nodes ==> n in old(list.nodes) || fresh(n)
      ensures list.contents ==
              After(old(list.contents), PerformCall(id, handle, handle != -1 && haveDataMemory && haveNodeMemory))
      ensures list.contents == if handle != -1 && haveDataMemory && haveNodeMemory
                               then [HintData(id, handle)] + old(list.contents) else old(list.contents)
    {
      if handle != -1 {
        Acquire(handle);
        TrackOrRelease(id, handle, haveDataMemory, haveNodeMemory);
      }
    }

    method TrackOrRelease(id: int, handle: int, haveDataMemory: bool, haveNodeMemory: bool)
      requires list.Valid() && outstanding == Handles(list.contents) + multiset{handle}
      modifies this`outstanding, list, list.head
      ensures Valid() && forall n :: n in list.nodes ==> n in old(list.nodes) || fresh(n)
      ensures list.contents ==
              After(old(list.contents), PerformCall(id, handle, haveDataMemory && haveNodeMemory))
    {
      HandlesCons(HintData(id, handle), list.contents);
      var added := list.Track(id, handle, haveDataMemory, haveNodeMemory);
      if !added {
        Release(handle);
      }
    }

    method ReleaseAndRemove(found: ListNode, ghost k: nat)
      requires list.Valid() && k < |list.nodes| && list.nodes[k] == found
      requires list.contents[k].handle in outstanding
      modifies this`outstanding, list, list.head, list.nodes
      ensures list.Valid() && outstanding == old(outstanding) - multiset{old(list.contents)[k].handle}
      ensures list.nodes == DropAt(old(list.nodes), k) && list.contents == DropAt(old(list.contents), k)
    {
      Release(found.data.handle);
      list.RemoveAt(found, k);
    }

    /** Releases the newest handle held for `id` and leaves the others in order. */
    method UndoHintAction(id: int)
      requires Valid()
      modifies this`outstanding, list, list.head, list.nodes
      ensures Valid() && list.nodes == DropAt(old(list.nodes), Find(old(list.contents), id))
      ensures list.contents == After(old(list.contents), UndoCall(id))
      ensures forall k :: 0 <= k < |old(list.contents)| && Newest(old(list.contents), id, k) ==>
                list.contents == old(list.contents)[..k] + old(list.contents)[k + 1..]
      ensures (forall k :: 0 <= k < |old(list.contents)| ==> !Newest(old(list.contents), id, k)) ==>
                list.contents == old(list.contents)
    {
      NewestIsFound(list.contents, id);
      var found := list.FindNode(id);
      if found != null {
        UndoFound(found, Find(list.contents, id));
      }
    }

    method UndoFound(found: ListNode, ghost k: nat)
      requires Valid() && k < |list.nodes| && list.nodes[k] == found
      modifies this`outstanding, list, list.head, list.nodes
      ensures Valid()
      ensures list.nodes == DropAt(old(list.nodes), k) && list.contents == DropAt(old(list.contents), k)
    {
      ghost var before := list.contents;
      OneHandleLess(before, k);
      ReleaseAndRemove(found, k);
      assert list.contents == DropAt(before, k);
    }
  }

  // ---------------------------------------------------------------- every sequence of calls

  function AfterAll(s: seq<HintData>, calls: seq<Call>): seq<HintData>
    decreases |calls|
  {
    if calls == [] then s else AfterAll(After(s, calls[0]), calls[1..])
  }

  /** The handle a call adds to the list, and the one it releases. */
  function TrackedBy(c: Call): multiset<int> {
    if c.PerformCall? && c.tracked then multiset{c.handle} else multiset{}
  }

  function ReleasedBy(s: seq<HintData>, c: Call): multiset<int> {
    if c.UndoCall? && Find(s, c.id) < |s| then multiset{s[Find(s, c.id)].handle} else multiset{}
  }

  function Tracked(calls: seq<Call>): multiset<int> {
    if calls == [] then multiset{} else TrackedBy(calls[0]) + Tracked(calls[1..])
  }

  function Released(s: seq<HintData>, calls: seq<Call>): multiset<int>
    decreases |calls|
  {
    if calls == [] then multiset{} else ReleasedBy(s, calls[0]) + Released(After(s, calls[0]), calls[1..])
  }

  lemma CallConservesHandles(s: seq<HintData>, c: Call)
    ensures Handles(s) + TrackedBy(c) == ReleasedBy(s, c) + Handles(After(s, c))
  {
    match c {
      case PerformCall(id, handle, tracked) => HandlesCons(HintData(id, handle), s);
      case UndoCall(id) => if Find(s, id) < |s| { HandlesDropAt(s, Find(s, id)); }
    }
  }

  /** No handle is lost or released twice, whatever is called in whatever order. */
  lemma {:induction false} CallsConserveHandles(s: seq<HintData>, calls: seq<Call>)
    ensures Handles(s) + Tracked(calls) == Released(s, calls) + Handles(AfterAll(s, calls))
    decreases |calls|
  {
    if calls != [] {
      var s' := After(s, calls[0]);
      CallConservesHandles(s, calls[0]);
      CallsConserveHandles(s', calls[1..]);
      Telescope(Handles(s), TrackedBy(calls[0]), ReleasedBy(s, calls[0]), Handles(s'),
                Tracked(calls[1..]), Released(s', calls[1..]), Handles(AfterAll(s', calls[1..])));
    }
  }

  /** An undo takes back the perform before it if and only if that was tracked, or nothing is held
      for the hint: after a failed perform an undo releases an older handle of the same hint. */
  lemma UndoTakesBackIff(s: seq<HintData>, id: int, handle: int, tracked: bool)
    ensures After(After(s, PerformCall(id, handle, tracked)), UndoCall(id)) == s
            <==> tracked || forall i :: 0 <= i < |s| ==> s[i].id != id
  {
    if tracked {
      assert DropAt([HintData(id, handle)] + s, 0) == s;
    } else if Find(s, id) < |s| {
      assert |DropAt(s, Find(s, id))| < |s|;
    }
  }

  // ---------------------------------------------------------------- the video-encode hint's locks

  /** The calls a run of the video-encode hint makes: the i-th action, if a perform, acquires
      `handles[i]`, and `tracked[i]` says whether that and the allocations succeed. */
  function CallsOf(log: seq<Action>, handles: seq<int>, tracked: seq<bool>): seq<Call>
    requires |handles| == |tracked| == |log|
  {
    seq(|log|, i requires 0 <= i < |log| => CallOf(log[i], handles[i], tracked[i]))
  }

  function CallOf(a: Action, handle: int, tracked: bool): Call {
    if a.Perform? then PerformCall(a.id, handle, tracked) else UndoCall(a.id)
  }

  lemma {:induction false} AfterAllLast(s: seq<HintData>, calls: seq<Call>, c: Call)
    ensures AfterAll(s, calls + [c]) == After(AfterAll(s, calls), c)
    decreases |calls|
  {
    if calls == [] {
      assert [c][1..] == [];
    } else {
      assert (calls + [c])[1..] == calls[1..] + [c];
      AfterAllLast(After(s, calls[0]), calls[1..], c);
    }
  }

  /** The undos that follow an untracked perform, so that they have no lock of their own to release. */
  function StrayUndos(log: seq<Action>, tracked: seq<bool>): seq<Call>
    requires |tracked| == |log|
    decreases |log|
  {
    if |log| < 2 then []
    else
      var n := |log| - 1;
      StrayUndos(log[..n], tracked[..n]) + if log[n].Undo? && !tracked[n - 1] then [UndoCall(log[n].id)] else []
  }

  /** The lock of the perform at the end of the log, if there is one and it was tracked. */
  function OwnLock(log: seq<Action>, handles: seq<int>, tracked: seq<bool>): seq<HintData>
    requires |handles| == |tracked| == |log|
  {
    if log != [] && log[|log| - 1].Perform? && tracked[|log| - 1]
    then [HintData(log[|log| - 1].id, handles[|log| - 1])] else []
  }

  /** After a run whose starts are separated by stops (VideoHint.SeparatedStartsNeverLeak), whatever
      fails in it, the list holds at most one lock of the run, that of the enabled hint; below it stands
      what was there before, less what the stray undos released. */
  lemma {:induction false} HeldAfterRun(s: seq<HintData>, log: seq<Action>, handles: seq<int>, tracked: seq<bool>)
    requires Bracketed(log) && |handles| == |tracked| == |log|
    ensures AfterAll(s, CallsOf(log, handles, tracked))
            == OwnLock(log, handles, tracked) + AfterAll(s, StrayUndos(log, tracked))
    decreases |log|
  {
    if log != [] {
      var n := |log| - 1;
      BracketedPrefix(log);
      HeldAfterRun(s, log[..n], handles[..n], tracked[..n]);
      var c := CallOf(log[n], handles[n], tracked[n]);
      CallsOfLast(log, handles, tracked);
      AfterAllLast(s, CallsOf(log[..n], handles[..n], tracked[..n]), c);
      LastAction(s, log, handles, tracked);
    }
  }

  lemma CallsOfLast(log: seq<Action>, handles: seq<int>, tracked: seq<bool>)
    requires |handles| == |tracked| == |log| > 0
    ensures var n := |log| - 1;
            CallsOf(log, handles, tracked)
            == CallsOf(log[..n], handles[..n], tracked[..n]) + [CallOf(log[n], handles[n], tracked[n])]
  {
  }

  lemma BracketedPrefix(log: seq<Action>)
    requires Bracketed(log) && log != []
    ensures Bracketed(log[..|log| - 1])
    ensures |log| > 1 && log[|log| - 1].Perform? ==> log[|log| - 2].Undo?
    ensures log[|log| - 1].Undo? ==> |log| > 1 && log[|log| - 2] == Perform(log[|log| - 1].id)
  {
  }

  lemma LastAction(s: seq<HintData>, log: seq<Action>, handles: seq<int>, tracked: seq<bool>)
    requires |handles| == |tracked| == |log| > 0
    requires |log| > 1 && log[|log| - 1].Perform? ==> log[|log| - 2].Undo?
    requires log[|log| - 1].Undo? ==> |log| > 1 && log[|log| - 2] == Perform(log[|log| - 1].id)
    ensures var n := |log| - 1;
            After(OwnLock(log[..n], handles[..n], tracked[..n]) + AfterAll(s, StrayUndos(log[..n], tracked[..n])),
                  CallOf(log[n], handles[n], tracked[n]))
            == OwnLock(log, handles, tracked) + AfterAll(s, StrayUndos(log, tracked))
  {
    var n := |log| - 1;
    var strays := StrayUndos(log[..n], tracked[..n]);
    var base := AfterAll(s, strays);
    assert strays + [] == strays && [] + base == base;
    if log[n].Perform? {
      assert OwnLock(log[..n], handles[..n], tracked[..n]) == [];
    } else if tracked[n - 1] {
      var h := HintData(log[n].id, handles[n - 1]);
      assert OwnLock(log[..n], handles[..n], tracked[..n]) == [h];
      assert Find([h] + base, h.id) == 0 && DropAt([h] + base, 0) == base;
    } else {
      AfterAllLast(s, strays, UndoCall(log[n].id));
    }
  }

  /** Undos that release nothing leave the list alone, and only those do. */
  lemma {:induction false} UndosDisturbIff(s: seq<HintData>, calls: seq<Call>)
    requires forall i :: 0 <= i < |calls| ==> calls[i].UndoCall?
    ensures |AfterAll(s, calls)| <= |s|
    ensures AfterAll(s, calls) == s <==> forall i :: 0 <= i < |calls| ==> !Holds(s, calls[i].id)
    decreases |calls|
  {
    if calls != [] {
      var s' := After(s, calls[0]);
      UndosDisturbIff(s', calls[1..]);
      if Holds(s, calls[0].id) {
        assert Find(s, calls[0].id) < |s|;
      } else {
        assert s' == s;
        assert forall i :: 1 <= i < |calls| ==> calls[i] == calls[1..][i - 1];
      }
    }
  }

  predicate Holds(s: seq<HintData>, id: int) {
    exists i :: 0 <= i < |s| && s[i].id == id
  }

  lemma {:induction false} StraysAreUndos(log: seq<Action>, tracked: seq<bool>)
    requires |tracked| == |log|
    ensures forall i :: 0 <= i < |StrayUndos(log, tracked)| ==> StrayUndos(log, tracked)[i].UndoCall?
    decreases |log|
  {
    if |log| >= 2 {
      StraysAreUndos(log[..|log| - 1], tracked[..|log| - 1]);
    }
  }

  /** Such a run disturbs no lock that was held before it if and only if, for each undo after an
      untracked perform, none was held for that hint. */
  lemma RunDisturbsIff(s: seq<HintData>, log: seq<Action>, handles: seq<int>, tracked: seq<bool>)
    requires Bracketed(log) && |handles| == |tracked| == |log|
    ensures AfterAll(s, CallsOf(log, handles, tracked)) == OwnLock(log, handles, tracked) + s
            <==> forall i :: 0 <= i < |StrayUndos(log, tracked)| ==> !Holds(s, StrayUndos(log, tracked)[i].id)
  {
    HeldAfterRun(s, log, handles, tracked);
    StraysAreUndos(log, tracked);
    UndosDisturbIff(s, StrayUndos(log, tracked));
    SameRest(OwnLock(log, handles, tracked), AfterAll(s, StrayUndos(log, tracked)), s);
  }

  lemma SameRest<T>(a: seq<T>, b: seq<T>, c: seq<T>)
    ensures a + b == a + c <==> b == c
  {
    if a + b == a + c {
      assert b == (a + b)[|a|..] && c == (a + c)[|a|..];
    }
  }
}
