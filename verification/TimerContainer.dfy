/**
  LocTimerContainer as the object it is: the message handlers that push, remove and expire timers
  in its heap and re-arm its fd (gps/utils/LocTimer.cpp), and what one Expire message fires.
  */
module TimerContainer {
  import opened Basics
  import opened RankedTree
  import opened TimerRank
  import opened TimerService
  import opened TimerWakeup
  import opened LocHeapInPlace

  // ---------------------------------------------------------------- the batch as a function

  /** popIfOutRanks until it returns NULL: the timers popped and the heap left. */
  function PopDue(t: Tree<Delegate>, now: BootTime): (seq<Delegate>, Tree<Delegate>)
    decreases Count(t)
  {
    if t.Node? && !(RankTimes(now, t.data.time) > 0) then
      var (fired, rest) := PopDue(Pop(t, Ranks), now);
      ([t.data] + fired, rest)
    else ([], t)
  }

  /** All that one Expire message pops: the head whatever its time, then the heads that are due. */
  function Batch(t: Tree<Delegate>, now: BootTime): (seq<Delegate>, Tree<Delegate>) {
    if t.Leaf? then ([], t) else
    var (fired, rest) := PopDue(Pop(t, Ranks), now);
    ([t.data] + fired, rest)
  }

  ghost predicate InTimeOrder(s: seq<Delegate>) {
    forall i, j :: 0 <= i < j < |s| ==> Nanos(s[i].time) <= Nanos(s[j].time)
  }

  ghost predicate AllDue(s: seq<Delegate>, now: BootTime) {
    forall i :: 0 <= i < |s| ==> Nanos(s[i].time) <= Nanos(now)
  }

  ghost predicate AllLater(t: Tree<Delegate>, now: BootTime) {
    forall d :: d in Elements(t) ==> Nanos(d.time) > Nanos(now)
  }

  lemma HeadIsSoonest(t: Tree<Delegate>, d: Delegate)
    requires Ok(t, Ranks) && d in Elements(t)
    ensures t.Node? && Nanos(t.data.time) <= Nanos(d.time)
  {
    RanksIsRanking();
    HeadRanksHighest(t, Ranks, d);
    RanksIsTimeOrder(d, t.data);
  }

  lemma PopTimer(t: Tree<Delegate>)
    requires Ok(t, Ranks) && t.Node?
    ensures Ok(Pop(t, Ranks), Ranks) && Elements(t) == Elements(Pop(t, Ranks)) + multiset{t.data}
  {
    RanksIsRanking();
    PopKeeps(t, Ranks);
  }

  lemma FirstInOrder(t: Tree<Delegate>, fired: seq<Delegate>)
    requires Ok(t, Ranks) && t.Node? && multiset(fired) <= Elements(t) && InTimeOrder(fired)
    ensures InTimeOrder([t.data] + fired)
  {
    forall i | 0 <= i < |fired| ensures Nanos(t.data.time) <= Nanos(fired[i].time) {
      assert fired[i] in multiset(fired);
      HeadIsSoonest(t, fired[i]);
    }
  }

  /** A head popped before a batch that splits the rest of the heap. */
  lemma ConsSplits(t: Tree<Delegate>, fired: seq<Delegate>, rest: Tree<Delegate>)
    requires t.Node? && multiset(fired) + Elements(rest) == Elements(Pop(t, Ranks))
    requires Elements(t) == Elements(Pop(t, Ranks)) + multiset{t.data}
    ensures multiset([t.data] + fired) + Elements(rest) == Elements(t)
    ensures multiset(fired) <= Elements(t)
  {
    assert multiset([t.data] + fired) == multiset{t.data} + multiset(fired);
  }

  /** `fired` and `rest` are what popping the due timers of `t` makes of it. */
  ghost predicate Split(t: Tree<Delegate>, now: BootTime, fired: seq<Delegate>, rest: Tree<Delegate>) {
    && multiset(fired) + Elements(rest) == Elements(t)
    && InTimeOrder(fired) && AllDue(fired, now)
    && Ok(rest, Ranks) && AllLater(rest, now)
  }

  lemma HeadJoinsSplit(t: Tree<Delegate>, now: BootTime, fired: seq<Delegate>, rest: Tree<Delegate>)
    requires Ok(t, Ranks) && t.Node? && !(RankTimes(now, t.data.time) > 0)
    requires Elements(t) == Elements(Pop(t, Ranks)) + multiset{t.data} && Split(Pop(t, Ranks), now, fired, rest)
    ensures Split(t, now, [t.data] + fired, rest)
  {
    ConsSplits(t, fired, rest);
    FirstInOrder(t, fired);
    FirstIsDue(t.data, now, fired);
  }

  lemma FirstIsDue(d: Delegate, now: BootTime, fired: seq<Delegate>)
    requires !(RankTimes(now, d.time) > 0) && AllDue(fired, now)
    ensures AllDue([d] + fired, now)
  {
    RankIsTimeOrder(now, d.time);
  }

  lemma {:induction false} PopDueSplits(t: Tree<Delegate>, now: BootTime)
    requires Ok(t, Ranks)
    ensures Split(t, now, PopDue(t, now).0, PopDue(t, now).1)
    decreases Count(t)
  {
    if t.Node? && !(RankTimes(now, t.data.time) > 0) {
      PopTimer(t);
      var (fired, rest) := PopDue(Pop(t, Ranks), now);
      PopDueSplits(Pop(t, Ranks), now);
      HeadJoinsSplit(t, now, fired, rest);
    } else {
      HeadLaterAllLater(t, now);
    }
  }

  lemma HeadLaterAllLater(t: Tree<Delegate>, now: BootTime)
    requires Ok(t, Ranks) && (t.Node? ==> RankTimes(now, t.data.time) > 0)
    ensures AllLater(t, now)
  {
    if t.Node? { RankIsTimeOrder(now, t.data.time); }
    forall d | d in Elements(t) ensures Nanos(d.time) > Nanos(now) { HeadIsSoonest(t, d); }
  }

  /** What an Expire message at time `now` does to a heap in good order: it fires in time order;
      everything after the first is due; everything left is later than now; nothing is lost. */
  lemma BatchSplits(t: Tree<Delegate>, now: BootTime)
    requires Ok(t, Ranks)
    ensures var (fired, rest) := Batch(t, now);
            && multiset(fired) + Elements(rest) == Elements(t)
            && InTimeOrder(fired) && AllDue(if fired == [] then [] else fired[1..], now)
            && Ok(rest, Ranks) && AllLater(rest, now)
  {
    if t.Node? {
      PopTimer(t);
      var (fired, rest) := PopDue(Pop(t, Ranks), now);
      PopDueSplits(Pop(t, Ranks), now);
      ConsSplits(t, fired, rest);
      FirstInOrder(t, fired);
    }
  }

  /** A timer fires early if and only if it is the head and still in the future. */
  lemma FiresEarlyIff(t: Tree<Delegate>, now: BootTime)
    requires Ok(t, Ranks)
    ensures AllDue(Batch(t, now).0, now) <==> (t.Node? ==> Nanos(t.data.time) <= Nanos(now))
  {
    BatchSplits(t, now);
    var fired := Batch(t, now).0;
    if t.Node? {
      assert fired[0] == t.data;
      if Nanos(t.data.time) <= Nanos(now) {
        forall i | 0 <= i < |fired| ensures Nanos(fired[i].time) <= Nanos(now) {
          if i > 0 { assert fired[i] == fired[1..][i - 1]; }
        }
      }
    }
  }

  // ---------------------------------------------------------------- the batch under interleaving

  ghost predicate InExpiry(s: State) {
    s.mpc.Expiring? || s.mpc.PopNext?
  }

  /** A run during which the message thread stays in one expiry, up to the last state at most. */
  ghost predicate ReachesInExpiry(s: State, run: seq<Step>, s': State)
    decreases |run|
  {
    if run == [] then s == s' else InExpiry(s) && Enabled(s, run[0]) && ReachesInExpiry(Do(s, run[0]), run[1..], s')
  }

  /** The timers on which expire() is called in a run. */
  ghost function Fired(s: State, run: seq<Step>): seq<Delegate>
    decreases |run|
  {
    if run == [] || !Enabled(s, run[0]) then [] else
    (if run[0].StepExpire? then [s.mpc.d] else []) + Fired(Do(s, run[0]), run[1..])
  }

  ghost function ToFire(s: State): seq<Delegate> {
    match s.mpc
    case Expiring(k, now, d) => [d] + PopDue(s.cs.At(k).heap, now).0
    case PopNext(k, now) => PopDue(s.cs.At(k).heap, now).0
    case _ => []
  }

  ghost function LeftAfter(s: State, k: Kind): Tree<Delegate> {
    if InExpiry(s) && s.mpc.k == k then PopDue(s.cs.At(k).heap, s.mpc.now).1 else s.cs.At(k).heap
  }

  lemma StepInExpiry(s: State, a: Step)
    requires InExpiry(s) && Enabled(s, a)
    ensures (if a.StepExpire? then [s.mpc.d] else []) + ToFire(Do(s, a)) == ToFire(s)
    ensures LeftAfter(Do(s, a), s.mpc.k) == LeftAfter(s, s.mpc.k)
    ensures InExpiry(Do(s, a)) ==> Do(s, a).mpc.k == s.mpc.k
  {
    var k := s.mpc.k;
    if a.StepPopNext? {
      var t := s.cs.At(k).heap;
      assert DoPopNext(s).cs.At(k).heap ==
        if t.Node? && !(RankTimes(s.mpc.now, t.data.time) > 0) then Pop(t, Ranks) else t;
    } else if a.StepExpire? {
      assert Do(s, a).cs == s.cs;
    } else {
      assert Do(s, a).mpc == s.mpc;
      assert Do(s, a).cs.At(k).heap == s.cs.At(k).heap;
    }
  }

  /** Whatever the clients, the poll thread and the clock do meanwhile, an expiry calls expire() on
      exactly the rest of its batch, in order, and leaves exactly the rest of the heap. */
  lemma {:induction false} ExpiryRunsItsBatch(s: State, run: seq<Step>, s': State, k: Kind)
    requires ReachesInExpiry(s, run, s') && (InExpiry(s) ==> s.mpc.k == k)
    ensures Fired(s, run) + ToFire(s') == ToFire(s)
    ensures LeftAfter(s', k) == LeftAfter(s, k)
    decreases |run|
  {
    if run != [] {
      StepInExpiry(s, run[0]);
      ExpiryRunsItsBatch(Do(s, run[0]), run[1..], s', k);
      Associates(if run[0].StepExpire? then [s.mpc.d] else [], Fired(Do(s, run[0]), run[1..]), ToFire(s'));
    }
  }

  /** Handling an Expire message starts the batch of the heap as it then is, at the time it then is. */
  lemma ExpireStartsBatch(s: State, k: Kind)
    requires s.mpc.Idle? && s.queue != [] && s.queue[0] == ExpireMsg(k) && s.cs.At(k).heap.Node?
    ensures InExpiry(ProcMsg(s)) && ProcMsg(s).mpc.k == k
    ensures ToFire(ProcMsg(s)) == Batch(s.cs.At(k).heap, s.now).0
    ensures LeftAfter(ProcMsg(s), k) == Batch(s.cs.At(k).heap, s.now).1
  {
    assert ProcMsg(s).cs.At(k).heap == Pop(s.cs.At(k).heap, Ranks);
  }

  // ---------------------------------------------------------------- the object

  /** The handlers run on the message thread, which alone touches the heap. Here each runs without
      interference on the fd; TimerWakeup has every interleaving. */
  class LocTimerContainer {
    const heap: LocHeap<Delegate>
    var armed: Option<BootTime>
    var polled: bool

    ghost predicate Valid()
      reads this, heap, Nodes(heap.shape)
    {
      heap.Valid()
    }

    ghost function Heap(): Tree<Delegate>
      requires Valid()
      reads this, heap, Nodes(heap.shape)
    {
      heap.Contents()
    }

    /** The fd is armed for the soonest timer, if there is any. */
    ghost predicate ArmedForSoonest()
      requires Valid()
      reads this, heap, Nodes(heap.shape)
    {
      Heap().Node? ==> polled && armed == Arm(Heap().data.time)
    }

    constructor ()
      ensures Valid() && Heap() == Leaf && armed == None && !polled && fresh(heap) && Nodes(heap.shape) == {}
    {
      heap := new LocHeap();
      armed, polled := None, false;
    }

    method SetTime(t: Time)
      requires t == Time(0, 0) || (Normal(t) && 0 <= t.sec < 0x8000_0000)
      modifies this`armed
      ensures armed == if t == Time(0, 0) then None else Some(t)
    {
      armed := if t == Time(0, 0) then None else Some(t);
    }

    method UpdateSoonestTime(priorTop: Option<Delegate>)
      requires Valid()
      modifies this`armed, this`polled
      ensures Valid() && Heap() == old(Heap())
      ensures Head(Heap()) == priorTop ==> armed == old(armed) && polled == old(polled)
      ensures Heap().Leaf? && priorTop.Some? ==> armed == None && !polled
      ensures Heap().Node? && (priorTop.None? || OutRanks(Ranks, Heap().data, priorTop.value)) ==>
                polled && armed == Arm(Heap().data.time)
      ensures Heap().Node? && priorTop.Some? && !OutRanks(Ranks, Heap().data, priorTop.value) ==>
                armed == old(armed) && polled == old(polled)
    {
      var curTop := heap.Peek();
      if curTop != priorTop {
        if curTop.None? {
          polled := false;
          SetTime(Time(0, 0));
        } else if priorTop.None? || OutRanks(Ranks, curTop.value, priorTop.value) {
          polled := true;
          SetTime(curTop.value.time);
        }
      }
    }

    method PushAndArm(timer: Delegate)
      requires Valid()
      modifies this`armed, this`polled, heap, Nodes(heap.shape)
      ensures Valid() && Heap() == Push(old(Heap()), timer, Ranks)
      ensures old(Heap()).Leaf? || OutRanks(Ranks, Heap().data, old(Heap()).data) ==> ArmedForSoonest()
      ensures Head(Heap()) == Head(old(Heap())) ==> armed == old(armed) && polled == old(polled)
    {
      var priorTop := heap.Peek();
      heap.Push(timer, Ranks);
      UpdateSoonestTime(priorTop);
    }

    method ProcPush(timer: Delegate)
      requires Valid() && Ok(Heap(), Ranks)
      modifies this`armed, this`polled, heap, Nodes(heap.shape)
      ensures Valid() && Ok(Heap(), Ranks)
      ensures Elements(Heap()) == old(Elements(Heap())) + multiset{timer}
      ensures old(ArmedForSoonest()) ==> ArmedForSoonest()
      // the fd is armed anew exactly if the timer is the only one or sooner than all others
      ensures if old(Heap()).Leaf? || Nanos(timer.time) < Nanos(old(Heap()).data.time)
              then ArmedForSoonest() && Heap().data == timer
              else armed == old(armed) && polled == old(polled)
    {
      PushedTimer(Heap(), timer);
      PushAndArm(timer);
    }

    method RemoveAndArm(timer: Delegate)
      requires Valid()
      modifies this`armed, this`polled, heap, Nodes(heap.shape)
      ensures Valid() && Heap() == Apply(old(Heap()), RemoveOp(timer), Ranks).0
      ensures var removed := Apply(old(Heap()), RemoveOp(timer), Ranks).1;
              if removed == Head(old(Heap())) then ArmedForSoonest() else armed == old(armed) && polled == old(polled)
      ensures old(Heap()).Leaf? ==> armed == old(armed) && polled == old(polled)
    {
      var priorTop := heap.Peek();
      var removed := heap.Remove(timer, Ranks);
      if priorTop == removed {
        UpdateSoonestTime(None);
      }
    }

    method ProcRemove(timer: Delegate)
      requires Valid() && Ok(Heap(), Ranks)
      modifies this`armed, this`polled, heap, Nodes(heap.shape)
      ensures Valid() && Ok(Heap(), Ranks)
      ensures Elements(Heap()) == old(Elements(Heap())) - multiset{timer}
      ensures old(ArmedForSoonest()) ==> ArmedForSoonest()
      // and only if the soonest timer is taken out
      ensures if old(Heap()).Node? && old(Heap()).data == timer then ArmedForSoonest()
              else armed == old(armed) && polled == old(polled)
    {
      RemovedTimer(Heap(), timer);
      RemoveAndArm(timer);
    }

    /** Returns the timers it called expire() on, in that order. */
    method ProcExpire(now: BootTime) returns (fired: seq<Delegate>)
      requires Valid() && Ok(Heap(), Ranks)
      modifies this`armed, this`polled, heap, Nodes(heap.shape)
      ensures Valid() && Ok(Heap(), Ranks)
      ensures (fired, Heap()) == Batch(old(Heap()), now)
      ensures ArmedForSoonest()
    {
      BatchSplits(Heap(), now);
      fired := ExpireDue(now);
      UpdateSoonestTime(None);
    }

    method ExpireDue(now: BootTime) returns (fired: seq<Delegate>)
      requires Valid()
      modifies heap, Nodes(heap.shape)
      ensures Valid() && (fired, Heap()) == Batch(old(Heap()), now)
      ensures Nodes(heap.shape) <= old(Nodes(heap.shape))
    {
      ghost var all := Batch(Heap(), now);
      NothingFired(Heap(), now);
      fired := [];
      var timer := heap.Pop(Ranks);
      while timer.Some?
        invariant Valid() && Nodes(heap.shape) <= old(Nodes(heap.shape))
        invariant all == StillToFire(fired, timer, Heap(), now)
        decreases if timer.Some? then 1 + Count(Heap()) else 0
      {
        var d := timer.value;
        timer := PopAfter(fired, d, now);
        fired := fired + [d];
      }
    }

    /** The end of expire's loop, `d` fired after `fired`. */
    method PopAfter(ghost fired: seq<Delegate>, ghost d: Delegate, now: BootTime) returns (next: Option<Delegate>)
      requires Valid()
      modifies heap, Nodes(heap.shape)
      ensures Valid() && Nodes(heap.shape) <= old(Nodes(heap.shape))
      ensures StillToFire(fired + [d], next, Heap(), now) == StillToFire(fired, Some(d), old(Heap()), now)
      ensures next.Some? ==> Count(Heap()) < Count(old(Heap()))
    {
      ghost var t := Heap();
      next := PopIfOutRanks(now);
      JustFired(fired, d, t, now);
      OneFired(fired + [d], next, t, Heap(), now);
    }

    /** Pops the head unless a timer of `now` outranks it. */
    method PopIfOutRanks(now: BootTime) returns (popped: Option<Delegate>)
      requires Valid()
      modifies heap, Nodes(heap.shape)
      ensures Valid() && Nodes(heap.shape) <= old(Nodes(heap.shape))
      ensures popped.Some? ==>
                old(Heap()).Node? && Heap() == Pop(old(Heap()), Ranks) && popped.value == old(Heap()).data
      ensures popped.None? ==> Heap() == old(Heap())
      ensures popped.Some? <==> old(Heap().Node? && !(RankTimes(now, Heap().data.time) > 0))
    {
      popped := None;
      var top := heap.Peek();
      if top.Some? && !(RankTimes(now, top.value.time) > 0) {
        popped := heap.Pop(Ranks);
      }
    }
  }

  ghost function StillToFire(fired: seq<Delegate>, timer: Option<Delegate>, t: Tree<Delegate>, now: BootTime)
    : (seq<Delegate>, Tree<Delegate>)
  {
    if timer.None? then (fired, t) else (fired + ([timer.value] + PopDue(t, now).0), PopDue(t, now).1)
  }

  lemma NothingFired(t: Tree<Delegate>, now: BootTime)
    ensures Batch(t, now) == StillToFire([], Head(t), if t.Leaf? then t else Pop(t, Ranks), now)
  {
    assert forall f: seq<Delegate> :: [] + f == f;
  }

  lemma JustFired(fired: seq<Delegate>, d: Delegate, t: Tree<Delegate>, now: BootTime)
    ensures StillToFire(fired, Some(d), t, now) == (fired + [d] + PopDue(t, now).0, PopDue(t, now).1)
  {
    Associates(fired, [d], PopDue(t, now).0);
  }

  lemma OneFired(fired: seq<Delegate>, next: Option<Delegate>, t: Tree<Delegate>, t': Tree<Delegate>, now: BootTime)
    requires if t.Node? && !(RankTimes(now, t.data.time) > 0) then next == Some(t.data) && t' == Pop(t, Ranks)
             else next.None? && t' == t
    ensures (fired + PopDue(t, now).0, PopDue(t, now).1) == StillToFire(fired, next, t', now)
    ensures next.Some? ==> Count(t') < Count(t)
  {
    if next.Some? {
      assert PopDue(t, now).0 == [t.data] + PopDue(t', now).0;
    } else {
      assert fired + [] == fired;
    }
  }

  lemma PushedTimer(t: Tree<Delegate>, d: Delegate)
    requires Ok(t, Ranks)
    ensures var t' := Push(t, d, Ranks);
            && Ok(t', Ranks) && Elements(t') == Elements(t) + multiset{d}
            && t'.Node? && t'.data == (if t.Leaf? || Nanos(d.time) < Nanos(t.data.time) then d else t.data)
    ensures t.Node? ==> (OutRanks(Ranks, d, t.data) <==> Nanos(d.time) < Nanos(t.data.time))
  {
    RanksIsRanking();
    PushKeeps(t, d, Ranks);
    if t.Node? { RanksIsTimeOrder(d, t.data); }
  }

  lemma RemovedTimer(t: Tree<Delegate>, d: Delegate)
    requires Ok(t, Ranks)
    ensures var (rest, out) := Apply(t, RemoveOp(d), Ranks);
            && Ok(rest, Ranks) && Elements(rest) == Elements(t) - multiset{d}
            && (out != Head(t) ==> Head(rest) == Head(t))
            && (t.Node? ==> (out == Head(t) <==> t.data == d))
  {
    RemovedHead(t, d);
    OutIsHead(t, d);
    RemovedElements(t, d);
  }

  lemma RemovedElements(t: Tree<Delegate>, d: Delegate)
    requires Ok(t, Ranks)
    ensures Elements(RemoveFrom(t, d).0) == Elements(t) - multiset{d}
  {
    if t.Leaf? {
      NoneTaken(multiset{}, d);
    } else {
      RemoveFinds(t, d);
      TakenFrom(t, Remove(t, d, Ranks), d);
      FromRemoval(t, d);
    }
  }

  lemma FromRemoval(t: Tree<Delegate>, d: Delegate)
    requires t.Node?
    ensures RemoveFrom(t, d).0 == if Remove(t, d, Ranks).Removed? then Remove(t, d, Ranks).rest else t
  {
  }

  lemma TakenFrom(t: Tree<Delegate>, r: Removal<Delegate>, d: Delegate)
    requires r.Removed? <==> d in Elements(t)
    requires r.Removed? ==> Elements(t) == Elements(r.rest) + multiset{d}
    ensures Elements(if r.Removed? then r.rest else t) == Elements(t) - multiset{d}
  {
    if r.Removed? {
      OneTaken(Elements(t), Elements(r.rest), d);
    } else {
      NoneTaken(Elements(t), d);
    }
  }

  lemma OneTaken(all: multiset<Delegate>, rest: multiset<Delegate>, d: Delegate)
    requires all == rest + multiset{d}
    ensures rest == all - multiset{d}
  {
  }

  lemma NoneTaken(all: multiset<Delegate>, d: Delegate)
    requires d !in all
    ensures all == all - multiset{d}
  {
  }

  lemma RemoveFinds(t: Tree<Delegate>, d: Delegate)
    requires t.Node? && Ok(t, Ranks)
    ensures Remove(t, d, Ranks).Removed? <==> d in Elements(t)
    ensures Remove(t, d, Ranks).Removed? ==> Without(Remove(t, d, Ranks).rest, t, d, Ranks)
  {
    RanksIsRanking();
    RemoveKeeps(t, d, Ranks);
  }
}
