/**
  No lost wakeup: over every interleaving of the timer service's steps, a non-empty heap is always
  covered by an armed and polled fd, or by work in progress that will look at the heap again.
  */
module TimerWakeup {
  import opened Basics
  import opened RankedTree
  import opened TimerRank
  import opened TimerService

  ghost predicate HeapsOk(s: State) {
    Ok(s.cs.sw.heap, Ranks) && Ok(s.cs.hw.heap, Ranks)
  }

  /** The poll thread has an event for `k` in hand, from epoll_wait until its Expire message is sent. */
  ghost predicate PollBusy(s: State, k: Kind) {
    !s.ppc.Waiting? && (s.ppc.k == k || k in s.ppc.rest)
  }

  /** The message thread is expiring timers of `k` or re-arming its fd. */
  ghost predicate MsgBusy(s: State, k: Kind) {
    !s.mpc.Idle? && s.mpc.k == k
  }

  ghost predicate ExpireQueued(s: State, k: Kind) {
    ExpireMsg(k) in s.queue
  }

  ghost predicate ArmedForHead(s: State, k: Kind)
    requires s.cs.At(k).heap.Node?
  {
    s.cs.At(k).polled && s.cs.At(k).armed == Arm(s.cs.At(k).heap.data.time)
  }

  ghost predicate Covered(s: State, k: Kind) {
    s.cs.At(k).heap.Node? ==> ArmedForHead(s, k) || PollBusy(s, k) || ExpireQueued(s, k) || MsgBusy(s, k)
  }

  /** A re-arm is for the present head, and between addPoll and settime the fd leaves the epoll set
      only if an Expire message is on its way. The disarm branch is never entered. */
  ghost predicate RearmSound(s: State) {
    && (s.mpc.RearmAdd? || s.mpc.RearmSet? ==> Head(s.cs.At(s.mpc.k).heap) == Some(s.mpc.top))
    && (s.mpc.RearmSet? ==>
          s.cs.At(s.mpc.k).polled || (s.ppc.Send? && s.ppc.k == s.mpc.k) || ExpireQueued(s, s.mpc.k))
    && !s.mpc.DisarmDel? && !s.mpc.DisarmSet?
  }

  ghost predicate Inv(s: State) {
    HeapsOk(s) && RearmSound(s) && forall k: Kind :: Covered(s, k)
  }

  /** The parts of the state a step of a client thread or of the clock can touch do not matter here,
      as long as the queue keeps its Expire messages. */
  ghost predicate SameKernelView(s: State, s': State) {
    && s'.cs == s.cs && s'.mpc == s.mpc && s'.ppc == s.ppc
    && forall k: Kind :: ExpireQueued(s, k) ==> ExpireQueued(s', k)
  }

  lemma SameViewKeepsInv(s: State, s': State)
    requires Inv(s) && SameKernelView(s, s')
    ensures Inv(s')
  {
    forall k: Kind ensures Covered(s', k) {
      assert Covered(s, k);
    }
  }

  /** updateSoonestTime(NULL) covers container `k`, whatever the message thread was doing there. */
  lemma UpdateSoonestCovers(s: State, k: Kind, prior: Option<Delegate>, doomed: Option<Delegate>)
    requires HeapsOk(s) && forall j: Kind :: j != k ==> Covered(s.(mpc := Idle), j)
    requires prior.None? || (s.cs.At(k).heap.Node? && (
               || (prior.value == s.cs.At(k).heap.data && Covered(s.(mpc := Idle), k))
               || OutRanks(Ranks, s.cs.At(k).heap.data, prior.value)))
    ensures Inv(UpdateSoonest(s, k, prior, doomed))
  {
    var s' := UpdateSoonest(s, k, prior, doomed);
    assert s'.cs == s.cs && s'.ppc == s.ppc && s'.queue == s.queue;
    forall j: Kind ensures Covered(s', j) {
      if j != k { assert Covered(s.(mpc := Idle), j); }
    }
  }

  /** A new heap for `k` and any change to the delegates leave the other container as it was. */
  lemma OtherCovered(s: State, s': State, k: Kind)
    requires forall j: Kind :: j != k ==> Covered(s.(mpc := Idle), j)
    requires s'.queue == s.queue && s'.ppc == s.ppc && forall j: Kind :: j != k ==> s'.cs.At(j) == s.cs.At(j)
    ensures forall j: Kind :: j != k ==> Covered(s'.(mpc := Idle), j)
  {
    forall j: Kind | j != k ensures Covered(s'.(mpc := Idle), j) { assert Covered(s.(mpc := Idle), j); }
  }

  lemma PushKeepsInv(s: State, k: Kind, d: Delegate)
    requires Inv(s) && s.mpc.Idle? && s.queue != [] && s.queue[0] == PushMsg(k, d)
    ensures Inv(ProcMsg(s))
  {
    var s1 := s.(queue := s.queue[1..]);
    var t := s.cs.At(k).heap;
    RanksIsRanking();
    PushKeeps(t, d, Ranks);
    DequeueKeepsCovered(s);
    PushCovers(s1, k, d, Push(t, d, Ranks));
  }

  lemma PushCovers(s: State, k: Kind, d: Delegate, t': Tree<Delegate>)
    requires HeapsOk(s) && s.mpc.Idle? && forall j: Kind :: Covered(s, j)
    requires t' == Push(s.cs.At(k).heap, d, Ranks) && Ok(t', Ranks)
    requires t'.Node? && t'.data == PushedHead(s.cs.At(k).heap, d, Ranks)
    ensures Inv(ProcPush(s, k, d))
  {
    var s2 := SetHeap(s, k, t');
    var s3 := if d in s2.delegates then SetRecord(s2, d, s2.delegates[d].(pushed := true)) else s2;
    assert Covered(s, k) && s.(mpc := Idle) == s;
    OtherCovered(s, s3, k);
    UpdateSoonestCovers(s3, k, Head(s.cs.At(k).heap), None);
  }

  /** Taking a Push or Remove message from the queue uncovers nothing. */
  lemma DequeueKeepsCovered(s: State)
    requires Inv(s) && s.mpc.Idle? && s.queue != [] && !s.queue[0].ExpireMsg?
    ensures forall k: Kind :: Covered(s.(queue := s.queue[1..]), k)
  {
    forall k: Kind ensures Covered(s.(queue := s.queue[1..]), k) {
      assert Covered(s, k);
      if ExpireQueued(s, k) {
        assert s.queue == [s.queue[0]] + s.queue[1..];
        assert ExpireMsg(k) in s.queue[1..];
      }
    }
  }

  lemma RemoveKeepsInv(s: State, k: Kind, d: Delegate)
    requires Inv(s) && s.mpc.Idle? && s.queue != [] && s.queue[0] == RemoveMsg(k, d)
    ensures Inv(ProcMsg(s))
  {
    RemovedHead(s.cs.At(k).heap, d);
    DequeueKeepsCovered(s);
    RemoveCovers(s.(queue := s.queue[1..]), k, d);
  }

  /** Only taking out the head can change the head. */
  lemma RemovedHead(t: Tree<Delegate>, d: Delegate)
    requires Ok(t, Ranks)
    ensures Ok(RemoveFrom(t, d).0, Ranks)
    ensures RemoveFrom(t, d).1 != Head(t) ==> Head(RemoveFrom(t, d).0) == Head(t)
  {
    RanksIsRanking();
    if t.Node? { RemoveKeeps(t, d, Ranks); }
  }

  /** remove returns the head exactly if the head is what it is asked for. */
  lemma OutIsHead(t: Tree<Delegate>, d: Delegate)
    ensures RemoveFrom(t, d).1 == Head(t) <==> t.Leaf? || t.data == d
  {
  }

  lemma RemoveCovers(s: State, k: Kind, d: Delegate)
    requires HeapsOk(s) && s.mpc.Idle? && forall j: Kind :: Covered(s, j)
    requires var (rest, out) := RemoveFrom(s.cs.At(k).heap, d);
             Ok(rest, Ranks) && (out != Head(s.cs.At(k).heap) ==> Head(rest) == Head(s.cs.At(k).heap))
    ensures Inv(ProcRemove(s, k, d))
  {
    var (rest, returned) := RemoveFrom(s.cs.At(k).heap, d);
    var s2 := SetHeap(s, k, rest);
    var s3 := if d in s2.delegates
              then SetRecord(s2, d, s2.delegates[d].(removed := true, left := s2.delegates[d].left || returned.Some?))
              else s2;
    assert Covered(s, k) && s.(mpc := Idle) == s;
    OtherCovered(s, s3, k);
    if Head(s.cs.At(k).heap) == returned {
      UpdateSoonestCovers(s3, k, None, Some(d));
    } else {
      FinishCovers(s3, d);
    }
  }

  lemma FinishCovers(s: State, d: Delegate)
    requires HeapsOk(s) && forall j: Kind :: Covered(s.(mpc := Idle), j)
    ensures Inv(Finish(s, Some(d)))
  {
    forall j: Kind ensures Covered(Finish(s, Some(d)), j) {
      assert Covered(s.(mpc := Idle), j);
    }
  }

  lemma ExpireKeepsInv(s: State, k: Kind)
    requires Inv(s) && s.mpc.Idle? && s.queue != [] && s.queue[0] == ExpireMsg(k)
    ensures Inv(ProcMsg(s))
  {
    var s1 := s.(queue := s.queue[1..]);
    forall j: Kind | j != k ensures Covered(s1, j) {
      assert Covered(s, j);
      assert s.queue == [s.queue[0]] + s.queue[1..];
      if ExpireQueued(s, j) { assert ExpireMsg(j) in s.queue[1..]; }
    }
    if s.cs.At(k).heap.Node? {
      PopKeepsInv(s1, k, s.now);
    } else {
      UpdateSoonestCovers(s1, k, None, None);
    }
  }

  lemma PopKeepsInv(s: State, k: Kind, now: BootTime)
    requires HeapsOk(s) && s.cs.At(k).heap.Node?
    requires forall j: Kind :: j != k ==> Covered(s.(mpc := Idle), j)
    ensures Inv(PopHead(s, k, now))
  {
    PopStaysOk(s.cs.At(k).heap);
    forall j: Kind ensures Covered(PopHead(s, k, now), j) {
      if j != k { assert Covered(s.(mpc := Idle), j); }
    }
  }

  lemma PopStaysOk(t: Tree<Delegate>)
    requires t.Node? && Ok(t, Ranks)
    ensures Ok(Pop(t, Ranks), Ranks)
  {
    RanksIsRanking();
    PopKeeps(t, Ranks);
  }

  lemma PopNextKeepsInv(s: State)
    requires Inv(s) && s.mpc.PopNext?
    ensures Inv(DoPopNext(s))
  {
    var k := s.mpc.k;
    forall j: Kind | j != k ensures Covered(s.(mpc := Idle), j) { assert Covered(s, j); }
    if s.cs.At(k).heap.Node? && !(RankTimes(s.mpc.now, s.cs.At(k).heap.data.time) > 0) {
      PopKeepsInv(s, k, s.mpc.now);
    } else {
      UpdateSoonestCovers(s, k, None, None);
    }
  }

  lemma RearmKeepsInv(s: State, a: Step)
    requires Inv(s) && Enabled(s, a) && (a.StepRearmAdd? || a.StepRearmSet? || a.StepDisarmDel? || a.StepDisarmSet?)
    ensures Inv(Do(s, a))
  {
    forall j: Kind ensures Covered(Do(s, a), j) { assert Covered(s, j); }
  }

  lemma PollKeepsInv(s: State, a: Step)
    requires Inv(s) && Enabled(s, a) && (a.StepWake? || a.StepDisarm? || a.StepUnpoll? || a.StepSend?)
    ensures Inv(Do(s, a))
  {
    var s' := Do(s, a);
    assert a.StepSend? ==> s'.queue[|s.queue|] == ExpireMsg(s.ppc.k);
    forall j: Kind ensures Covered(s', j) {
      assert Covered(s, j);
      if ExpireQueued(s, j) { assert ExpireQueued(s', j); }
    }
  }

  /** A step of a client thread only adds to the end of the queue. */
  lemma ClientKeepsInv(s: State, a: Step)
    requires Inv(s) && Enabled(s, a)
    requires a.StepTick? || a.StepNew? || a.StepStart? || a.StepStop? || a.StepBeginDelete? || a.StepEndDelete?
    ensures Inv(Do(s, a))
  {
    var s' := Do(s, a);
    assert s.queue <= s'.queue;
    forall k: Kind | ExpireQueued(s, k) ensures ExpireQueued(s', k) {
      var i :| 0 <= i < |s.queue| && s.queue[i] == ExpireMsg(k);
      assert s'.queue[i] == ExpireMsg(k);
    }
    SameViewKeepsInv(s, s');
  }

  lemma ExpireCallKeepsInv(s: State)
    requires Inv(s) && s.mpc.Expiring?
    ensures Inv(DoExpire(s))
  {
    var s' := DoExpire(s);
    assert s.queue <= s'.queue;
    forall k: Kind ensures Covered(s', k) {
      assert Covered(s, k);
      if ExpireQueued(s, k) {
        var i :| 0 <= i < |s.queue| && s.queue[i] == ExpireMsg(k);
        assert s'.queue[i] == ExpireMsg(k);
      }
    }
  }

  lemma StepKeepsInv(s: State, a: Step)
    requires Inv(s) && Enabled(s, a)
    ensures Inv(Do(s, a))
  {
    match a {
      case StepMsg =>
        match s.queue[0] {
          case PushMsg(k, d) => PushKeepsInv(s, k, d);
          case RemoveMsg(k, d) => RemoveKeepsInv(s, k, d);
          case ExpireMsg(k) => ExpireKeepsInv(s, k);
        }
      case StepRearmAdd => RearmKeepsInv(s, a);
      case StepRearmSet => RearmKeepsInv(s, a);
      case StepDisarmDel => RearmKeepsInv(s, a);
      case StepDisarmSet => RearmKeepsInv(s, a);
      case StepExpire => ExpireCallKeepsInv(s);
      case StepPopNext => PopNextKeepsInv(s);
      case StepWake(_) => PollKeepsInv(s, a);
      case StepDisarm => PollKeepsInv(s, a);
      case StepUnpoll => PollKeepsInv(s, a);
      case StepSend => PollKeepsInv(s, a);
      case _ => ClientKeepsInv(s, a);
    }
  }

  lemma {:induction false} RunKeepsInv(s: State, run: seq<Step>, s': State)
    requires Inv(s) && Reaches(s, run, s')
    ensures Inv(s')
    decreases |run|
  {
    if run != [] {
      StepKeepsInv(s, run[0]);
      RunKeepsInv(Do(s, run[0]), run[1..], s');
    }
  }

  /** No lost wakeup, in every reachable state; and the disarm branch of updateSoonestTime is never
      entered, so a heap that empties leaves its old armed time behind. */
  lemma NoLostWakeup(s: State, run: seq<Step>, s': State, k: Kind)
    requires Init(s) && Reaches(s, run, s')
    ensures s'.cs.At(k).heap.Node? ==>
              ArmedForHead(s', k) || PollBusy(s', k) || ExpireQueued(s', k) || MsgBusy(s', k)
    ensures !s'.mpc.DisarmDel? && !s'.mpc.DisarmSet?
  {
    RunKeepsInv(s, run, s');
    assert Covered(s', k);
  }
}
