/**
  What single calls and messages of the timer service (gps/utils/LocTimer.cpp) bring about: where a
  started timer goes and stays, what stop() answers, when a message re-arms the kernel timer, and what
  the poll thread does with the events it gets.
  */
module TimerSteps {
  import opened Basics
  import opened RankedTree
  import opened TimerRank
  import opened TimerService
  import opened TimerWakeup
  import opened TimerLife

  // ---------------------------------------------------------------- start

  /** A start with a timer running changes nothing. Otherwise the new delegate is the client's timer, it
      is due exactly `ms` milliseconds from now, and its Push is sent for the container asked for. */
  lemma StartAsks(s: State, c: ClientId, k: Kind, ms: nat, d: Delegate)
    requires Enabled(s, StepStart(c, k, ms, d))
    ensures var s' := Do(s, StepStart(c, k, ms, d));
            if s.timers[c].current.Some? then s' == s
            else && s'.timers[c].current == Some(d) && d in s'.delegates
                 && s'.delegates[d].kind == k && s'.delegates[d].owner == c
                 && s'.queue == s.queue + [PushMsg(k, d)]
    ensures Nanos(d.time) == Nanos(s.now) + ms * 1_000_000
  {
    FutureTimeIsExact(s.now, ms);
  }

  /** Whose it is and which container it is for never changes. */
  lemma StepKeepsKind(s: State, a: Step, d: Delegate)
    requires Enabled(s, a) && d in s.delegates
    ensures var s' := Do(s, a);
            d in s'.delegates && s'.delegates[d].kind == s.delegates[d].kind
            && s'.delegates[d].owner == s.delegates[d].owner
  {
    if a.StepMsg? {
      MsgKeepsKind(s, d);
    } else if a.StepExpire? {
      ExpireKeepsKind(s, d);
    }
  }

  lemma MsgKeepsKind(s: State, d: Delegate)
    requires s.queue != [] && d in s.delegates
    ensures var s' := ProcMsg(s);
            d in s'.delegates && s'.delegates[d].kind == s.delegates[d].kind
            && s'.delegates[d].owner == s.delegates[d].owner
  {
    match s.queue[0] {
      case PushMsg(_, _) =>
      case RemoveMsg(_, _) =>
      case ExpireMsg(_) =>
    }
  }

  lemma ExpireKeepsKind(s: State, d: Delegate)
    requires s.mpc.Expiring? && d in s.delegates
    ensures var s' := DoExpire(s);
            d in s'.delegates && s'.delegates[d].kind == s.delegates[d].kind
            && s'.delegates[d].owner == s.delegates[d].owner
  {
  }

  lemma {:induction false} RunKeepsKind(s: State, run: seq<Step>, s': State, d: Delegate)
    requires Reaches(s, run, s') && d in s.delegates
    ensures d in s'.delegates && s'.delegates[d].kind == s.delegates[d].kind
    ensures s'.delegates[d].owner == s.delegates[d].owner
    decreases |run|
  {
    if run != [] {
      StepKeepsKind(s, run[0], d);
      RunKeepsKind(Do(s, run[0]), run[1..], s', d);
    }
  }

  lemma {:induction false} RunsJoin(s: State, first: seq<Step>, m: State, second: seq<Step>, s': State)
    requires Reaches(s, first, m) && Reaches(m, second, s')
    ensures Reaches(s, first + second, s')
    decreases |first|
  {
    if first == [] {
      assert first + second == second;
    } else {
      RunsJoin(Do(s, first[0]), first[1..], m, second, s');
      assert (first + second)[1..] == first[1..] + second;
    }
  }

  /** Whatever happens after a start, the timer's messages, its place in a heap and its expiry are those
      of the container that was asked for, and of no other. */
  lemma StartedForItsContainer(s0: State, past: seq<Step>, s: State, c: ClientId, k: Kind, ms: nat, d: Delegate,
                               run: seq<Step>, s': State)
    requires Init(s0) && Reaches(s0, past, s) && Enabled(s, StepStart(c, k, ms, d)) && s.timers[c].current.None?
    requires Reaches(Do(s, StepStart(c, k, ms, d)), run, s')
    ensures d in s'.delegates && s'.delegates[d].kind == k && s'.delegates[d].owner == c
    ensures forall j: Kind :: j != k ==>
              PushMsg(j, d) !in s'.queue && RemoveMsg(j, d) !in s'.queue
              && d !in Elements(s'.cs.At(j).heap) && !BeingExpired(s'.mpc, j, d)
  {
    var s1 := Do(s, StepStart(c, k, ms, d));
    StartAsks(s, c, k, ms, d);
    RunKeepsKind(s1, run, s', d);
    InitLife(s0);
    RunKeepsLife(s0, past, s);
    RunKeepsInv(s0, past, s);
    StepKeepsLife(s, StepStart(c, k, ms, d));
    TimerWakeup.StepKeepsInv(s, StepStart(c, k, ms, d));
    RunKeepsLife(s1, run, s');
    forall j: Kind | j != k
      ensures PushMsg(j, d) !in s'.queue && RemoveMsg(j, d) !in s'.queue
      ensures d !in Elements(s'.cs.At(j).heap) && !BeingExpired(s'.mpc, j, d)
    {
      assert Elements(s'.cs.At(j).heap)[d] == Copies(s', j, d);
    }
  }

  // ---------------------------------------------------------------- stop

  /** stop() returns true exactly if a timer runs. Then that timer is the client's no more, its one
      stop is counted, and its Remove is sent; otherwise nothing changes. */
  lemma StopAnswers(s0: State, past: seq<Step>, s: State, c: ClientId)
    requires Init(s0) && Reaches(s0, past, s) && Enabled(s, StepStop(c))
    ensures StopSucceeds(s, c) <==> s.timers[c].current.Some?
    ensures var s' := Do(s, StepStop(c));
            match s.timers[c].current
            case None => s' == s
            case Some(d) =>
              && d in s.delegates && s.delegates[d].client == Some(c)
              && s'.timers[c].current == None && s'.delegates[d].client == None
              && s'.delegates[d].userStops == 1 && s'.delegates[d].callbacks == 0
              && s'.queue == s.queue + [RemoveMsg(s.delegates[d].kind, d)]
  {
    InitLife(s0);
    RunKeepsLife(s0, past, s);
    if s.timers[c].current.Some? {
      var d := s.timers[c].current.value;
      assert CurrentLinked(s, c, d);
      assert RecordOk(s.delegates[d], d, s.mpc);
    }
  }

  /** The destructor first stops what runs, as stop() does; from then on no timer of it runs. */
  lemma DeleteStopsFirst(s0: State, past: seq<Step>, s: State, c: ClientId)
    requires Init(s0) && Reaches(s0, past, s) && Enabled(s, StepBeginDelete(c))
    ensures var s', stopped := Do(s, StepBeginDelete(c)), Do(s, StepStop(c));
            && s'.timers[c].current == None && s'.timers[c].phase.Closing?
            && s'.queue == stopped.queue && s'.delegates == stopped.delegates
            && s'.timers[c].refs == s.timers[c].refs
  {
    StopAnswers(s0, past, s, c);
  }

  /** Of a stopped LocTimer nothing is started again, in any state behind. */
  lemma ClosedStaysClosed(s0: State, past: seq<Step>, s: State, c: ClientId)
    requires Init(s0) && Reaches(s0, past, s) && c in s.timers && !s.timers[c].phase.Alive?
    ensures s.timers[c].current == None
    ensures !Enabled(s, StepStop(c)) && !Enabled(s, StepBeginDelete(c))
    ensures forall k, ms, d :: !Enabled(s, StepStart(c, k, ms, d))
  {
    InitLife(s0);
    RunKeepsLife(s0, past, s);
  }

  /** An expiring timer calls back exactly if nobody stopped it before: it is then still its client's, is
      so no more, has fired once, and its Remove is sent. One that was stopped changes nothing. */
  lemma ExpireAnswers(s0: State, past: seq<Step>, s: State)
    requires Init(s0) && Reaches(s0, past, s) && Enabled(s, StepExpire)
    ensures var d, s' := s.mpc.d, Do(s, StepExpire);
            && d in s.delegates && s'.mpc == PopNext(s.mpc.k, s.mpc.now)
            && if s.delegates[d].client.Some?
               then
                 var c := s.delegates[d].owner;
                 && c in s.timers && s.timers[c].current == Some(d) && s.delegates[d].callbacks == 0
                 && s'.timers[c].current == None && s'.delegates[d].client == None
                 && s'.delegates[d].callbacks == 1 && s'.delegates[d].expireStops == 1
                 && s'.delegates[d].userStops == 0
                 && s'.queue == s.queue + [RemoveMsg(s.mpc.k, d)]
               else
                 s' == s.(mpc := s'.mpc)
  {
    InitLife(s0);
    RunKeepsLife(s0, past, s);
    var d := s.mpc.d;
    assert Known(s, s.mpc.k, d);
    assert RecordOk(s.delegates[d], d, s.mpc);
    if s.delegates[d].client.Some? {
      assert IsCurrent(s, s.delegates[d].client.value, d);
    }
  }

  // ---------------------------------------------------------------- when the kernel timer is re-armed

  lemma PushRearmsIff(s: State, k: Kind, d: Delegate)
    requires Ok(s.cs.At(k).heap, Ranks)
    ensures var t := s.cs.At(k).heap;
            ProcPush(s, k, d).mpc ==
            if t.Leaf? || Nanos(d.time) < Nanos(t.data.time) then RearmAdd(k, d, None) else Idle
  {
    PushRearms(s.cs.At(k).heap, d);
  }

  lemma RemoveRearmsIff(s: State, k: Kind, d: Delegate)
    requires Ok(s.cs.At(k).heap, Ranks)
    ensures var t, pc := s.cs.At(k).heap, ProcRemove(s, k, d).mpc;
            if t.Node? && t.data == d && |Elements(t)| > 1 then pc.RearmAdd? && pc.k == k && pc.top in Elements(t)
            else pc == Idle
  {
    RemoveRearms(s.cs.At(k).heap, d);
    RemovePc(s, k, d, RemoveFrom(s.cs.At(k).heap, d).0, RemoveFrom(s.cs.At(k).heap, d).1);
  }

  lemma RemovePc(s: State, k: Kind, d: Delegate, rest: Tree<Delegate>, out: Option<Delegate>)
    requires RemoveFrom(s.cs.At(k).heap, d) == (rest, out)
    ensures ProcRemove(s, k, d).mpc ==
            if Head(s.cs.At(k).heap) == out && rest.Node? then RearmAdd(k, rest.data, Some(d)) else Idle
  {
  }

  /** A Push re-arms exactly if the new timer is the only one or sooner than all others; a Remove exactly
      if it takes out the soonest of several. Otherwise no system call is made. */
  lemma RearmsIff(s0: State, past: seq<Step>, s: State)
    requires Init(s0) && Reaches(s0, past, s) && Enabled(s, StepMsg)
    ensures var pc := ProcMsg(s).mpc;
            match s.queue[0]
            case PushMsg(k, d) =>
              var t := s.cs.At(k).heap;
              pc == if t.Leaf? || Nanos(d.time) < Nanos(t.data.time) then RearmAdd(k, d, None) else Idle
            case RemoveMsg(k, d) =>
              var t := s.cs.At(k).heap;
              if t.Node? && t.data == d && |Elements(t)| > 1 then pc.RearmAdd? && pc.k == k && pc.top in Elements(t)
              else pc == Idle
            case ExpireMsg(_) => true
  {
    RunKeepsInv(s0, past, s);
    var s1 := s.(queue := s.queue[1..]);
    match s.queue[0] {
      case PushMsg(k, d) => PushRearmsIff(s1, k, d);
      case RemoveMsg(k, d) => RemoveRearmsIff(s1, k, d);
      case ExpireMsg(_) =>
    }
  }

  lemma PushRearms(t: Tree<Delegate>, d: Delegate)
    requires Ok(t, Ranks)
    ensures var t' := Push(t, d, Ranks);
            t'.Node? && t'.data == if t.Leaf? || Nanos(d.time) < Nanos(t.data.time) then d else t.data
    ensures t.Node? ==> (OutRanks(Ranks, d, t.data) <==> Nanos(d.time) < Nanos(t.data.time))
  {
    RanksIsRanking();
    PushKeeps(t, d, Ranks);
    if t.Node? { RanksIsTimeOrder(d, t.data); }
  }

  lemma RemoveRearms(t: Tree<Delegate>, d: Delegate)
    requires Ok(t, Ranks)
    ensures var (rest, out) := RemoveFrom(t, d);
            && (out == Head(t) <==> t.Leaf? || t.data == d)
            && (t.Node? && t.data == d ==>
                  (rest.Node? <==> |Elements(t)| > 1) && (rest.Node? ==> rest.data in Elements(t)))
            && (t.Leaf? ==> rest == Leaf)
  {
    OutIsHead(t, d);
    if t.Node? && t.data == d {
      HeadTaken(t);
      PopLeavesSome(t);
    }
  }

  lemma HeadTaken(t: Tree<Delegate>)
    requires t.Node?
    ensures RemoveFrom(t, t.data).0 == Pop(t, Ranks)
  {
  }

  lemma PopLeavesSome(t: Tree<Delegate>)
    requires Ok(t, Ranks) && t.Node?
    ensures var rest := Pop(t, Ranks);
            (rest.Node? <==> |Elements(t)| > 1) && (rest.Node? ==> rest.data in Elements(t))
  {
    PopElements(t, Ranks);
    NodeHasElements(Pop(t, Ranks));
  }

  lemma NodeHasElements(t: Tree<Delegate>)
    ensures t.Node? <==> |Elements(t)| > 0
    ensures t.Node? ==> t.data in Elements(t)
  {
  }

  /** The fd joins the epoll set before it is armed, and is armed for the timer decided on. */
  lemma RearmSteps(s: State)
    requires s.mpc.RearmAdd?
    ensures var k, top := s.mpc.k, s.mpc.top;
            var s1 := Do(s, StepRearmAdd);
            var s2 := Do(s1, StepRearmSet);
            && s1.cs.At(k).polled && s1.cs.At(k).armed == s.cs.At(k).armed && s1.mpc.RearmSet?
            && s2.cs.At(k).polled && (top.time != Time(0, 0) ==> s2.cs.At(k).armed == Some(top.time)) && s2.mpc == Idle
  {
  }

  // ---------------------------------------------------------------- what the poll thread does with events

  /** For an event the fd is disarmed, leaves the epoll set, and an Expire message is sent, in that
      order; nothing else changes. */
  lemma PollSteps(s: State)
    requires s.ppc.Disarm?
    ensures var k := s.ppc.k;
            var s1 := Do(s, StepDisarm);
            var s2 := Do(s1, StepUnpoll);
            var s3 := Do(s2, StepSend);
            var c := s.cs.At(k);
            && s1.cs.At(k).armed == None && s1.cs.At(k).polled == c.polled && s1.queue == s.queue
            && s2.cs.At(k).armed == None && !s2.cs.At(k).polled && s2.queue == s.queue
            && s3.queue == s.queue + [ExpireMsg(k)] && s3.cs == s.cs.With(k, Container(c.heap, None, false))
            && s3.ppc == NextEvent(s.ppc.rest) && s3.mpc == s.mpc
            && Reaches(s, [StepDisarm, StepUnpoll, StepSend], s3)
  {
    var s1 := Do(s, StepDisarm);
    var s2 := Do(s1, StepUnpoll);
    Three(s, StepDisarm, StepUnpoll, StepSend, s1, s2, Do(s2, StepSend));
  }

  function Expires(events: seq<Kind>): seq<Msg> {
    if events == [] then [] else [ExpireMsg(events[0])] + Expires(events[1..])
  }

  /** The poll thread's steps for its events, without interference. */
  lemma {:induction false} PollHandles(s: State, events: seq<Kind>) returns (run: seq<Step>, s': State)
    requires s.ppc == NextEvent(events)
    ensures Reaches(s, run, s') && s'.ppc.Waiting? && s'.queue == s.queue + Expires(events) && s'.mpc == s.mpc
    ensures forall k: Kind :: s'.cs.At(k).heap == s.cs.At(k).heap
    ensures forall k: Kind :: k in events ==> s'.cs.At(k).armed == None && !s'.cs.At(k).polled
    ensures forall k: Kind :: k !in events ==> s'.cs.At(k) == s.cs.At(k)
    decreases |events|
  {
    if events == [] {
      run, s' := [], s;
      assert s.queue + [] == s.queue;
    } else {
      var s3 := HandlesOne(s, events);
      run, s' := PollHandles(s3, events[1..]);
      RunsJoin(s, [StepDisarm, StepUnpoll, StepSend], s3, run, s');
      run := [StepDisarm, StepUnpoll, StepSend] + run;
      SentInOrder(s.queue, ExpireMsg(events[0]), Expires(events[1..]));
      forall j: Kind | j in events ensures s'.cs.At(j).armed == None && !s'.cs.At(j).polled {
        assert j == events[0] || j in events[1..];
      }
    }
  }

  lemma HandlesOne(s: State, events: seq<Kind>) returns (s': State)
    requires events != [] && s.ppc == NextEvent(events)
    ensures Reaches(s, [StepDisarm, StepUnpoll, StepSend], s')
    ensures s'.ppc == NextEvent(events[1..]) && s'.queue == s.queue + [ExpireMsg(events[0])] && s'.mpc == s.mpc
    ensures s'.cs == s.cs.With(events[0], Container(s.cs.At(events[0]).heap, None, false))
  {
    PollSteps(s);
    s' := Do(Do(Do(s, StepDisarm), StepUnpoll), StepSend);
  }

  lemma SentInOrder(q: seq<Msg>, m: Msg, more: seq<Msg>)
    ensures q + [m] + more == q + ([m] + more)
  {
  }

  lemma Three(s: State, a: Step, b: Step, c: Step, s1: State, s2: State, s3: State)
    requires Enabled(s, a) && s1 == Do(s, a) && Enabled(s1, b) && s2 == Do(s1, b)
    requires Enabled(s2, c) && s3 == Do(s2, c)
    ensures Reaches(s, [a, b, c], s3)
  {
    assert [a, b, c][1..] == [b, c] && [b, c][1..] == [c] && [c][1..] == [];
    assert Reaches(s2, [c], s3);
    assert Reaches(s1, [b, c], s3);
  }

  /** epoll_wait returns only fds that are polled and armed for a time that has come, and every event it
      returns is handled: one Expire message each, in order. */
  lemma WakeHandlesEvents(s: State, events: seq<Kind>) returns (run: seq<Step>, s': State)
    requires Enabled(s, StepWake(events))
    ensures forall k :: k in events ==>
              s.cs.At(k).polled && s.cs.At(k).armed.Some? && Nanos(s.cs.At(k).armed.value) <= Nanos(s.now)
    ensures Reaches(s, [StepWake(events)] + run, s') && s'.ppc.Waiting? && s'.queue == s.queue + Expires(events)
  {
    var s1 := Do(s, StepWake(events));
    run, s' := PollHandles(s1, events);
    assert ([StepWake(events)] + run)[1..] == run;
  }
}
