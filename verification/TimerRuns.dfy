/**
  Two runs of the timer service (gps/utils/LocTimer.cpp) that show it is not tidier than it is proved
  to be: a timer that fires early, and an empty heap that leaves its fd armed.
  */
module TimerRuns {
  import opened Basics
  import opened RankedTree
  import opened TimerRank
  import opened TimerService

  lemma {:induction false} Extend(s0: State, run: seq<Step>, s: State, a: Step)
    requires Reaches(s0, run, s) && Enabled(s, a)
    ensures Reaches(s0, run + [a], Do(s, a))
    decreases |run|
  {
    if run == [] {
      assert [a][1..] == [];
    } else {
      Extend(Do(s0, run[0]), run[1..], s, a);
      assert (run + [a])[1..] == run[1..] + [a];
    }
  }

  lemma Go(s0: State, run: seq<Step>, s: State, a: Step) returns (run': seq<Step>, s': State)
    requires Reaches(s0, run, s) && Enabled(s, a)
    ensures s' == Do(s, a) && Reaches(s0, run', s')
  {
    run', s' := run + [a], Do(s, a);
    Extend(s0, run, s, a);
  }

  /** The software container, and what the threads have in hand. */
  ghost predicate Looks(s: State, heap: Tree<Delegate>, armed: Option<BootTime>, polled: bool, queue: seq<Msg>,
                        mpc: MsgPc, ppc: PollPc)
  {
    s.cs.sw == Container(heap, armed, polled) && s.queue == queue && s.mpc == mpc && s.ppc == ppc
  }

  /** Client 0's timer runs, or does not. */
  ghost predicate Runs(s: State, d: Delegate) {
    Usable(s, 0) && s.timers[0].current == Some(d) && d in s.delegates && s.delegates[d].container == Some(Sw)
  }

  ghost predicate Rests(s: State) {
    Usable(s, 0) && s.timers[0].current == None
  }

  /** Client 0 starts a timer of `ms` milliseconds. */
  lemma Starts(s0: State, run: seq<Step>, s: State, ms: nat, d: Delegate) returns (run': seq<Step>, s': State)
    requires Reaches(s0, run, s) && Rests(s) && ms < 0x1_0000_0000
    requires d !in s.delegates && d.time == FutureTime(s.now, ms)
    ensures Reaches(s0, run', s') && s'.now == s.now && Runs(s', d) && s'.delegates.Keys == s.delegates.Keys + {d}
    ensures Looks(s', s.cs.sw.heap, s.cs.sw.armed, s.cs.sw.polled, s.queue + [PushMsg(Sw, d)], s.mpc, s.ppc)
  {
    run', s' := Go(s0, run, s, StepStart(0, Sw, ms, d));
  }

  /** Client 0 stops its timer. */
  lemma Stops(s0: State, run: seq<Step>, s: State, d: Delegate) returns (run': seq<Step>, s': State)
    requires Reaches(s0, run, s) && Runs(s, d)
    ensures Reaches(s0, run', s') && s'.now == s.now && Rests(s') && s'.delegates.Keys == s.delegates.Keys
    ensures Looks(s', s.cs.sw.heap, s.cs.sw.armed, s.cs.sw.polled, s.queue + [RemoveMsg(Sw, d)], s.mpc, s.ppc)
  {
    run', s' := Go(s0, run, s, StepStop(0));
  }

  /** A Push into the empty heap is handled, and the fd armed. */
  lemma Pushes(s0: State, run: seq<Step>, s: State, d: Delegate, rest: seq<Msg>) returns (run': seq<Step>, s': State)
    requires Reaches(s0, run, s) && d.time != Time(0, 0)
    requires Looks(s, Leaf, s.cs.sw.armed, s.cs.sw.polled, [PushMsg(Sw, d)] + rest, Idle, s.ppc)
    ensures Reaches(s0, run', s') && s'.now == s.now && s'.timers == s.timers && s'.delegates.Keys == s.delegates.Keys
    ensures Runs(s, d) ==> Runs(s', d)
    ensures Looks(s', Single(d), Some(d.time), true, rest, Idle, s.ppc)
  {
    assert s.queue[1..] == rest;
    run', s' := Go(s0, run, s, StepMsg);
    assert s'.mpc == RearmAdd(Sw, d, None);
    run', s' := Go(s0, run', s', StepRearmAdd);
    run', s' := Go(s0, run', s', StepRearmSet);
  }

  /** The Remove of the only timer in the heap is handled: nothing is re-armed. */
  lemma Removes(s0: State, run: seq<Step>, s: State, d: Delegate, rest: seq<Msg>) returns (run': seq<Step>, s': State)
    requires Reaches(s0, run, s)
    requires Looks(s, Single(d), s.cs.sw.armed, s.cs.sw.polled, [RemoveMsg(Sw, d)] + rest, Idle, s.ppc)
    ensures Reaches(s0, run', s') && s'.now == s.now
    ensures Looks(s', Leaf, s.cs.sw.armed, s.cs.sw.polled, rest, Idle, s.ppc)
  {
    assert s.queue[1..] == rest;
    RemovesOnly(d);
    run', s' := Go(s0, run, s, StepMsg);
  }

  lemma RemovesOnly(d: Delegate)
    ensures RemoveFrom(Single(d), d) == (Leaf, Some(d))
  {
  }

  /** The poll thread takes the expiry of the armed fd. */
  lemma Wakes(s0: State, run: seq<Step>, s: State) returns (run': seq<Step>, s': State)
    requires Reaches(s0, run, s) && s.ppc.Waiting? && Ready(s, Sw)
    ensures Reaches(s0, run', s') && s'.now == s.now && s'.timers == s.timers && s'.delegates == s.delegates
    ensures Looks(s', s.cs.sw.heap, s.cs.sw.armed, s.cs.sw.polled, s.queue, s.mpc, Disarm(Sw, []))
  {
    assert [Sw][1..] == [];
    run', s' := Go(s0, run, s, StepWake([Sw]));
  }

  /** And sends the Expire message. */
  lemma Sends(s0: State, run: seq<Step>, s: State) returns (run': seq<Step>, s': State)
    requires Reaches(s0, run, s) && s.ppc == Disarm(Sw, [])
    ensures Reaches(s0, run', s') && s'.now == s.now
    ensures Looks(s', s.cs.sw.heap, None, false, s.queue + [ExpireMsg(Sw)], s.mpc, Waiting)
  {
    run', s' := Go(s0, run, s, StepDisarm);
    run', s' := Go(s0, run', s', StepUnpoll);
    run', s' := Go(s0, run', s', StepSend);
  }

  /** From the start to the first timer in the heap, its fd armed. */
  lemma FirstTimer(now: BootTime, ms: nat, d: Delegate) returns (s0: State, run: seq<Step>, s: State)
    requires Nanos(now) > 0 && ms < 0x1_0000_0000 && d.time == FutureTime(now, ms)
    ensures Init(s0) && Reaches(s0, run, s) && s.now == now && Runs(s, d) && s.delegates.Keys == {d}
    ensures Looks(s, Single(d), Some(d.time), true, [], Idle, Waiting)
  {
    FutureTimeIsExact(now, ms);
    var none := Container(Leaf, None, false);
    s0 := State(now, [], Containers(none, none), map[], map[], Idle, Waiting);
    run, s := [], s0;
    run, s := Go(s0, run, s, StepNew(0));
    run, s := Starts(s0, run, s, ms, d);
    assert s.queue == [PushMsg(Sw, d)] + [];
    run, s := Pushes(s0, run, s, d, []);
  }

  /** Two timers: while the poll thread is handling the expiry of the first, that is stopped and the
      second, of `ms` milliseconds, is started; then the Expire message is sent behind both. */
  lemma Overtaken(now: BootTime, ms: nat, first: Delegate, late: Delegate)
    returns (s0: State, run: seq<Step>, s: State)
    requires Nanos(now) > 0 && ms < 0x1_0000_0000
    requires first == Delegate(0, now) && late.id == 1 && late.time == FutureTime(now, ms)
    ensures Init(s0) && Reaches(s0, run, s) && s.now == now
    ensures Looks(s, Single(first), None, false, [RemoveMsg(Sw, first), PushMsg(Sw, late), ExpireMsg(Sw)],
                  Idle, Waiting)
  {
    FutureTimeIsExact(now, 0);
    s0, run, s := FirstTimer(now, 0, first);
    run, s := Wakes(s0, run, s);
    run, s := Stops(s0, run, s, first);
    run, s := Starts(s0, run, s, ms, late);
    run, s := Sends(s0, run, s);
  }

  /** A timer can fire as much too early as its whole delay: by the time the Expire message is handled
      the later timer is the head, and it is popped without a look at the clock. */
  lemma FiresEarly(now: BootTime, ms: nat) returns (s0: State, run: seq<Step>, s: State, late: Delegate)
    requires Nanos(now) > 0 && 0 < ms < 0x1_0000_0000 && FutureTime(now, ms).sec < 0x8000_0000
    ensures Init(s0) && Reaches(s0, run, s)
    ensures s.now == now && s.mpc == Expiring(Sw, now, late) && Nanos(late.time) == Nanos(now) + ms * 1_000_000
  {
    FutureTimeIsExact(now, ms);
    var first := Delegate(0, now);
    late := Delegate(1, FutureTime(now, ms));
    s0, run, s := Overtaken(now, ms, first, late);
    assert s.queue == [RemoveMsg(Sw, first)] + [PushMsg(Sw, late), ExpireMsg(Sw)];
    run, s := Removes(s0, run, s, first, [PushMsg(Sw, late), ExpireMsg(Sw)]);
    assert s.queue == [PushMsg(Sw, late)] + [ExpireMsg(Sw)];
    run, s := Pushes(s0, run, s, late, [ExpireMsg(Sw)]);
    run, s := Go(s0, run, s, StepMsg);
  }

  /** An emptied heap leaves its fd in the epoll set, armed for the timer that is gone. */
  lemma EmptyHeapStaysArmed(now: BootTime, ms: nat) returns (s0: State, run: seq<Step>, s: State)
    requires Nanos(now) > 0 && ms < 0x1_0000_0000 && FutureTime(now, ms).sec < 0x8000_0000
    ensures Init(s0) && Reaches(s0, run, s)
    ensures Looks(s, Leaf, Some(FutureTime(now, ms)), true, [], Idle, Waiting)
  {
    FutureTimeIsExact(now, ms);
    var d := Delegate(0, FutureTime(now, ms));
    s0, run, s := FirstTimer(now, ms, d);
    run, s := Stops(s0, run, s, d);
    assert s.queue == [RemoveMsg(Sw, d)] + [];
    run, s := Removes(s0, run, s, d, []);
  }
}
