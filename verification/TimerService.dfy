/**
  The timer service of gps/utils/LocTimer.cpp as a state machine: client threads, the one message
  thread that owns the two heaps, the one poll thread, and the kernel's timerfd and epoll set.

  One step is one critical section of a timer's lock, one message-queue operation with the heap
  work up to the next system call, or one system call. Steps of different threads interleave freely.
  */
module TimerService {
  import opened Basics
  import opened RankedTree
  import opened TimerRank

  /** The software and the wake-up (alarm) container. */
  datatype Kind = Sw | Hw

  type ClientId = nat

  /** A LocTimerContainer with its timerfd: `armed` is the pending absolute time, None when
      disarmed, and `polled` says whether the fd is in the epoll set. */
  datatype Container = Container(heap: Tree<Delegate>, armed: Option<BootTime>, polled: bool)

  datatype Containers = Containers(sw: Container, hw: Container) {
    function At(k: Kind): Container {
      if k.Sw? then sw else hw
    }

    function With(k: Kind, c: Container): Containers {
      if k.Sw? then this.(sw := c) else this.(hw := c)
    }
  }

  datatype Msg =
    | PushMsg(k: Kind, d: Delegate)
    | RemoveMsg(k: Kind, d: Delegate)
    | ExpireMsg(k: Kind)

  /** Where the message thread is. `doomed` is the timer to delete once the re-arm is done. */
  datatype MsgPc =
    | Idle
    | RearmAdd(k: Kind, top: Delegate, doomed: Option<Delegate>)  // about to addPoll
    | RearmSet(k: Kind, top: Delegate, doomed: Option<Delegate>)  // about to timerfd_settime
    | DisarmDel(k: Kind, doomed: Option<Delegate>)                // about to removePoll
    | DisarmSet(k: Kind, doomed: Option<Delegate>)                // about to timerfd_settime with zero
    | Expiring(k: Kind, now: BootTime, d: Delegate)               // about to call d.expire()
    | PopNext(k: Kind, now: BootTime)                             // about to popIfOutRanks

  /** Where the poll thread is: `rest` are the events epoll_wait returned that are still to handle. */
  datatype PollPc =
    | Waiting
    | Disarm(k: Kind, rest: seq<Kind>)
    | Unpoll(k: Kind, rest: seq<Kind>)
    | Send(k: Kind, rest: seq<Kind>)

  /** A LocTimer: usable, inside its destructor, or gone. */
  datatype Phase = Alive | Closing | Gone

  /** A LocTimer and the LocSharedLock it made; `lockFrees` counts the lock's deletions. */
  datatype Timer = Timer(current: Option<Delegate>, phase: Phase, refs: int, lockFrees: nat)

  /** A LocTimerDelegate's fields, and its history: `pushed` and `removed` when the message of that
      name has been taken from the queue, `left` when it has gone from the heap. */
  datatype Record = Record(
    owner: ClientId,
    kind: Kind,
    client: Option<ClientId>,
    container: Option<Kind>,
    pushed: bool,
    left: bool,
    removed: bool,
    frees: nat,
    userStops: nat,
    expireStops: nat,
    callbacks: nat)

  datatype State = State(
    now: BootTime,
    queue: seq<Msg>,
    cs: Containers,
    timers: map<ClientId, Timer>,
    delegates: map<Delegate, Record>,
    mpc: MsgPc,
    ppc: PollPc)

  // ---------------------------------------------------------------- pieces of steps

  function Head(t: Tree<Delegate>): Option<Delegate> {
    if t.Leaf? then None else Some(t.data)
  }

  /** timerfd_settime: the zero time disarms. */
  function Arm(t: BootTime): Option<BootTime> {
    if t == Time(0, 0) then None else Some(t)
  }

  function SetHeap(s: State, k: Kind, t: Tree<Delegate>): State {
    s.(cs := s.cs.With(k, s.cs.At(k).(heap := t)))
  }

  function SetArmed(s: State, k: Kind, t: Option<BootTime>): State {
    s.(cs := s.cs.With(k, s.cs.At(k).(armed := t)))
  }

  function SetPolled(s: State, k: Kind, p: bool): State {
    s.(cs := s.cs.With(k, s.cs.At(k).(polled := p)))
  }

  function SendMsg(s: State, m: Msg): State {
    s.(queue := s.queue + [m])
  }

  function SetRecord(s: State, d: Delegate, r: Record): State {
    s.(delegates := s.delegates[d := r])
  }

  /** LocSharedLock::drop. */
  function DropLock(s: State, c: ClientId): State {
    if c !in s.timers then s else
    var t := s.timers[c];
    s.(timers := s.timers[c := t.(refs := t.refs - 1, lockFrees := t.lockFrees + if t.refs == 1 then 1 else 0)])
  }

  /** delete of a delegate, which drops its share of the lock. */
  function Free(s: State, d: Delegate): State {
    if d !in s.delegates then s else
    var r := s.delegates[d];
    DropLock(SetRecord(s, d, r.(frees := r.frees + 1)), r.owner)
  }

  function Finish(s: State, doomed: Option<Delegate>): State {
    if doomed.Some? then Free(s, doomed.value).(mpc := Idle) else s.(mpc := Idle)
  }

  /** LocTimerContainer::updateSoonestTime up to its first system call. */
  function UpdateSoonest(s: State, k: Kind, priorTop: Option<Delegate>, doomed: Option<Delegate>): State {
    var curTop := Head(s.cs.At(k).heap);
    if curTop == priorTop then Finish(s, doomed)
    else if curTop.None? then s.(mpc := DisarmDel(k, doomed))
    else if priorTop.None? || OutRanks(Ranks, curTop.value, priorTop.value)
    then s.(mpc := RearmAdd(k, curTop.value, doomed))
    else Finish(s, doomed)
  }

  /** LocTimer::stop, and LocTimerDelegate::destroyLocked inside it. */
  function StopTimer(s: State, c: ClientId, byExpire: bool): State
    requires c in s.timers
  {
    var t := s.timers[c];
    if t.current.None? || t.current.value !in s.delegates then s else
    var d := t.current.value;
    var r := s.delegates[d];
    var s1 := s.(timers := s.timers[c := t.(current := None)]);
    var s2 := SetRecord(s1, d, r.(client := None, container := None,
                                  userStops := r.userStops + if byExpire then 0 else 1,
                                  expireStops := r.expireStops + if byExpire then 1 else 0));
    if r.container.Some? then SendMsg(s2, RemoveMsg(r.container.value, d)) else s2
  }

  /** What stop() returns. */
  predicate StopSucceeds(s: State, c: ClientId)
    requires c in s.timers
  {
    s.timers[c].current.Some?
  }

  // ---------------------------------------------------------------- client steps

  function NewTimer(s: State, c: ClientId): State {
    s.(timers := s.timers[c := Timer(None, Alive, 1, 0)])
  }

  /** LocTimer::start making delegate `d`; it returns false and does nothing if a timer is running. */
  function Start(s: State, c: ClientId, k: Kind, d: Delegate): State
    requires c in s.timers
  {
    var t := s.timers[c];
    if t.current.Some? then s else
    var s1 := s.(timers := s.timers[c := t.(current := Some(d), refs := t.refs + 1)]);
    var s2 := SetRecord(s1, d, Record(c, k, Some(c), Some(k), false, false, false, 0, 0, 0, 0));
    SendMsg(s2, PushMsg(k, d))
  }

  function BeginDelete(s: State, c: ClientId): State
    requires c in s.timers
  {
    var s1 := StopTimer(s, c, false);
    if c !in s1.timers then s1 else s1.(timers := s1.timers[c := s1.timers[c].(phase := Closing)])
  }

  function EndDelete(s: State, c: ClientId): State
    requires c in s.timers
  {
    DropLock(s.(timers := s.timers[c := s.timers[c].(phase := Gone)]), c)
  }

  // ---------------------------------------------------------------- message-thread steps

  function ProcPush(s: State, k: Kind, d: Delegate): State {
    var priorTop := Head(s.cs.At(k).heap);
    var s1 := SetHeap(s, k, Push(s.cs.At(k).heap, d, Ranks));
    var s2 := if d in s1.delegates then SetRecord(s1, d, s1.delegates[d].(pushed := true)) else s1;
    UpdateSoonest(s2, k, priorTop, None)
  }

  /** LocHeap::remove on a possibly empty tree: the tree left and the pointer returned. */
  function RemoveFrom(t: Tree<Delegate>, d: Delegate): (Tree<Delegate>, Option<Delegate>) {
    Apply(t, RemoveOp(d), Ranks)
  }

  function ProcRemove(s: State, k: Kind, d: Delegate): State {
    var priorTop := Head(s.cs.At(k).heap);
    var (rest, returned) := RemoveFrom(s.cs.At(k).heap, d);
    var s1 := SetHeap(s, k, rest);
    var s2 := if d in s1.delegates
              then SetRecord(s1, d, s1.delegates[d].(removed := true, left := s1.delegates[d].left || returned.Some?))
              else s1;
    if priorTop == returned then UpdateSoonest(s2, k, None, Some(d)) else Finish(s2, Some(d))
  }

  /** Takes the head out of the heap, to expire it next. */
  function PopHead(s: State, k: Kind, now: BootTime): State
    requires s.cs.At(k).heap.Node?
  {
    var d := s.cs.At(k).heap.data;
    var s1 := SetHeap(s, k, Pop(s.cs.At(k).heap, Ranks));
    var s2 := if d in s1.delegates then SetRecord(s1, d, s1.delegates[d].(left := true)) else s1;
    s2.(mpc := Expiring(k, now, d))
  }

  /** The first pop does not look at the clock. */
  function ProcExpire(s: State, k: Kind): State {
    if s.cs.At(k).heap.Leaf? then UpdateSoonest(s, k, None, None) else PopHead(s, k, s.now)
  }

  function ProcMsg(s: State): State
    requires s.queue != []
  {
    var s1 := s.(queue := s.queue[1..]);
    match s.queue[0]
    case PushMsg(k, d) => ProcPush(s1, k, d)
    case RemoveMsg(k, d) => ProcRemove(s1, k, d)
    case ExpireMsg(k) => ProcExpire(s1, k)
  }

  function DoRearmAdd(s: State): State
    requires s.mpc.RearmAdd?
  {
    SetPolled(s, s.mpc.k, true).(mpc := RearmSet(s.mpc.k, s.mpc.top, s.mpc.doomed))
  }

  function DoRearmSet(s: State): State
    requires s.mpc.RearmSet?
  {
    Finish(SetArmed(s, s.mpc.k, Arm(s.mpc.top.time)), s.mpc.doomed)
  }

  function DoDisarmDel(s: State): State
    requires s.mpc.DisarmDel?
  {
    SetPolled(s, s.mpc.k, false).(mpc := DisarmSet(s.mpc.k, s.mpc.doomed))
  }

  function DoDisarmSet(s: State): State
    requires s.mpc.DisarmSet?
  {
    Finish(SetArmed(s, s.mpc.k, None), s.mpc.doomed)
  }

  /** LocTimerDelegate::expire: the callback is made only if the stop() here succeeds. */
  function DoExpire(s: State): State
    requires s.mpc.Expiring?
  {
    var d := s.mpc.d;
    var s1 :=
      if d in s.delegates && s.delegates[d].client.Some? && s.delegates[d].client.value in s.timers then
        var c := s.delegates[d].client.value;
        var stopped := StopTimer(s, c, true);
        if StopSucceeds(s, c) && d in stopped.delegates
        then SetRecord(stopped, d, stopped.delegates[d].(callbacks := stopped.delegates[d].callbacks + 1))
        else stopped
      else s;
    s1.(mpc := PopNext(s.mpc.k, s.mpc.now))
  }

  /** popIfOutRanks against a timer of `now`: pops the head unless it is later than now. */
  function DoPopNext(s: State): State
    requires s.mpc.PopNext?
  {
    var k := s.mpc.k;
    var t := s.cs.At(k).heap;
    if t.Node? && !(RankTimes(s.mpc.now, t.data.time) > 0) then PopHead(s, k, s.mpc.now)
    else UpdateSoonest(s, k, None, None)
  }

  // ---------------------------------------------------------------- poll-thread steps

  function NextEvent(rest: seq<Kind>): PollPc {
    if rest == [] then Waiting else Disarm(rest[0], rest[1..])
  }

  /** The fd reads as ready: it is polled and its time has come. */
  predicate Ready(s: State, k: Kind) {
    s.cs.At(k).polled && s.cs.At(k).armed.Some? && Nanos(s.cs.At(k).armed.value) <= Nanos(s.now)
  }

  function DoDisarm(s: State): State
    requires s.ppc.Disarm?
  {
    SetArmed(s, s.ppc.k, None).(ppc := Unpoll(s.ppc.k, s.ppc.rest))
  }

  function DoUnpoll(s: State): State
    requires s.ppc.Unpoll?
  {
    SetPolled(s, s.ppc.k, false).(ppc := Send(s.ppc.k, s.ppc.rest))
  }

  function DoSend(s: State): State
    requires s.ppc.Send?
  {
    SendMsg(s, ExpireMsg(s.ppc.k)).(ppc := NextEvent(s.ppc.rest))
  }

  // ---------------------------------------------------------------- the machine

  datatype Step =
    | StepTick(now: BootTime)
    | StepNew(c: ClientId)
    | StepStart(c: ClientId, k: Kind, ms: nat, d: Delegate)
    | StepStop(c: ClientId)
    | StepBeginDelete(c: ClientId)
    | StepEndDelete(c: ClientId)
    | StepMsg
    | StepRearmAdd
    | StepRearmSet
    | StepDisarmDel
    | StepDisarmSet
    | StepExpire
    | StepPopNext
    | StepWake(ready: seq<Kind>)
    | StepDisarm
    | StepUnpoll
    | StepSend

  /** A client thread may call start and stop on a timer until it begins to delete it. */
  predicate Usable(s: State, c: ClientId) {
    c in s.timers && s.timers[c].phase.Alive?
  }

  predicate Enabled(s: State, a: Step) {
    match a
    case StepTick(now) => Nanos(s.now) <= Nanos(now)
    case StepNew(c) => c !in s.timers
    case StepStart(c, k, ms, d) =>
      Usable(s, c) && ms < 0x1_0000_0000 && d !in s.delegates && d.time == FutureTime(s.now, ms)
    case StepStop(c) => Usable(s, c)
    case StepBeginDelete(c) => Usable(s, c)
    case StepEndDelete(c) => c in s.timers && s.timers[c].phase.Closing?
    case StepMsg => s.mpc.Idle? && s.queue != []
    case StepRearmAdd => s.mpc.RearmAdd?
    case StepRearmSet => s.mpc.RearmSet?
    case StepDisarmDel => s.mpc.DisarmDel?
    case StepDisarmSet => s.mpc.DisarmSet?
    case StepExpire => s.mpc.Expiring?
    case StepPopNext => s.mpc.PopNext?
    case StepWake(ready) => s.ppc.Waiting? && ready != [] && forall k :: k in ready ==> Ready(s, k)
    case StepDisarm => s.ppc.Disarm?
    case StepUnpoll => s.ppc.Unpoll?
    case StepSend => s.ppc.Send?
  }

  function Do(s: State, a: Step): State
    requires Enabled(s, a)
  {
    match a
    case StepTick(now) => s.(now := now)
    case StepNew(c) => NewTimer(s, c)
    case StepStart(c, k, ms, d) => Start(s, c, k, d)
    case StepStop(c) => StopTimer(s, c, false)
    case StepBeginDelete(c) => BeginDelete(s, c)
    case StepEndDelete(c) => EndDelete(s, c)
    case StepMsg => ProcMsg(s)
    case StepRearmAdd => DoRearmAdd(s)
    case StepRearmSet => DoRearmSet(s)
    case StepDisarmDel => DoDisarmDel(s)
    case StepDisarmSet => DoDisarmSet(s)
    case StepExpire => DoExpire(s)
    case StepPopNext => DoPopNext(s)
    case StepWake(ready) => s.(ppc := NextEvent(ready))
    case StepDisarm => DoDisarm(s)
    case StepUnpoll => DoUnpoll(s)
    case StepSend => DoSend(s)
  }

  /** Nothing started yet; the boot clock is past zero. */
  ghost predicate Init(s: State) {
    && Nanos(s.now) > 0
    && s.queue == [] && s.timers == map[] && s.delegates == map[]
    && s.cs == Containers(Container(Leaf, None, false), Container(Leaf, None, false))
    && s.mpc == Idle && s.ppc == Waiting
  }

  /** `run` takes the service from `s` to `s'`, every step being possible where it is taken. */
  ghost predicate Reaches(s: State, run: seq<Step>, s': State)
    decreases |run|
  {
    if run == [] then s == s' else Enabled(s, run[0]) && Reaches(Do(s, run[0]), run[1..], s')
  }
}
