/**
  The life of a timer in the service: one push, at most one stop, at most one remove after the push,
  one delete when the remove is processed; the callback exactly for a stop made by expiry; and the
  shared lock's count.
  */
module TimerLife {
  import opened Basics
  import opened RankedTree
  import opened TimerRank
  import opened TimerService
  import opened TimerWakeup

  ghost predicate Known(s: State, k: Kind, d: Delegate) {
    d in s.delegates && s.delegates[d].kind == k
  }

  // ---------------------------------------------------------------- the invariant

  /** No message but Expire is queued twice, and no timer's Remove is ahead of its Push. */
  ghost predicate QueueOk(q: seq<Msg>) {
    && (forall i, j :: 0 <= i < j < |q| && q[i] == q[j] ==> q[i].ExpireMsg?)
    && (forall i, j :: 0 <= i < j < |q| && q[i].RemoveMsg? && q[j].PushMsg? ==> q[i].d != q[j].d)
  }

  /** A Push is queued until it is taken; a Remove is queued from the stop until it is taken. */
  ghost predicate QueueInv(s: State) {
    && QueueOk(s.queue)
    && (forall k: Kind, d: Delegate {:trigger PushMsg(k, d)} ::
          PushMsg(k, d) in s.queue <==> Known(s, k, d) && !s.delegates[d].pushed)
    && (forall k: Kind, d: Delegate {:trigger RemoveMsg(k, d)} ::
          RemoveMsg(k, d) in s.queue <==> Known(s, k, d) && s.delegates[d].container.None? && !s.delegates[d].removed)
  }

  /** How often `d` should be in the heap of container `k`. */
  ghost function Copies(s: State, k: Kind, d: Delegate): nat {
    if Known(s, k, d) && s.delegates[d].pushed && !s.delegates[d].left then 1 else 0
  }

  ghost predicate HeapInv(s: State) {
    forall k: Kind, d: Delegate {:trigger Elements(s.cs.At(k).heap)[d]} ::
      Elements(s.cs.At(k).heap)[d] == Copies(s, k, d)
  }

  /** The timer that the message thread will delete when it has re-armed. */
  ghost function Doomed(pc: MsgPc): Option<Delegate> {
    if pc.RearmAdd? || pc.RearmSet? || pc.DisarmDel? || pc.DisarmSet? then pc.doomed else None
  }

  ghost predicate BeingExpired(pc: MsgPc, k: Kind, d: Delegate) {
    pc.Expiring? && pc.k == k && pc.d == d
  }

  ghost predicate RecordOk(r: Record, d: Delegate, pc: MsgPc) {
    && (r.client.Some? <==> r.container.Some?)
    && (r.client.Some? ==> r.client == Some(r.owner) && r.container == Some(r.kind))
    && (r.left ==> r.pushed)
    && (r.removed ==> r.left && r.client.None?)
    && (r.left && r.client.Some? ==> BeingExpired(pc, r.kind, d))
    && r.frees == (if r.removed && Doomed(pc) != Some(d) then 1 else 0)
    && r.userStops + r.expireStops == (if r.client.Some? then 0 else 1)
    && r.callbacks == r.expireStops
  }

  ghost predicate RecordsInv(s: State) {
    && (forall d :: d in s.delegates ==> RecordOk(s.delegates[d], d, s.mpc))
    && (Doomed(s.mpc).Some? ==> Doomed(s.mpc).value in s.delegates && s.delegates[Doomed(s.mpc).value].removed)
    && (s.mpc.Expiring? ==>
          Known(s, s.mpc.k, s.mpc.d) && s.delegates[s.mpc.d].left && !s.delegates[s.mpc.d].removed)
  }

  ghost predicate CurrentLinked(s: State, c: ClientId, d: Delegate) {
    d in s.delegates && s.delegates[d].client == Some(c)
  }

  ghost predicate IsCurrent(s: State, c: ClientId, d: Delegate) {
    c in s.timers && s.timers[c].current == Some(d)
  }

  /** A delegate points back at a LocTimer exactly while it is that LocTimer's current timer. */
  ghost predicate LinksInv(s: State) {
    && (forall d :: d in s.delegates ==> s.delegates[d].owner in s.timers)
    && (forall c :: c in s.timers && s.timers[c].current.Some? ==> CurrentLinked(s, c, s.timers[c].current.value))
    && (forall d :: d in s.delegates && s.delegates[d].client.Some? ==> IsCurrent(s, s.delegates[d].client.value, d))
    && (forall c :: c in s.timers && !s.timers[c].phase.Alive? ==> s.timers[c].current.None?)
  }

  ghost function LiveIn(m: map<Delegate, Record>, c: ClientId): set<Delegate> {
    set d | d in m && m[d].owner == c && m[d].frees == 0
  }

  ghost function LiveOf(s: State, c: ClientId): set<Delegate> {
    LiveIn(s.delegates, c)
  }

  lemma LiveUpdate(m: map<Delegate, Record>, d: Delegate, r: Record, c: ClientId)
    requires d in m ==> m[d].owner == r.owner
    ensures LiveIn(m[d := r], c) ==
            if c == r.owner && r.frees == 0 then LiveIn(m, c) + {d} else LiveIn(m, c) - {d}
    ensures (d !in m || r.owner != c || m[d].frees != 0) ==> d !in LiveIn(m, c)
  {
  }

  ghost predicate LockOk(t: Timer, live: nat) {
    && t.refs == (if t.phase.Gone? then 0 else 1) + live
    && t.lockFrees == (if t.refs == 0 then 1 else 0)
  }

  ghost predicate LocksInv(s: State) {
    forall c :: c in s.timers ==> LockOk(s.timers[c], |LiveOf(s, c)|)
  }

  ghost predicate Life(s: State) {
    QueueInv(s) && HeapInv(s) && RecordsInv(s) && LinksInv(s) && LocksInv(s)
  }

  // ---------------------------------------------------------------- queue facts

  lemma Sent(q: seq<Msg>, m: Msg)
    requires QueueOk(q) && m !in q
    requires m.PushMsg? ==> RemoveMsg(m.k, m.d) !in q && forall k: Kind :: RemoveMsg(k, m.d) !in q
    ensures QueueOk(q + [m])
    ensures forall x :: x in q + [m] <==> x in q || x == m
  {
  }

  lemma Taken(q: seq<Msg>)
    requires QueueOk(q) && q != []
    ensures QueueOk(q[1..])
    ensures forall x :: x in q <==> x == q[0] || x in q[1..]
    ensures !q[0].ExpireMsg? ==> q[0] !in q[1..]
    ensures q[0].RemoveMsg? ==> forall k: Kind :: PushMsg(k, q[0].d) !in q[1..]
  {
    assert q == [q[0]] + q[1..];
  }

  /** Only the queue, the heaps, the delegates, the timers and, of the message thread, what it is
      deleting or expiring, are part of a timer's life. */
  ghost predicate SameLife(s: State, s': State) {
    && s'.queue == s.queue && s'.delegates == s.delegates && s'.timers == s.timers
    && s'.cs.sw.heap == s.cs.sw.heap && s'.cs.hw.heap == s.cs.hw.heap
    && (s'.mpc == s.mpc || (!s.mpc.Expiring? && !s'.mpc.Expiring? && Doomed(s'.mpc) == Doomed(s.mpc)))
  }

  lemma SameLifeKeeps(s: State, s': State)
    requires Life(s) && SameLife(s, s')
    ensures Life(s')
  {
    HeapInvFrame(s, s');
    RecordsInvFrame(s, s');
    LinksInvFrame(s, s');
    LocksInvFrame(s, s');
  }

  lemma RecordsInvFrame(s: State, s': State)
    requires RecordsInv(s) && s'.delegates == s.delegates
    requires s'.mpc == s.mpc || (!s.mpc.Expiring? && !s'.mpc.Expiring? && Doomed(s'.mpc) == Doomed(s.mpc))
    ensures RecordsInv(s')
  {
    forall d | d in s'.delegates ensures RecordOk(s'.delegates[d], d, s'.mpc) {
      assert RecordOk(s.delegates[d], d, s.mpc);
    }
  }

  lemma LinksInvFrame(s: State, s': State)
    requires LinksInv(s) && s'.timers.Keys == s.timers.Keys && s'.delegates.Keys == s.delegates.Keys
    requires forall c :: c in s.timers ==> s'.timers[c].current == s.timers[c].current
    requires forall c :: c in s.timers ==> s'.timers[c].phase.Alive? || s.timers[c].current.None?
    requires forall d :: d in s.delegates ==>
               s'.delegates[d].client == s.delegates[d].client && s'.delegates[d].owner == s.delegates[d].owner
    ensures LinksInv(s')
  {
    forall c | c in s'.timers && s'.timers[c].current.Some? ensures CurrentLinked(s', c, s'.timers[c].current.value) {
      assert CurrentLinked(s, c, s.timers[c].current.value);
    }
    forall d | d in s'.delegates && s'.delegates[d].client.Some?
      ensures IsCurrent(s', s'.delegates[d].client.value, d)
    {
      assert IsCurrent(s, s.delegates[d].client.value, d);
    }
  }

  // ---------------------------------------------------------------- stop and expire

  /** A stop that found a timer, with the callback counted if the timer's own expiry made it. */
  ghost function Stopped(s: State, c: ClientId, d: Delegate, byExpire: bool, pc: MsgPc): State
    requires c in s.timers && d in s.delegates
  {
    var r := s.delegates[d];
    var n := if byExpire then 1 else 0;
    s.(timers := s.timers[c := s.timers[c].(current := None)],
       delegates := s.delegates[d := r.(client := None, container := None, userStops := r.userStops + 1 - n,
                                        expireStops := r.expireStops + n, callbacks := r.callbacks + n)],
       queue := s.queue + [RemoveMsg(r.kind, d)],
       mpc := pc)
  }

  lemma StoppedKeepsQueue(s: State, c: ClientId, d: Delegate, byExpire: bool, pc: MsgPc)
    requires QueueInv(s) && c in s.timers && d in s.delegates
    requires s.delegates[d].container.Some? && !s.delegates[d].removed
    ensures QueueInv(Stopped(s, c, d, byExpire, pc))
  {
    var m := RemoveMsg(s.delegates[d].kind, d);
    assert m !in s.queue;
    Sent(s.queue, m);
  }

  /** HeapInv looks at a delegate's kind, `pushed` and `left` only. */
  lemma HeapInvFrame(s: State, s': State)
    requires HeapInv(s) && forall k: Kind :: s'.cs.At(k).heap == s.cs.At(k).heap
    requires forall k: Kind, d: Delegate {:trigger Copies(s', k, d)} :: Copies(s', k, d) == Copies(s, k, d)
    ensures HeapInv(s')
  {
    forall k: Kind, e: Delegate ensures Elements(s'.cs.At(k).heap)[e] == Copies(s', k, e) {
      assert Elements(s.cs.At(k).heap)[e] == Copies(s, k, e);
    }
  }

  /** LocksInv looks at who owns which undeleted delegate, and at the locks. */
  lemma LocksInvFrame(s: State, s': State)
    requires LocksInv(s) && s'.timers.Keys == s.timers.Keys
    requires forall c :: c in s.timers ==>
               LiveOf(s', c) == LiveOf(s, c) && s'.timers[c].refs == s.timers[c].refs
               && s'.timers[c].lockFrees == s.timers[c].lockFrees
               && (s'.timers[c].phase.Gone? <==> s.timers[c].phase.Gone?)
    ensures LocksInv(s')
  {
    forall c | c in s'.timers ensures LockOk(s'.timers[c], |LiveOf(s', c)|) {
      assert LockOk(s.timers[c], |LiveOf(s, c)|);
    }
  }

  lemma StoppedKeepsLife(s: State, c: ClientId, d: Delegate, byExpire: bool, pc: MsgPc)
    requires Life(s) && c in s.timers && s.timers[c].current == Some(d) && d in s.delegates
    requires pc == s.mpc || (pc.PopNext? && BeingExpired(s.mpc, s.delegates[d].kind, d))
    ensures Life(Stopped(s, c, d, byExpire, pc))
  {
    var s' := Stopped(s, c, d, byExpire, pc);
    assert s.delegates[d].client == Some(c) && RecordOk(s.delegates[d], d, s.mpc);
    StoppedKeepsQueue(s, c, d, byExpire, pc);
    StoppedKeepsHeapAndLocks(s, c, d, byExpire, pc);
    StoppedKeepsRecords(s, c, d, byExpire, pc);
    StoppedKeepsLinks(s, c, d, byExpire, pc);
  }

  lemma StoppedKeepsHeapAndLocks(s: State, c: ClientId, d: Delegate, byExpire: bool, pc: MsgPc)
    requires HeapInv(s) && LocksInv(s) && c in s.timers && d in s.delegates
    ensures HeapInv(Stopped(s, c, d, byExpire, pc)) && LocksInv(Stopped(s, c, d, byExpire, pc))
  {
    HeapInvFrame(s, Stopped(s, c, d, byExpire, pc));
    LocksInvFrame(s, Stopped(s, c, d, byExpire, pc));
  }

  lemma StoppedKeepsRecords(s: State, c: ClientId, d: Delegate, byExpire: bool, pc: MsgPc)
    requires RecordsInv(s) && c in s.timers && d in s.delegates && s.delegates[d].client.Some?
    requires pc == s.mpc || (pc.PopNext? && BeingExpired(s.mpc, s.delegates[d].kind, d))
    ensures RecordsInv(Stopped(s, c, d, byExpire, pc))
  {
    assert RecordOk(s.delegates[d], d, s.mpc);
    var s' := Stopped(s, c, d, byExpire, pc);
    forall e | e in s'.delegates ensures RecordOk(s'.delegates[e], e, pc) {
      assert RecordOk(s.delegates[e], e, s.mpc);
    }
  }

  lemma StoppedKeepsLinks(s: State, c: ClientId, d: Delegate, byExpire: bool, pc: MsgPc)
    requires LinksInv(s) && c in s.timers && s.timers[c].current == Some(d) && d in s.delegates
    ensures LinksInv(Stopped(s, c, d, byExpire, pc))
  {
    var s' := Stopped(s, c, d, byExpire, pc);
    assert CurrentLinked(s, c, d);
    forall b | b in s'.timers && s'.timers[b].current.Some? ensures CurrentLinked(s', b, s'.timers[b].current.value) {
      assert CurrentLinked(s, b, s.timers[b].current.value);
    }
    forall e | e in s'.delegates && s'.delegates[e].client.Some?
      ensures IsCurrent(s', s'.delegates[e].client.value, e)
    {
      assert IsCurrent(s, s.delegates[e].client.value, e);
    }
  }

  lemma StopIsStopped(s: State, c: ClientId)
    requires RecordsInv(s) && LinksInv(s) && c in s.timers && s.timers[c].current.Some?
    ensures var d := s.timers[c].current.value;
            && d in s.delegates && s.delegates[d].client == Some(c)
            && StopTimer(s, c, false) == Stopped(s, c, d, false, s.mpc)
  {
    var d := s.timers[c].current.value;
    assert CurrentLinked(s, c, d);
    assert RecordOk(s.delegates[d], d, s.mpc);
  }

  lemma ExpireIsStopped(s: State, c: ClientId)
    requires RecordsInv(s) && LinksInv(s) && s.mpc.Expiring? && s.mpc.d in s.delegates
    requires s.delegates[s.mpc.d].client == Some(c)
    ensures c in s.timers && s.timers[c].current == Some(s.mpc.d)
    ensures DoExpire(s) == Stopped(s, c, s.mpc.d, true, PopNext(s.mpc.k, s.mpc.now))
  {
    assert IsCurrent(s, c, s.mpc.d);
    assert RecordOk(s.delegates[s.mpc.d], s.mpc.d, s.mpc);
  }

  lemma StopKeepsLife(s: State, c: ClientId)
    requires Life(s) && c in s.timers
    ensures Life(StopTimer(s, c, false))
  {
    if s.timers[c].current.Some? {
      StopIsStopped(s, c);
      StoppedKeepsLife(s, c, s.timers[c].current.value, false, s.mpc);
    }
  }

  /** expire() stops the very timer it is called on, or finds it stopped already. */
  lemma ExpireKeepsLife(s: State)
    requires Life(s) && s.mpc.Expiring?
    ensures Life(DoExpire(s))
  {
    var d := s.mpc.d;
    var pc := PopNext(s.mpc.k, s.mpc.now);
    if s.delegates[d].client.Some? {
      var c := s.delegates[d].client.value;
      ExpireIsStopped(s, c);
      StoppedKeepsLife(s, c, d, true, pc);
    } else {
      assert DoExpire(s) == s.(mpc := pc);
      ExpireStoppedKeepsLife(s, pc);
    }
  }

  lemma ExpireStoppedKeepsLife(s: State, pc: MsgPc)
    requires Life(s) && s.mpc.Expiring? && s.delegates[s.mpc.d].client.None? && pc.PopNext?
    ensures Life(s.(mpc := pc))
  {
    var s' := s.(mpc := pc);
    forall e | e in s'.delegates ensures RecordOk(s'.delegates[e], e, pc) {
      assert RecordOk(s.delegates[e], e, s.mpc);
    }
    HeapInvFrame(s, s');
    LinksInvFrame(s, s');
    LocksInvFrame(s, s');
  }

  // ---------------------------------------------------------------- other client steps

  lemma NewKeepsLife(s: State, c: ClientId)
    requires Life(s) && c !in s.timers
    ensures Life(NewTimer(s, c))
  {
    var s' := NewTimer(s, c);
    HeapInvFrame(s, s');
    forall b | b in s'.timers ensures LockOk(s'.timers[b], |LiveOf(s', b)|) {
      assert LiveOf(s', b) == LiveOf(s, b);
      if b == c { assert LiveOf(s, b) == {}; }
    }
  }

  lemma StartKeepsLife(s: State, c: ClientId, k: Kind, d: Delegate)
    requires Life(s) && Usable(s, c) && d !in s.delegates
    ensures Life(Start(s, c, k, d))
  {
    if s.timers[c].current.None? {
      StartKeepsQueue(s, c, k, d);
      HeapInvFrame(s, Start(s, c, k, d));
      StartKeepsRecords(s, c, k, d);
      StartKeepsLinks(s, c, k, d);
      StartKeepsLocks(s, c, k, d);
    }
  }

  lemma StartKeepsQueue(s: State, c: ClientId, k: Kind, d: Delegate)
    requires QueueInv(s) && Usable(s, c) && d !in s.delegates && s.timers[c].current.None?
    ensures QueueInv(Start(s, c, k, d))
  {
    forall j: Kind ensures PushMsg(j, d) !in s.queue && RemoveMsg(j, d) !in s.queue { }
    Sent(s.queue, PushMsg(k, d));
  }

  lemma StartKeepsRecords(s: State, c: ClientId, k: Kind, d: Delegate)
    requires RecordsInv(s) && Usable(s, c) && d !in s.delegates && s.timers[c].current.None?
    ensures RecordsInv(Start(s, c, k, d))
  {
    var s' := Start(s, c, k, d);
    forall e | e in s'.delegates ensures RecordOk(s'.delegates[e], e, s'.mpc) {
      if e != d { assert RecordOk(s.delegates[e], e, s.mpc); }
    }
  }

  lemma StartKeepsLinks(s: State, c: ClientId, k: Kind, d: Delegate)
    requires LinksInv(s) && Usable(s, c) && d !in s.delegates && s.timers[c].current.None?
    ensures LinksInv(Start(s, c, k, d))
  {
    var s' := Start(s, c, k, d);
    forall b | b in s'.timers && s'.timers[b].current.Some? ensures CurrentLinked(s', b, s'.timers[b].current.value) {
      if b != c { assert CurrentLinked(s, b, s.timers[b].current.value); }
    }
    forall e | e in s'.delegates && s'.delegates[e].client.Some?
      ensures IsCurrent(s', s'.delegates[e].client.value, e)
    {
      if e != d { assert IsCurrent(s, s.delegates[e].client.value, e); }
    }
  }

  lemma StartKeepsLocks(s: State, c: ClientId, k: Kind, d: Delegate)
    requires LocksInv(s) && Usable(s, c) && d !in s.delegates && s.timers[c].current.None?
    ensures LocksInv(Start(s, c, k, d))
  {
    var s' := Start(s, c, k, d);
    forall b | b in s'.timers ensures LockOk(s'.timers[b], |LiveOf(s', b)|) {
      assert LockOk(s.timers[b], |LiveOf(s, b)|);
      StartLive(s, c, k, d, b);
    }
  }

  lemma StartLive(s: State, c: ClientId, k: Kind, d: Delegate, b: ClientId)
    requires c in s.timers && d !in s.delegates && s.timers[c].current.None?
    ensures |LiveOf(Start(s, c, k, d), b)| == |LiveOf(s, b)| + if b == c then 1 else 0
  {
    LiveUpdate(s.delegates, d, Start(s, c, k, d).delegates[d], b);
  }

  lemma BeginDeleteKeepsLife(s: State, c: ClientId)
    requires Life(s) && Usable(s, c)
    ensures Life(BeginDelete(s, c))
  {
    StopKeepsLife(s, c);
    StoppedTimer(s, c);
    ClosingKeepsLife(StopTimer(s, c, false), c);
  }

  lemma StoppedTimer(s: State, c: ClientId)
    requires Life(s) && c in s.timers
    ensures c in StopTimer(s, c, false).timers
    ensures StopTimer(s, c, false).timers[c] == s.timers[c].(current := None)
  {
    if s.timers[c].current.Some? { assert CurrentLinked(s, c, s.timers[c].current.value); }
  }

  lemma ClosingKeepsLife(s: State, c: ClientId)
    requires Life(s) && Usable(s, c) && s.timers[c].current.None?
    ensures Life(s.(timers := s.timers[c := s.timers[c].(phase := Closing)]))
  {
    var s' := s.(timers := s.timers[c := s.timers[c].(phase := Closing)]);
    HeapInvFrame(s, s');
    RecordsInvFrame(s, s');
    LinksInvFrame(s, s');
    LocksInvFrame(s, s');
  }

  lemma EndDeleteKeepsLife(s: State, c: ClientId)
    requires Life(s) && c in s.timers && s.timers[c].phase.Closing?
    ensures Life(EndDelete(s, c))
  {
    var s' := EndDelete(s, c);
    HeapInvFrame(s, s');
    RecordsInvFrame(s, s');
    LinksInvFrame(s, s');
    EndDeleteKeepsLocks(s, c);
  }

  lemma EndDeleteKeepsLocks(s: State, c: ClientId)
    requires LocksInv(s) && c in s.timers && s.timers[c].phase.Closing?
    ensures LocksInv(EndDelete(s, c))
  {
    var s' := EndDelete(s, c);
    forall b | b in s'.timers ensures LockOk(s'.timers[b], |LiveOf(s', b)|) {
      assert LockOk(s.timers[b], |LiveOf(s, b)|);
      assert LiveOf(s', b) == LiveOf(s, b);
    }
  }

  // ---------------------------------------------------------------- message-thread steps

  lemma FinishKeepsLife(s: State, doomed: Option<Delegate>)
    requires Life(s) && !s.mpc.Expiring? && Doomed(s.mpc) == doomed
    ensures Life(Finish(s, doomed))
  {
    if doomed.None? {
      SameLifeKeeps(s, s.(mpc := Idle));
    } else {
      FreeKeepsLife(s, doomed.value);
    }
  }

  lemma FreeKeepsLife(s: State, d: Delegate)
    requires Life(s) && !s.mpc.Expiring? && Doomed(s.mpc) == Some(d)
    ensures Life(Free(s, d).(mpc := Idle))
  {
    assert RecordOk(s.delegates[d], d, s.mpc);
    FreeKeepsHeapAndLinks(s, d);
    FreeKeepsRecords(s, d);
    FreeKeepsLocks(s, d);
  }

  lemma FreeKeepsHeapAndLinks(s: State, d: Delegate)
    requires QueueInv(s) && HeapInv(s) && LinksInv(s) && d in s.delegates
    ensures var s' := Free(s, d).(mpc := Idle);
            QueueInv(s') && HeapInv(s') && LinksInv(s')
  {
    var s' := Free(s, d).(mpc := Idle);
    FreeKeepsQueue(s, d);
    assert s'.delegates == s.delegates[d := s.delegates[d].(frees := s.delegates[d].frees + 1)];
    HeapInvFrame(s, s');
    LinksInvFrame(s, s');
  }

  lemma FreeKeepsQueue(s: State, d: Delegate)
    requires QueueInv(s) && d in s.delegates
    ensures QueueInv(Free(s, d).(mpc := Idle))
  {
  }

  lemma FreeKeepsRecords(s: State, d: Delegate)
    requires RecordsInv(s) && !s.mpc.Expiring? && Doomed(s.mpc) == Some(d)
    ensures RecordsInv(Free(s, d).(mpc := Idle))
  {
    var s' := Free(s, d).(mpc := Idle);
    assert RecordOk(s.delegates[d], d, s.mpc);
    forall e | e in s'.delegates ensures RecordOk(s'.delegates[e], e, Idle) {
      assert RecordOk(s.delegates[e], e, s.mpc);
    }
  }

  lemma FreeKeepsLocks(s: State, d: Delegate)
    requires LocksInv(s) && d in s.delegates && s.delegates[d].owner in s.timers && s.delegates[d].frees == 0
    ensures LocksInv(Free(s, d).(mpc := Idle))
  {
    var s' := Free(s, d).(mpc := Idle);
    var c := s.delegates[d].owner;
    assert d in LiveOf(s, c);
    forall b | b in s'.timers ensures LockOk(s'.timers[b], |LiveOf(s', b)|) {
      assert LockOk(s.timers[b], |LiveOf(s, b)|);
      LiveUpdate(s.delegates, d, s'.delegates[d], b);
    }
  }

  /** updateSoonestTime only moves the program counter, or ends the message. */
  lemma UpdateSoonestKeepsLife(s0: State, s: State, k: Kind, prior: Option<Delegate>, doomed: Option<Delegate>)
    requires Life(s0) && s0 == s.(mpc := DisarmSet(k, doomed))
    ensures Life(UpdateSoonest(s, k, prior, doomed))
  {
    var s' := UpdateSoonest(s, k, prior, doomed);
    if s' == Finish(s, doomed) {
      FinishIgnoresPc(s0, s, doomed);
      FinishKeepsLife(s0, doomed);
    } else {
      SameLifeKeeps(s0, s');
    }
  }

  lemma FinishIgnoresPc(s0: State, s: State, doomed: Option<Delegate>)
    requires s0 == s.(mpc := s0.mpc)
    ensures Finish(s0, doomed) == Finish(s, doomed)
  {
  }

  /** Taking an Expire message changes no timer's life. */
  lemma ExpireTakenKeepsLife(s: State)
    requires Life(s) && s.queue != [] && s.queue[0].ExpireMsg?
    ensures Life(s.(queue := s.queue[1..]))
  {
    var s' := s.(queue := s.queue[1..]);
    Taken(s.queue);
    HeapInvFrame(s, s');
    RecordsInvFrame(s, s');
    LinksInvFrame(s, s');
    LocksInvFrame(s, s');
  }

  lemma SendKeepsLife(s: State, k: Kind)
    requires Life(s)
    ensures Life(SendMsg(s, ExpireMsg(k)))
  {
    var s' := SendMsg(s, ExpireMsg(k));
    forall x ensures x in s'.queue <==> x in s.queue || x == ExpireMsg(k) { }
    HeapInvFrame(s, s');
    RecordsInvFrame(s, s');
    LinksInvFrame(s, s');
    LocksInvFrame(s, s');
  }

  ghost function Changed(s: State, k: Kind, t: Tree<Delegate>, d: Delegate, r: Record, q: seq<Msg>, pc: MsgPc): State {
    SetRecord(SetHeap(s, k, t), d, r).(queue := q, mpc := pc)
  }

  /** A message-thread step gives one container a new heap and one delegate a new record, keeping
      who owns it, what it is linked to and whether it is deleted. */
  lemma ChangedKeepsLinksAndLocks(s: State, k: Kind, t: Tree<Delegate>, d: Delegate, r: Record, q: seq<Msg>, pc: MsgPc)
    requires LinksInv(s) && LocksInv(s) && d in s.delegates
    requires r.owner == s.delegates[d].owner && r.client == s.delegates[d].client && r.frees == s.delegates[d].frees
    ensures LinksInv(Changed(s, k, t, d, r, q, pc)) && LocksInv(Changed(s, k, t, d, r, q, pc))
  {
    LinksInvFrame(s, Changed(s, k, t, d, r, q, pc));
    LocksInvFrame(s, Changed(s, k, t, d, r, q, pc));
  }

  lemma ChangedKeepsHeap(s: State, k: Kind, t: Tree<Delegate>, d: Delegate, r: Record, q: seq<Msg>, pc: MsgPc)
    requires HeapInv(s) && Known(s, k, d) && r.kind == k
    requires forall e {:trigger Elements(t)[e]} :: e != d ==> Elements(t)[e] == Elements(s.cs.At(k).heap)[e]
    requires Elements(t)[d] == if r.pushed && !r.left then 1 else 0
    ensures HeapInv(Changed(s, k, t, d, r, q, pc))
  {
    var s' := Changed(s, k, t, d, r, q, pc);
    forall j: Kind, e: Delegate ensures Elements(s'.cs.At(j).heap)[e] == Copies(s', j, e) {
      ChangedCopies(s, k, t, d, r, q, pc, j, e);
      var before := s.cs.At(j).heap;
      assert Elements(before)[e] == Copies(s, j, e);
    }
  }

  lemma ChangedCopies(s: State, k: Kind, t: Tree<Delegate>, d: Delegate, r: Record, q: seq<Msg>, pc: MsgPc,
                      j: Kind, e: Delegate)
    requires Known(s, k, d) && r.kind == k
    ensures var s' := Changed(s, k, t, d, r, q, pc);
            && s'.cs.At(j).heap == (if j == k then t else s.cs.At(j).heap)
            && Copies(s', j, e) == if e != d then Copies(s, j, e)
                                   else if j != k then 0 else if r.pushed && !r.left then 1 else 0
    ensures j != k ==> Copies(s, j, d) == 0
  {
  }

  lemma ChangedKeepsRecords(s: State, k: Kind, t: Tree<Delegate>, d: Delegate, r: Record, q: seq<Msg>, pc: MsgPc)
    requires RecordsInv(s) && d in s.delegates && RecordOk(r, d, pc) && !s.mpc.Expiring? && Doomed(s.mpc).None?
    requires Doomed(pc).Some? ==> Doomed(pc) == Some(d) && r.removed && !s.delegates[d].removed
    requires pc.Expiring? ==> pc == Expiring(r.kind, pc.now, d) && r.left && !r.removed
    ensures RecordsInv(Changed(s, k, t, d, r, q, pc))
  {
    var s' := Changed(s, k, t, d, r, q, pc);
    forall e | e in s'.delegates ensures RecordOk(s'.delegates[e], e, pc) {
      if e != d { assert RecordOk(s.delegates[e], e, s.mpc); }
    }
  }

  lemma PushTakenFacts(s: State, k: Kind, d: Delegate)
    requires QueueInv(s) && HeapInv(s) && RecordsInv(s) && s.queue != [] && s.queue[0] == PushMsg(k, d)
    ensures Known(s, k, d) && RecordOk(s.delegates[d], d, s.mpc)
    ensures !s.delegates[d].pushed && !s.delegates[d].left && !s.delegates[d].removed
    ensures Elements(Push(s.cs.At(k).heap, d, Ranks))[d] == 1
    ensures forall e :: e != d ==> Elements(Push(s.cs.At(k).heap, d, Ranks))[e] == Elements(s.cs.At(k).heap)[e]
  {
    assert PushMsg(k, d) in s.queue;
    assert RecordOk(s.delegates[d], d, s.mpc);
    assert Elements(s.cs.At(k).heap)[d] == Copies(s, k, d) == 0;
    PushElements(s.cs.At(k).heap, d, Ranks);
  }

  lemma PushedKeepsLife(s: State, k: Kind, d: Delegate)
    requires Life(s) && s.mpc.Idle? && s.queue != [] && s.queue[0] == PushMsg(k, d)
    ensures Life(ProcMsg(s))
  {
    PushTakenFacts(s, k, d);
    var t := Push(s.cs.At(k).heap, d, Ranks);
    var r := s.delegates[d].(pushed := true);
    var pc := DisarmSet(k, None);
    PushedKeepsQueue(s, k, d, pc);
    ChangedKeepsHeap(s, k, t, d, r, s.queue[1..], pc);
    ChangedKeepsRecords(s, k, t, d, r, s.queue[1..], pc);
    ChangedKeepsLinksAndLocks(s, k, t, d, r, s.queue[1..], pc);
    PushedEnds(s, k, d);
  }

  lemma PushedEnds(s: State, k: Kind, d: Delegate)
    requires s.mpc.Idle? && s.queue != [] && s.queue[0] == PushMsg(k, d) && d in s.delegates
    requires Life(Changed(s, k, Push(s.cs.At(k).heap, d, Ranks), d, s.delegates[d].(pushed := true), s.queue[1..],
                          DisarmSet(k, None)))
    ensures Life(ProcMsg(s))
  {
    var t := s.cs.At(k).heap;
    var s2 := Changed(s, k, Push(t, d, Ranks), d, s.delegates[d].(pushed := true), s.queue[1..], Idle);
    UpdateSoonestKeepsLife(s2.(mpc := DisarmSet(k, None)), s2, k, Head(t), None);
    assert ProcMsg(s) == UpdateSoonest(s2, k, Head(t), None);
  }

  lemma PushedKeepsQueue(s: State, k: Kind, d: Delegate, pc: MsgPc)
    requires QueueInv(s) && s.queue != [] && s.queue[0] == PushMsg(k, d) && d in s.delegates
    ensures var r := s.delegates[d].(pushed := true);
            QueueInv(Changed(s, k, Push(s.cs.At(k).heap, d, Ranks), d, r, s.queue[1..], pc))
  {
    Taken(s.queue);
  }

  lemma RemovedKeepsQueue(s: State, k: Kind, t: Tree<Delegate>, d: Delegate, pc: MsgPc)
    requires QueueInv(s) && s.queue != [] && s.queue[0] == RemoveMsg(k, d) && d in s.delegates
    ensures QueueInv(Changed(s, k, t, d, s.delegates[d].(removed := true, left := true), s.queue[1..], pc))
    ensures s.delegates[d].pushed
  {
    Taken(s.queue);
    assert RemoveMsg(k, d) in s.queue;
    assert PushMsg(k, d) !in s.queue;
  }

  /** The Remove message finds its timer pushed; it takes it out if expiry has not. */
  lemma RemovedKeepsLife(s: State, k: Kind, d: Delegate)
    requires Life(s) && Ok(s.cs.At(k).heap, Ranks)
    requires s.mpc.Idle? && s.queue != [] && s.queue[0] == RemoveMsg(k, d)
    ensures Life(ProcMsg(s))
  {
    assert RemoveMsg(k, d) in s.queue;
    var t := s.cs.At(k).heap;
    var (rest, returned) := RemoveFrom(t, d);
    var r := s.delegates[d].(removed := true, left := true);
    var pc := DisarmSet(k, Some(d));
    RemovedKeepsQueue(s, k, rest, d, pc);
    assert RecordOk(s.delegates[d], d, s.mpc);
    assert Elements(t)[d] == Copies(s, k, d);
    RemoveFromCounts(t, d);
    ChangedKeepsHeap(s, k, rest, d, r, s.queue[1..], pc);
    ChangedKeepsRecords(s, k, rest, d, r, s.queue[1..], pc);
    ChangedKeepsLinksAndLocks(s, k, rest, d, r, s.queue[1..], pc);
    DoomedEnds(Changed(s, k, rest, d, r, s.queue[1..], pc), k, d);
    ProcRemoveIs(s, k, d, Changed(s, k, rest, d, r, s.queue[1..], Idle));
  }

  lemma RemoveTimer(t: Tree<Delegate>, d: Delegate)
    requires t.Node? && Ok(t, Ranks)
    ensures Remove(t, d, Ranks).Removed? <==> d in Elements(t)
    ensures d in Elements(t) ==> Elements(t) == Elements(Remove(t, d, Ranks).rest) + multiset{d}
  {
    RanksIsRanking();
    RemoveKeeps(t, d, Ranks);
  }

  lemma OneLess(a: multiset<Delegate>, b: multiset<Delegate>, d: Delegate)
    requires a == b + multiset{d} && a[d] <= 1
    ensures a[d] == 1 && b[d] == 0 && forall e :: e != d ==> b[e] == a[e]
  {
  }

  lemma RemoveFromCounts(t: Tree<Delegate>, d: Delegate)
    requires Ok(t, Ranks) && Elements(t)[d] <= 1
    ensures Elements(RemoveFrom(t, d).0)[d] == 0
    ensures RemoveFrom(t, d).1.Some? <==> Elements(t)[d] == 1
    ensures forall e :: e != d ==> Elements(RemoveFrom(t, d).0)[e] == Elements(t)[e]
  {
    if t.Node? {
      RemoveTimer(t, d);
      if d in Elements(t) { OneLess(Elements(t), Elements(Remove(t, d, Ranks).rest), d); }
    }
  }

  lemma DoomedEnds(s2: State, k: Kind, d: Delegate)
    requires Life(s2) && s2.mpc == DisarmSet(k, Some(d))
    ensures Life(UpdateSoonest(s2.(mpc := Idle), k, None, Some(d)))
    ensures Life(Finish(s2.(mpc := Idle), Some(d)))
  {
    UpdateSoonestKeepsLife(s2, s2.(mpc := Idle), k, None, Some(d));
    FinishKeepsLife(s2, Some(d));
    FinishIgnoresPc(s2, s2.(mpc := Idle), Some(d));
  }

  lemma ProcRemoveIs(s: State, k: Kind, d: Delegate, s3: State)
    requires s.mpc.Idle? && s.queue != [] && s.queue[0] == RemoveMsg(k, d) && d in s.delegates
    requires var (rest, returned) := RemoveFrom(s.cs.At(k).heap, d);
             && (s.delegates[d].left || returned.Some?)
             && s3 == Changed(s, k, rest, d, s.delegates[d].(removed := true, left := true), s.queue[1..], Idle)
    ensures ProcMsg(s) == UpdateSoonest(s3, k, None, Some(d)) || ProcMsg(s) == Finish(s3, Some(d))
  {
    var s1 := s.(queue := s.queue[1..]);
    var (rest, returned) := RemoveFrom(s.cs.At(k).heap, d);
    var s2 := SetHeap(s1, k, rest);
    assert s2.delegates == s.delegates;
    assert s3 == SetRecord(s2, d, s.delegates[d].(removed := true, left := s.delegates[d].left || returned.Some?));
  }

  lemma HeadIsKnown(s: State, k: Kind)
    requires HeapInv(s) && RecordsInv(s) && s.cs.At(k).heap.Node?
    ensures var d := s.cs.At(k).heap.data;
            && Known(s, k, d) && s.delegates[d].pushed && !s.delegates[d].left && !s.delegates[d].removed
            && Elements(s.cs.At(k).heap)[d] == 1 && RecordOk(s.delegates[d], d, s.mpc)
  {
    var d := s.cs.At(k).heap.data;
    assert d in Elements(s.cs.At(k).heap);
    assert Elements(s.cs.At(k).heap)[d] == Copies(s, k, d);
  }

  lemma PopCounts(t: Tree<Delegate>)
    requires t.Node?
    ensures Elements(Pop(t, Ranks))[t.data] == Elements(t)[t.data] - 1
    ensures forall e :: e != t.data ==> Elements(Pop(t, Ranks))[e] == Elements(t)[e]
  {
    PopElements(t, Ranks);
  }

  lemma PopHeadKeepsQueue(s: State, k: Kind, now: BootTime)
    requires QueueInv(s) && s.cs.At(k).heap.Node? && s.cs.At(k).heap.data in s.delegates
    ensures QueueInv(PopHead(s, k, now))
    ensures var d := s.cs.At(k).heap.data;
            var r := s.delegates[d].(left := true);
            PopHead(s, k, now) == Changed(s, k, Pop(s.cs.At(k).heap, Ranks), d, r, s.queue, Expiring(k, now, d))
  {
  }

  lemma PopHeadKeepsLife(s: State, k: Kind, now: BootTime)
    requires Life(s) && (s.mpc.Idle? || s.mpc.PopNext?) && s.cs.At(k).heap.Node?
    ensures Life(PopHead(s, k, now))
  {
    var t := s.cs.At(k).heap;
    var d := t.data;
    HeadIsKnown(s, k);
    var r := s.delegates[d].(left := true);
    var pc := Expiring(k, now, d);
    PopCounts(t);
    PopHeadKeepsQueue(s, k, now);
    ChangedKeepsHeap(s, k, Pop(t, Ranks), d, r, s.queue, pc);
    ChangedKeepsRecords(s, k, Pop(t, Ranks), d, r, s.queue, pc);
    ChangedKeepsLinksAndLocks(s, k, Pop(t, Ranks), d, r, s.queue, pc);
  }

  lemma ExpireMsgKeepsLife(s: State, k: Kind)
    requires Life(s) && s.mpc.Idle? && s.queue != [] && s.queue[0] == ExpireMsg(k)
    ensures Life(ProcMsg(s))
  {
    var s1 := s.(queue := s.queue[1..]);
    ExpireTakenKeepsLife(s);
    if s1.cs.At(k).heap.Node? {
      PopHeadKeepsLife(s1, k, s.now);
    } else {
      SameLifeKeeps(s1, s1.(mpc := DisarmSet(k, None)));
      UpdateSoonestKeepsLife(s1.(mpc := DisarmSet(k, None)), s1, k, None, None);
    }
  }

  lemma PopNextKeepsLife(s: State)
    requires Life(s) && s.mpc.PopNext?
    ensures Life(DoPopNext(s))
  {
    var k := s.mpc.k;
    var t := s.cs.At(k).heap;
    if t.Node? && !(RankTimes(s.mpc.now, t.data.time) > 0) {
      PopHeadKeepsLife(s, k, s.mpc.now);
    } else {
      SameLifeKeeps(s, s.(mpc := DisarmSet(k, None)));
      UpdateSoonestKeepsLife(s.(mpc := DisarmSet(k, None)), s, k, None, None);
    }
  }

  lemma RearmSetKeepsLife(s: State)
    requires Life(s) && (s.mpc.RearmSet? || s.mpc.DisarmSet?)
    ensures Life(if s.mpc.RearmSet? then DoRearmSet(s) else DoDisarmSet(s))
  {
    var s1 := SetArmed(s, s.mpc.k, if s.mpc.RearmSet? then Arm(s.mpc.top.time) else None);
    SameLifeKeeps(s, s1);
    FinishKeepsLife(s1, s.mpc.doomed);
  }

  lemma KernelKeepsLife(s: State, a: Step)
    requires Life(s) && Enabled(s, a)
    requires a.StepTick? || a.StepWake? || a.StepDisarm? || a.StepUnpoll? || a.StepRearmAdd? || a.StepDisarmDel?
    ensures Life(Do(s, a))
  {
    SameLifeKeeps(s, Do(s, a));
  }

  // ---------------------------------------------------------------- every run

  lemma StepKeepsLife(s: State, a: Step)
    requires Life(s) && HeapsOk(s) && Enabled(s, a)
    ensures Life(Do(s, a))
  {
    match a {
      case StepNew(c) => NewKeepsLife(s, c);
      case StepStart(c, k, ms, d) => StartKeepsLife(s, c, k, d);
      case StepStop(c) => StopKeepsLife(s, c);
      case StepBeginDelete(c) => BeginDeleteKeepsLife(s, c);
      case StepEndDelete(c) => EndDeleteKeepsLife(s, c);
      case StepMsg =>
        match s.queue[0] {
          case PushMsg(k, d) => PushedKeepsLife(s, k, d);
          case RemoveMsg(k, d) => RemovedKeepsLife(s, k, d);
          case ExpireMsg(k) => ExpireMsgKeepsLife(s, k);
        }
      case StepRearmSet => RearmSetKeepsLife(s);
      case StepDisarmSet => RearmSetKeepsLife(s);
      case StepExpire => ExpireKeepsLife(s);
      case StepPopNext => PopNextKeepsLife(s);
      case StepSend =>
        SendKeepsLife(s, s.ppc.k);
        SameLifeKeeps(SendMsg(s, ExpireMsg(s.ppc.k)), Do(s, a));
      case _ => KernelKeepsLife(s, a);
    }
  }

  lemma InitLife(s: State)
    requires Init(s)
    ensures Life(s)
  {
    forall k: Kind, d: Delegate ensures Elements(s.cs.At(k).heap)[d] == Copies(s, k, d) { }
  }

  lemma {:induction false} RunKeepsLife(s: State, run: seq<Step>, s': State)
    requires Life(s) && Inv(s) && Reaches(s, run, s')
    ensures Life(s')
    decreases |run|
  {
    if run != [] {
      StepKeepsLife(s, run[0]);
      StepKeepsInv(s, run[0]);
      RunKeepsLife(Do(s, run[0]), run[1..], s');
    }
  }

  /** What holds of a timer in every reachable state. It is deleted at most once, and exactly when
      its Remove has been handled: after its Push, after leaving the heap, and with no message, heap
      or thread that still refers to it. Once expired it has been stopped, so its Remove was sent. */
  lemma TimerLifecycle(s: State, run: seq<Step>, s': State, d: Delegate)
    requires Init(s) && Reaches(s, run, s') && d in s'.delegates
    ensures var r := s'.delegates[d];
            && r.frees <= 1
            && (r.frees == 1 <==> r.removed && Doomed(s'.mpc) != Some(d))
            && (r.removed ==> r.pushed && r.left && r.container.None?)
            && (r.container.None? ==> r.removed || RemoveMsg(r.kind, d) in s'.queue)
            && (r.left && !BeingExpired(s'.mpc, r.kind, d) ==> r.container.None?)
    ensures s'.delegates[d].frees == 1 ==>
              forall k: Kind :: d !in Elements(s'.cs.At(k).heap)
                && PushMsg(k, d) !in s'.queue && RemoveMsg(k, d) !in s'.queue && !BeingExpired(s'.mpc, k, d)
    ensures forall i, j ::
              0 <= i < |s'.queue| && 0 <= j < |s'.queue| && s'.queue[i] == PushMsg(s'.delegates[d].kind, d)
              && s'.queue[j] == RemoveMsg(s'.delegates[d].kind, d)
              ==> i < j
  {
    InitLife(s);
    RunKeepsLife(s, run, s');
    var r := s'.delegates[d];
    assert RecordOk(r, d, s'.mpc);
    forall k: Kind | r.frees == 1
      ensures d !in Elements(s'.cs.At(k).heap) && PushMsg(k, d) !in s'.queue && RemoveMsg(k, d) !in s'.queue
      ensures !BeingExpired(s'.mpc, k, d)
    {
      assert Elements(s'.cs.At(k).heap)[d] == Copies(s', k, d);
    }
  }

  /** A heap only ever holds timers that are started, pushed and not deleted, each once. */
  lemma HeapHoldsLiveTimers(s: State, run: seq<Step>, s': State, k: Kind, d: Delegate)
    requires Init(s) && Reaches(s, run, s') && d in Elements(s'.cs.At(k).heap)
    ensures Known(s', k, d) && s'.delegates[d].pushed && s'.delegates[d].frees == 0
    ensures Elements(s'.cs.At(k).heap)[d] == 1
  {
    InitLife(s);
    RunKeepsLife(s, run, s');
    assert Elements(s'.cs.At(k).heap)[d] == Copies(s', k, d);
    assert RecordOk(s'.delegates[d], d, s'.mpc);
  }

  /** Stop and fire exclude each other. A delegate points at a LocTimer exactly while it is that
      LocTimer's current timer; of all calls of stop(), at most one ever succeeds for one start; and
      the callback is made exactly when that one was made by the timer's own expiry. */
  lemma StopAndFireExclude(s: State, run: seq<Step>, s': State, d: Delegate)
    requires Init(s) && Reaches(s, run, s') && d in s'.delegates
    ensures var r := s'.delegates[d];
            && r.userStops + r.expireStops <= 1
            && r.callbacks == r.expireStops
            && (r.client.Some? <==> r.userStops + r.expireStops == 0)
    ensures forall c :: c in s'.timers ==> (s'.timers[c].current == Some(d) <==> s'.delegates[d].client == Some(c))
  {
    InitLife(s);
    RunKeepsLife(s, run, s');
    assert RecordOk(s'.delegates[d], d, s'.mpc);
    forall c | c in s'.timers ensures s'.timers[c].current == Some(d) <==> s'.delegates[d].client == Some(c) {
      if s'.timers[c].current == Some(d) { assert CurrentLinked(s', c, d); }
      if s'.delegates[d].client == Some(c) { assert IsCurrent(s', c, d); }
    }
  }

  /** The shared lock's count is one for its LocTimer, until that is gone, and one for each of its
      undeleted delegates; the lock is deleted once, when the count reaches zero. */
  lemma SharedLockCount(s: State, run: seq<Step>, s': State, c: ClientId)
    requires Init(s) && Reaches(s, run, s') && c in s'.timers
    ensures s'.timers[c].refs == (if s'.timers[c].phase.Gone? then 0 else 1) + |LiveOf(s', c)|
    ensures s'.timers[c].lockFrees == if s'.timers[c].refs == 0 then 1 else 0
  {
    InitLife(s);
    RunKeepsLife(s, run, s');
    assert LockOk(s'.timers[c], |LiveOf(s', c)|);
  }

  // ---------------------------------------------------------------- a due timer wakes the service

  ghost predicate TimesPositive(s: State) {
    Nanos(s.now) > 0 && forall d :: d in s.delegates ==> Nanos(d.time) > 0
  }

  /** Only start() makes delegates, and none is forgotten. */
  lemma StepKeepsDelegates(s: State, a: Step)
    requires Enabled(s, a) && !a.StepStart?
    ensures Do(s, a).delegates.Keys == s.delegates.Keys
  {
    if a.StepMsg? {
      match s.queue[0] {
        case PushMsg(k, d) =>
        case RemoveMsg(k, d) =>
        case ExpireMsg(k) =>
      }
    }
  }

  lemma StepKeepsTimesPositive(s: State, a: Step)
    requires TimesPositive(s) && Enabled(s, a)
    ensures TimesPositive(Do(s, a))
  {
    if a.StepStart? {
      FutureTimeIsExact(s.now, a.ms);
      assert Do(s, a).delegates.Keys <= s.delegates.Keys + {a.d};
    } else {
      StepKeepsDelegates(s, a);
      assert a.StepTick? || Do(s, a).now == s.now;
    }
  }

  lemma {:induction false} RunKeepsTimesPositive(s: State, run: seq<Step>, s': State)
    requires TimesPositive(s) && Reaches(s, run, s')
    ensures TimesPositive(s')
    decreases |run|
  {
    if run != [] {
      StepKeepsTimesPositive(s, run[0]);
      RunKeepsTimesPositive(Do(s, run[0]), run[1..], s');
    }
  }

  /** When the service is quiet, with no event, no Expire message and no message in hand, and the
      soonest timer is due, the fd is ready: epoll_wait can return it. */
  lemma DueTimerWakes(s: State, run: seq<Step>, s': State, k: Kind)
    requires Init(s) && Reaches(s, run, s')
    requires s'.cs.At(k).heap.Node? && Nanos(s'.cs.At(k).heap.data.time) <= Nanos(s'.now)
    requires s'.ppc.Waiting? && s'.mpc.Idle? && ExpireMsg(k) !in s'.queue
    ensures Enabled(s', StepWake([k]))
  {
    NoLostWakeup(s, run, s', k);
    RunKeepsTimesPositive(s, run, s');
    var d := s'.cs.At(k).heap.data;
    assert d in Elements(s'.cs.At(k).heap);
    HeapHoldsLiveTimers(s, run, s', k, d);
    assert ArmedForHead(s', k);
  }
}
