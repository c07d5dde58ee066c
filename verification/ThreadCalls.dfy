/**
  What the spawned thread of gps/utils/LocThread.cpp calls on its runnable, and what the owner's stop
  and bye do to it, over every interleaving of ThreadHandoff.
  */
module ThreadCalls {
  import opened Basics
  import opened ThreadHandoff

  datatype RunnableCall = Prerun | Ran(again: bool) | Postrun | Deleted

  /** The call a step makes, if any. */
  function CallBy(s: State, a: Step): seq<RunnableCall> {
    match a
    case ThreadRun(again) => [Ran(again)]
    case Thread =>
      if s.tpc.PreRun? then [Prerun] else if s.tpc.PostRun? then [Postrun]
      else if s.tpc.DeleteRunnable? then [Deleted] else []
    case _ => []
  }

  ghost function CallsMade(s: State, run: seq<Step>): seq<RunnableCall>
    decreases |run|
  {
    if run == [] || !Enabled(s, run[0]) then [] else CallBy(s, run[0]) + CallsMade(Do(s, run[0]), run[1..])
  }

  /** Whether the owner nulls mRunnable in a run. */
  ghost predicate OwnerNulls(s: State, run: seq<Step>)
    decreases |run|
  {
    run != [] && Enabled(s, run[0]) &&
    ((run[0].Owner? && s.opc.StopClear?) || OwnerNulls(Do(s, run[0]), run[1..]))
  }

  // ---------------------------------------------------------------- the shape of the calls

  /** prerun() and then run() as long as it asks to be called again. */
  predicate Looped(c: seq<RunnableCall>) {
    c != [] && c[0] == Prerun && forall i :: 1 <= i < |c| ==> c[i] == Ran(true)
  }

  predicate Followed(c: seq<RunnableCall>, last: RunnableCall) {
    c != [] && c[|c| - 1] == last
  }

  predicate Ended(c: seq<RunnableCall>) {
    Followed(c, Ran(false)) && Looped(c[..|c| - 1])
  }

  predicate Finished(c: seq<RunnableCall>) {
    Followed(c, Postrun) && Ended(c[..|c| - 1])
  }

  predicate Whole(c: seq<RunnableCall>) {
    c == [] || Looped(c) || Ended(c) || Finished(c)
  }

  predicate AndDeleted(c: seq<RunnableCall>, nulled: bool) {
    Followed(c, Deleted) && (Finished(c[..|c| - 1]) || (nulled && Whole(c[..|c| - 1])))
  }

  /** The calls made when the thread is where it is; `nulled` says the owner has nulled mRunnable. */
  predicate Shape(c: seq<RunnableCall>, tpc: ThreadPc, runnable: bool, nulled: bool) {
    && (nulled ==> !runnable)
    && match tpc
       case Absent => c == []
       case ReadRunnable => c == [] && (nulled || runnable)
       case PreTest => c == [] && (nulled || runnable)
       case PreRun => c == [] && (nulled || runnable)
       case LoopTest => if nulled then c == [] || Looped(c) else runnable && Looped(c)
       case RunCall => Looped(c) && (nulled || runnable)
       case PostTest => if nulled then c == [] || Looped(c) || Ended(c) else runnable && Ended(c)
       case PostRun => Ended(c) && (nulled || runnable)
       case Clear => Finished(c) || (nulled && Whole(c))
       case DeleteRunnable => Finished(c) || (nulled && Whole(c))
       case Ending(_) => AndDeleted(c, nulled) || (nulled && c == [])
       case Exited => AndDeleted(c, nulled) || (nulled && c == [])
  }

  predicate Nulled(s: State, a: Step, nulled: bool) {
    nulled || (a.Owner? && s.opc.StopClear?)
  }

  lemma Appended(c: seq<RunnableCall>, call: RunnableCall)
    ensures Followed(c + [call], call) && (c + [call])[..|c|] == c
  {
  }

  lemma FinishedAppended(c: seq<RunnableCall>)
    requires Ended(c)
    ensures Finished(c + [Postrun])
  {
    Appended(c, Postrun);
  }

  lemma DeletedAppended(c: seq<RunnableCall>, nulled: bool)
    requires Finished(c) || (nulled && Whole(c))
    ensures AndDeleted(c + [Deleted], nulled)
  {
    Appended(c, Deleted);
  }

  lemma RanAppended(c: seq<RunnableCall>, again: bool)
    requires Looped(c)
    ensures if again then Looped(c + [Ran(again)]) else Ended(c + [Ran(again)])
  {
    Appended(c, Ran(again));
  }

  /** The thread is past its end of the loop, and goes on. */
  lemma LateThreadKeepsShape(c: seq<RunnableCall>, s: State, nulled: bool)
    requires Shape(c, s.tpc, s.runnable, nulled) && Enabled(s, Thread)
    requires s.tpc.PostRun? || s.tpc.Clear? || s.tpc.DeleteRunnable? || s.tpc.Ending?
    ensures Shape(c + CallBy(s, Thread), ThreadStep(s).tpc, ThreadStep(s).runnable, nulled)
  {
    match s.tpc {
      case PostRun => FinishedAppended(c);
      case Clear => assert c + [] == c;
      case DeleteRunnable => DeletedAppended(c, nulled);
      case Ending(_) => assert c + [] == c;
    }
  }

  lemma EarlyThreadKeepsShape(c: seq<RunnableCall>, s: State, nulled: bool)
    requires Shape(c, s.tpc, s.runnable, nulled) && Enabled(s, Thread)
    requires s.tpc.ReadRunnable? || s.tpc.PreTest? || s.tpc.PreRun? || s.tpc.LoopTest? || s.tpc.PostTest?
    ensures Shape(c + CallBy(s, Thread), ThreadStep(s).tpc, ThreadStep(s).runnable, nulled)
  {
    assert c + [] == c;
    match s.tpc {
      case ReadRunnable =>
      case PreTest =>
      case PreRun => assert c + [Prerun] == [Prerun];
      case LoopTest =>
      case PostTest =>
    }
  }

  lemma NullKeepsShape(c: seq<RunnableCall>, tpc: ThreadPc, runnable: bool, nulled: bool)
    requires Shape(c, tpc, runnable, nulled)
    ensures Shape(c, tpc, false, true)
  {
  }

  /** The owner's step leaves mRunnable alone, or nulls it in stop(), or after a failed creation. */
  lemma OwnerKeepsRunnable(s: State)
    requires CreatedInv(s) && Enabled(s, Owner)
    ensures OwnerStep(s).tpc == s.tpc
    ensures if s.opc.StopClear? || s.opc.Failing? then !OwnerStep(s).runnable else OwnerStep(s).runnable == s.runnable
    ensures s.opc.Failing? ==> s.tpc.Absent?
  {
    match s.opc {
      case Refusing(_) =>
      case Leaving(_) =>
      case _ =>
    }
  }

  lemma StepKeepsShape(c: seq<RunnableCall>, s: State, nulled: bool, a: Step)
    requires Shape(c, s.tpc, s.runnable, nulled) && Inv(s) && Enabled(s, a)
    ensures Shape(c + CallBy(s, a), Do(s, a).tpc, Do(s, a).runnable, Nulled(s, a, nulled))
  {
    assert c + [] == c;
    match a {
      case Create(_) =>
      case Owner =>
        OwnerKeepsRunnable(s);
        NullKeepsShape(c, s.tpc, s.runnable, nulled);
      case CallStop =>
      case CallBye =>
      case Thread =>
        if s.tpc.PostRun? || s.tpc.Clear? || s.tpc.DeleteRunnable? || s.tpc.Ending? {
          LateThreadKeepsShape(c, s, nulled);
        } else {
          EarlyThreadKeepsShape(c, s, nulled);
        }
      case ThreadRun(again) => RanAppended(c, again);
    }
  }

  lemma {:induction false} RunsKeepShape(c: seq<RunnableCall>, s: State, nulled: bool, run: seq<Step>, s': State)
    requires Shape(c, s.tpc, s.runnable, nulled) && Inv(s) && Reaches(s, run, s')
    ensures Shape(c + CallsMade(s, run), s'.tpc, s'.runnable, nulled || OwnerNulls(s, run))
    decreases |run|
  {
    if run == [] {
      assert c + [] == c;
    } else {
      StepKeepsShape(c, s, nulled, run[0]);
      StepKeepsInv(s, run[0]);
      RunsKeepShape(c + CallBy(s, run[0]), Do(s, run[0]), Nulled(s, run[0], nulled), run[1..], s');
      Associates(c, CallBy(s, run[0]), CallsMade(Do(s, run[0]), run[1..]));
    }
  }

  // ---------------------------------------------------------------- what the runnable sees

  /** prerun() is the first call and run() never comes without it; after a run() that returned false
      there is no other; postrun() follows such a run() at once; the deletion is the last call. */
  ghost predicate InOrder(c: seq<RunnableCall>) {
    && (forall i :: 0 <= i < |c| ==> (c[i] == Prerun <==> i == 0 && c[0] != Deleted))
    && (forall i, j :: 0 <= i < j < |c| && c[i] == Ran(false) ==> !c[j].Ran?)
    && (forall i :: 0 <= i < |c| && c[i] == Postrun ==> i > 0 && c[i - 1] == Ran(false))
    && (forall i :: 0 <= i < |c| && c[i] == Deleted ==> i == |c| - 1)
  }

  lemma WholeInOrder(c: seq<RunnableCall>)
    requires Whole(c)
    ensures InOrder(c) && forall i :: 0 <= i < |c| ==> c[i] != Deleted
  {
    if Ended(c) {
      assert forall i :: 0 <= i < |c| - 1 ==> c[i] == c[..|c| - 1][i];
    } else if Finished(c) {
      var e := c[..|c| - 1];
      assert forall i :: 0 <= i < |e| - 1 ==> c[i] == e[..|e| - 1][i];
      assert c[|c| - 2] == e[|e| - 1];
    }
  }

  lemma DeletedInOrder(c: seq<RunnableCall>, nulled: bool)
    requires AndDeleted(c, nulled)
    ensures InOrder(c)
  {
    var w := c[..|c| - 1];
    WholeInOrder(w);
    assert forall i :: 0 <= i < |w| ==> c[i] == w[i];
  }

  lemma CallsHaveShape(s: State, run: seq<Step>, s': State)
    requires Init(s) && Reaches(s, run, s')
    ensures Shape(CallsMade(s, run), s'.tpc, s'.runnable, OwnerNulls(s, run))
  {
    RunsKeepShape([], s, false, run, s');
    assert [] + CallsMade(s, run) == CallsMade(s, run);
  }

  /** In every interleaving the runnable is called in order. */
  lemma CalledInOrder(s: State, run: seq<Step>, s': State)
    requires Init(s) && Reaches(s, run, s')
    ensures InOrder(CallsMade(s, run))
  {
    CallsHaveShape(s, run, s');
    var c := CallsMade(s, run);
    if AndDeleted(c, OwnerNulls(s, run)) {
      DeletedInOrder(c, OwnerNulls(s, run));
    } else {
      WholeInOrder(c);
    }
  }

  /** Unless the owner nulls mRunnable, run() is called again as long as it returns true, and a thread
      that has ended has made every call: prerun, runs, postrun, deletion. */
  lemma CalledToTheEnd(s: State, run: seq<Step>, s': State)
    requires Init(s) && Reaches(s, run, s') && s'.tpc.Exited? && !OwnerNulls(s, run)
    ensures var c := CallsMade(s, run);
            var n := |c|;
            && n >= 4 && c[0] == Prerun
            && (forall i :: 1 <= i < n - 3 ==> c[i] == Ran(true))
            && c[n - 3] == Ran(false) && c[n - 2] == Postrun && c[n - 1] == Deleted
  {
    CallsHaveShape(s, run, s');
    FullCalls(CallsMade(s, run));
  }

  lemma FullCalls(c: seq<RunnableCall>)
    requires AndDeleted(c, false)
    ensures var n := |c|;
            && n >= 4 && c[0] == Prerun
            && (forall i :: 1 <= i < n - 3 ==> c[i] == Ran(true))
            && c[n - 3] == Ran(false) && c[n - 2] == Postrun && c[n - 1] == Deleted
  {
    var f := c[..|c| - 1];
    var e := f[..|f| - 1];
    var l := e[..|e| - 1];
    assert l == c[..|c| - 3] && Looped(l);
    assert forall i :: 0 <= i < |l| ==> c[i] == l[i];
    assert c[|c| - 2] == f[|f| - 1] && c[|c| - 3] == e[|e| - 1];
  }

  // ---------------------------------------------------------------- stop, join and bye

  function Runs(c: seq<RunnableCall>): nat {
    if c == [] then 0 else One(c[0].Ran?) + Runs(c[1..])
  }

  lemma {:induction false} RunsJoin(a: seq<RunnableCall>, b: seq<RunnableCall>)
    ensures Runs(a + b) == Runs(a) + Runs(b)
  {
    if a == [] {
      assert a + b == b;
    } else {
      assert (a + b)[1..] == a[1..] + b;
      RunsJoin(a[1..], b);
    }
  }

  lemma StepAfterNull(s: State, a: Step)
    requires CreatedInv(s) && Enabled(s, a) && !s.runnable && s.opc != Creating
    ensures var s' := Do(s, a);
            !s'.runnable && s'.opc != Creating && Runs(CallBy(s, a)) + One(s'.tpc.RunCall?) <= One(s.tpc.RunCall?)
  {
    match a {
      case Owner =>
      case Thread =>
      case ThreadRun(again) => assert [Ran(again)][1..] == [];
      case _ =>
    }
  }

  /** Once mRunnable is null, run() is called at most once more, by a thread that had tested it already. */
  lemma {:induction false} AtMostOneRunAfterNull(s: State, run: seq<Step>, s': State)
    requires Inv(s) && Reaches(s, run, s') && !s.runnable && s.opc != Creating
    ensures Runs(CallsMade(s, run)) <= One(s.tpc.RunCall?)
    decreases |run|
  {
    if run != [] {
      StepAfterNull(s, run[0]);
      StepKeepsInv(s, run[0]);
      AtMostOneRunAfterNull(Do(s, run[0]), run[1..], s');
      RunsJoin(CallBy(s, run[0]), CallsMade(Do(s, run[0]), run[1..]));
    }
  }

  predicate InStop(pc: OwnerPc) {
    pc.JoinTest? || pc.JoinMark? || pc.Joining?
  }

  predicate BeforeJoin(pc: OwnerPc) {
    !pc.Leaving? && !pc.OwnerDone? && !pc.Joining? && !pc.Refusing?
  }

  /** `joined` says the LocThread was started joinable. */
  ghost predicate StopInv(s: State, joined: bool) {
    && (InStop(s.opc) ==> !s.runnable)
    && (joined ==>
          && (BeforeJoin(s.opc) && (s.created || s.opc.Creating?) ==> s.joinable)
          && (s.opc.Leaving? ==> s.tpc.Exited?) && (s.opc.OwnerDone? && s.started ==> s.tpc.Exited?))
    && (!joined ==> !s.joinable && !s.opc.Joining? && !s.opc.JoinMark?)
  }

  lemma OwnerKeepsStopInv(s: State, joined: bool)
    requires StopInv(s, joined) && Inv(s) && Enabled(s, Owner)
    ensures StopInv(OwnerStep(s), joined)
  {
    match s.opc {
      case Refusing(_) =>
      case Leaving(_) =>
      case _ =>
    }
  }

  lemma StepKeepsStopInv(s: State, a: Step, joined: bool)
    requires StopInv(s, joined) && Inv(s) && Enabled(s, a)
    ensures StopInv(Do(s, a), joined)
  {
    match a {
      case Owner => OwnerKeepsStopInv(s, joined);
      case Thread =>
        match s.tpc {
          case Ending(_) =>
          case _ =>
        }
      case _ =>
    }
  }

  lemma {:induction false} RunKeepsStopInv(s: State, run: seq<Step>, s': State, joined: bool)
    requires StopInv(s, joined) && Inv(s) && Reaches(s, run, s')
    ensures StopInv(s', joined)
    decreases |run|
  {
    if run != [] {
      StepKeepsStopInv(s, run[0], joined);
      StepKeepsInv(s, run[0]);
      RunKeepsStopInv(Do(s, run[0]), run[1..], s', joined);
    }
  }

  /** The owner nulls mRunnable before it joins; of a joinable thread it gives its reference up only
      when the thread has exited; a detached one it never waits for. */
  lemma StopNullsAndJoins(s: State, run: seq<Step>, s': State)
    requires Init(s) && Reaches(s, run, s')
    ensures InStop(s'.opc) ==> !s'.runnable
    ensures s.joinable && s'.started && (s'.opc.Leaving? || s'.opc.OwnerDone?) ==> s'.tpc.Exited?
    ensures !s.joinable ==> !s'.opc.Joining?
  {
    RunKeepsStopInv(s, run, s', s.joinable);
  }

  /** Whether the owner may yet null mRunnable of a detached thread: only inside stop(). */
  predicate LeavesAlone(s: State) {
    !s.joinable && !s.opc.StopTest? && !s.opc.StopClear? && !InStop(s.opc)
  }

  lemma StepLeavesAlone(s: State, a: Step)
    requires LeavesAlone(s) && Enabled(s, a) && a != CallStop
    ensures LeavesAlone(Do(s, a))
  {
    match a {
      case Owner =>
        match s.opc {
          case Refusing(_) =>
          case Leaving(_) =>
          case _ =>
        }
      case _ =>
    }
  }

  lemma {:induction false} NeverNulls(s: State, run: seq<Step>, s': State)
    requires LeavesAlone(s) && Reaches(s, run, s') && CallStop !in run
    ensures !OwnerNulls(s, run)
    decreases |run|
  {
    if run != [] {
      assert run[0] in run;
      StepLeavesAlone(s, run[0]);
      NeverNulls(Do(s, run[0]), run[1..], s');
    }
  }

  /** A detached thread that is not stopped goes on after its LocThread is deleted, to its end. */
  lemma ByeLeavesDetachedRunning(s: State, run: seq<Step>, s': State)
    requires Init(s) && !s.joinable && Reaches(s, run, s') && CallStop !in run && s'.tpc.Exited?
    ensures var c := CallsMade(s, run);
            |c| >= 4 && c[|c| - 3..] == [Ran(false), Postrun, Deleted]
  {
    NeverNulls(s, run, s');
    CalledToTheEnd(s, run, s');
  }
}
