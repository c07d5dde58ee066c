/**
  The hand-off between the thread that owns a LocThread and the thread it spawns, which share one
  LocThreadDelegate by reference count (gps/utils/LocThread.cpp). A step is one access to the shared
  delegate, one call into the runnable or pthread, or the mutex-protected decrement of destroy().
  */
module ThreadHandoff {
  import opened Basics

  /** LocThreadDelegate::destroy: the unlocked test, the decrement under the mutex, the delete. */
  datatype Destroy = TestCount | Decrement | Delete

  datatype OwnerPc =
    | Creating               // the delegate is built for success; about to call pthread_create
    | SettingUp              // the thread exists; about to name and detach it
    | Failing                // creation failed; about to set the fields that say so
    | Checking               // create() is about to test isRunning()
    | Refusing(r: Destroy)   // create() gives its reference up; start() will return false
    | Holding                // start() returned true and mThread is set
    | ByeTest                // bye() is about to test mJoinable
    | StopTest               // stop() is about to test mRunnable
    | StopClear              // ... to null it
    | JoinTest               // ... to test mJoinable
    | JoinMark               // ... to clear mJoinable
    | Joining                // ... to join
    | Leaving(l: Destroy)    // stop() or bye() gives the owner's reference up
    | OwnerDone

  datatype ThreadPc =
    | Absent
    | ReadRunnable           // threadMain takes its copy of mRunnable
    | PreTest | PreRun
    | LoopTest | RunCall
    | PostTest | PostRun
    | Clear                  // about to null mRunnable
    | DeleteRunnable
    | Ending(e: Destroy)
    | Exited

  /** `got` is the spawned thread's copy of mRunnable being non-null. `started` is what start()
      returned. `deletes` and `runnableDeletes` count deletions by the library. `nulledFirst` records
      that the owner nulled mRunnable before the spawned thread took its copy. */
  datatype State = State(
    opc: OwnerPc,
    tpc: ThreadPc,
    runnable: bool,
    joinable: bool,
    refs: int,
    got: bool,
    started: bool,
    created: bool,
    nulledFirst: bool,
    deletes: nat,
    runnableDeletes: nat)

  /** The delegate as its constructor leaves it before creating the thread. */
  ghost predicate Init(s: State) {
    && s.opc == Creating && s.tpc == Absent && s.runnable && s.refs == 2
    && !s.got && !s.started && !s.created && !s.nulledFirst && s.deletes == 0 && s.runnableDeletes == 0
  }

  datatype Step =
    | Create(ok: bool)
    | Owner               // the owner's next step, where it has only one
    | CallStop
    | CallBye
    | Thread              // the spawned thread's next step
    | ThreadRun(again: bool)  // run() returns

  // ---------------------------------------------------------------- destroy

  /** Whether destroy() goes on after its step `d`, given the count. */
  predicate GoesOn(d: Destroy, refs: int) {
    match d
    case TestCount => refs > 0
    case Decrement => refs == 1
    case Delete => false
  }

  function Following(d: Destroy): Destroy {
    if d == TestCount then Decrement else Delete
  }

  function RefsAfter(d: Destroy, refs: int): int {
    if d == Decrement then refs - 1 else refs
  }

  function DeletesAfter(d: Destroy, deletes: nat): nat {
    if d == Delete then deletes + 1 else deletes
  }

  // ---------------------------------------------------------------- the steps

  predicate Enabled(s: State, a: Step) {
    match a
    case Create(_) => s.opc.Creating?
    case Owner => !s.opc.Creating? && !s.opc.Holding? && !s.opc.OwnerDone? && (s.opc.Joining? ==> s.tpc.Exited?)
    case CallStop => s.opc.Holding?
    case CallBye => s.opc.Holding?
    case Thread => !s.tpc.Absent? && !s.tpc.Exited? && !s.tpc.RunCall?
    case ThreadRun(_) => s.tpc.RunCall?
  }

  /** Whether the step reads or writes the delegate, its mutex included. */
  predicate TouchesDelegate(s: State, a: Step) {
    match a
    case Create(_) => true
    case Owner => !s.opc.Joining?
    case CallStop => false
    case CallBye => false
    case Thread => !s.tpc.PreRun? && !s.tpc.PostRun? && !s.tpc.DeleteRunnable?
    case ThreadRun(_) => false
  }

  /** Whether the step calls into the runnable or deletes it. */
  predicate TouchesRunnable(s: State, a: Step) {
    || a.ThreadRun?
    || (a.Thread? && (s.tpc.PreRun? || s.tpc.PostRun? || s.tpc.DeleteRunnable?))
  }

  function OwnerStep(s: State): State
    requires Enabled(s, Owner)
  {
    match s.opc
    case SettingUp => s.(opc := Checking)
    case Failing => s.(opc := Checking, runnable := false, joinable := false, refs := 1)
    case Checking => if s.runnable then s.(opc := Holding, started := true) else s.(opc := Refusing(TestCount))
    case Refusing(d) =>
      s.(refs := RefsAfter(d, s.refs), deletes := DeletesAfter(d, s.deletes),
         opc := if GoesOn(d, s.refs) then Refusing(Following(d)) else OwnerDone)
    case ByeTest => s.(opc := if s.joinable then StopTest else Leaving(TestCount))
    case StopTest => s.(opc := if s.runnable then StopClear else JoinTest)
    case StopClear => s.(opc := JoinTest, runnable := false, nulledFirst := s.nulledFirst || s.tpc.ReadRunnable?)
    case JoinTest => s.(opc := if s.joinable then JoinMark else Leaving(TestCount))
    case JoinMark => s.(opc := Joining, joinable := false)
    case Joining => s.(opc := Leaving(TestCount))
    case Leaving(d) =>
      s.(refs := RefsAfter(d, s.refs), deletes := DeletesAfter(d, s.deletes),
         opc := if GoesOn(d, s.refs) then Leaving(Following(d)) else OwnerDone)
    case _ => s
  }

  function ThreadStep(s: State): State
    requires Enabled(s, Thread)
  {
    match s.tpc
    case ReadRunnable => s.(got := s.runnable, tpc := if s.runnable then PreTest else Ending(TestCount))
    case PreTest => s.(tpc := if s.runnable then PreRun else LoopTest)
    case PreRun => s.(tpc := LoopTest)
    case LoopTest => s.(tpc := if s.runnable then RunCall else PostTest)
    case PostTest => s.(tpc := if s.runnable then PostRun else Clear)
    case PostRun => s.(tpc := Clear)
    case Clear => s.(tpc := DeleteRunnable, runnable := false)
    case DeleteRunnable => s.(tpc := Ending(TestCount), runnableDeletes := s.runnableDeletes + 1)
    case Ending(d) =>
      s.(refs := RefsAfter(d, s.refs), deletes := DeletesAfter(d, s.deletes),
         tpc := if GoesOn(d, s.refs) then Ending(Following(d)) else Exited)
    case _ => s
  }

  function Do(s: State, a: Step): State
    requires Enabled(s, a)
  {
    match a
    case Create(ok) => if ok then s.(opc := SettingUp, tpc := ReadRunnable, created := true) else s.(opc := Failing)
    case Owner => OwnerStep(s)
    case CallStop => s.(opc := StopTest)
    case CallBye => s.(opc := ByeTest)
    case Thread => ThreadStep(s)
    case ThreadRun(again) => s.(tpc := if again then LoopTest else PostTest)
  }

  ghost predicate Reaches(s: State, run: seq<Step>, s': State)
    decreases |run|
  {
    if run == [] then s == s' else Enabled(s, run[0]) && Reaches(Do(s, run[0]), run[1..], s')
  }

  // ---------------------------------------------------------------- the invariant

  predicate Counted(d: Destroy) {
    d.TestCount? || d.Decrement?
  }

  /** The owner has not yet given its reference up. */
  predicate OwnerHolds(opc: OwnerPc) {
    match opc
    case Refusing(d) => Counted(d)
    case Leaving(d) => Counted(d)
    case OwnerDone => false
    case _ => true
  }

  /** The spawned thread has not yet given its reference up; before it is created, and until a failed
      creation is recorded, the count already includes it. */
  predicate ThreadHolds(tpc: ThreadPc, opc: OwnerPc) {
    match tpc
    case Absent => opc.Creating? || opc.Failing?
    case Ending(d) => Counted(d)
    case Exited => false
    case _ => true
  }

  predicate OwnerDeleting(opc: OwnerPc) {
    opc == Refusing(Delete) || opc == Leaving(Delete)
  }

  predicate ThreadDeleting(tpc: ThreadPc) {
    tpc == Ending(Delete)
  }

  /** The count is of those who hold a reference; whoever takes it to zero, and nobody else, deletes. */
  predicate CountOk(refs: int, deletes: nat, ownerHolds: bool, threadHolds: bool,
                    ownerDeletes: bool, threadDeletes: bool)
  {
    && refs == (if ownerHolds && threadHolds then 2 else if ownerHolds || threadHolds then 1 else 0)
    && if refs > 0 then deletes == 0 && !ownerDeletes && !threadDeletes
       else if deletes == 0 then ownerDeletes != threadDeletes
       else deletes == 1 && !ownerDeletes && !threadDeletes
  }

  ghost predicate CountsInv(s: State) {
    CountOk(s.refs, s.deletes, OwnerHolds(s.opc), ThreadHolds(s.tpc, s.opc),
            OwnerDeleting(s.opc), ThreadDeleting(s.tpc))
  }

  /** A thread exists exactly if it was created. */
  ghost predicate CreatedInv(s: State) {
    && (s.tpc.Absent? <==> !s.created)
    && (s.opc.Creating? || s.opc.Failing? ==> !s.created)
    && (s.opc.SettingUp? ==> s.created)
  }

  ghost predicate RunnableInv(s: State) {
    // the runnable is deleted once, by the thread, if its copy was not null
    && s.runnableDeletes == One(s.got && (s.tpc.Ending? || s.tpc.Exited?))
    && (s.got ==> s.created && !s.tpc.ReadRunnable?)
    && (s.created && !s.got ==> s.tpc.ReadRunnable? || s.tpc.Ending? || s.tpc.Exited?)
    && (s.nulledFirst ==> s.created && !s.got && !s.runnable)
    && (s.created && !s.got && !s.tpc.ReadRunnable? ==> s.nulledFirst)
    && (s.tpc.ReadRunnable? && !s.nulledFirst ==> s.runnable)
    && (s.tpc.DeleteRunnable? || s.tpc.Ending? || s.tpc.Exited? ==> !s.runnable)
    && (s.opc.Creating? ==> s.runnable)
  }

  ghost predicate StartInv(s: State) {
    // start() returns true only for a thread that exists; false only if none does or it is on its way out
    && (s.started ==> s.created)
    && (s.nulledFirst ==> s.started)
    && (!s.created && !s.opc.Creating? && !s.opc.Failing? ==> !s.runnable)
    && (s.opc.Refusing? ==> !s.started)
    && (s.opc.Refusing? && s.created ==> s.got && !s.runnable)
    && (s.opc.OwnerDone? && !s.started && s.created ==> s.got && !s.runnable)
    && (PastStart(s.opc) ==> s.started)
    && (BeforeStart(s.opc) ==> !s.started)
  }

  ghost predicate Inv(s: State) {
    CountsInv(s) && CreatedInv(s) && RunnableInv(s) && StartInv(s)
  }

  predicate BeforeStart(pc: OwnerPc) {
    pc.Creating? || pc.SettingUp? || pc.Failing? || pc.Checking?
  }

  /** start() has returned true and the owner has not finished with the delegate. */
  predicate PastStart(pc: OwnerPc) {
    !BeforeStart(pc) && !pc.Refusing? && !pc.OwnerDone?
  }

  /** A party that gives its reference up, and deletes the delegate if it was the last. */
  lemma GivingUpKeepsCount(refs: int, deletes: nat, other: bool, otherDeletes: bool)
    ensures CountOk(refs, deletes, true, other, false, otherDeletes) ==>
              CountOk(refs - 1, deletes, false, other, refs == 1, otherDeletes)
    ensures CountOk(refs, deletes, other, true, otherDeletes, false) ==>
              CountOk(refs - 1, deletes, other, false, otherDeletes, refs == 1)
    ensures CountOk(refs, deletes, false, other, true, otherDeletes) ==>
              CountOk(refs, deletes + 1, false, other, false, otherDeletes)
    ensures CountOk(refs, deletes, other, false, otherDeletes, true) ==>
              CountOk(refs, deletes + 1, other, false, otherDeletes, false)
  {
  }

  /** An owner's step outside destroy() keeps its reference. */
  lemma OwnerKeepsReference(s: State)
    requires Enabled(s, Owner) && !s.opc.Refusing? && !s.opc.Leaving? && CreatedInv(s)
    ensures var s' := OwnerStep(s);
            && s'.deletes == s.deletes && s'.tpc == s.tpc
            && OwnerHolds(s.opc) && !OwnerDeleting(s.opc) && OwnerHolds(s'.opc) && !OwnerDeleting(s'.opc)
            && (if s.opc.Failing? then s'.refs == 1 && ThreadHolds(s.tpc, s.opc) && !ThreadHolds(s'.tpc, s'.opc)
                else s'.refs == s.refs && ThreadHolds(s'.tpc, s'.opc) == ThreadHolds(s.tpc, s.opc))
  {
    match s.opc {
      case Failing =>
      case Checking =>
      case ByeTest =>
      case StopTest =>
      case JoinTest =>
      case _ =>
    }
  }

  /** destroy() on the owner's side. */
  lemma OwnerDestroys(s: State, d: Destroy)
    requires Enabled(s, Owner) && (s.opc == Refusing(d) || s.opc == Leaving(d))
    ensures var s' := OwnerStep(s);
            && s'.tpc == s.tpc && ThreadHolds(s'.tpc, s'.opc) == ThreadHolds(s.tpc, s.opc)
            && OwnerHolds(s.opc) == Counted(d) && OwnerDeleting(s.opc) == d.Delete?
            && s'.refs == (if d.Decrement? then s.refs - 1 else s.refs)
            && s'.deletes == (if d.Delete? then s.deletes + 1 else s.deletes)
            && OwnerHolds(s'.opc) == (d.TestCount? && s.refs > 0)
            && OwnerDeleting(s'.opc) == (d.Decrement? && s.refs == 1)
  {
  }

  lemma OwnerKeepsCounts(s: State)
    requires CountsInv(s) && CreatedInv(s) && Enabled(s, Owner)
    ensures CountsInv(OwnerStep(s))
  {
    match s.opc {
      case Refusing(d) => OwnerDestroys(s, d);
      case Leaving(d) => OwnerDestroys(s, d);
      case _ => OwnerKeepsReference(s);
    }
    GivingUpKeepsCount(s.refs, s.deletes, ThreadHolds(s.tpc, s.opc), ThreadDeleting(s.tpc));
  }

  lemma OwnerKeepsRest(s: State)
    requires Inv(s) && Enabled(s, Owner)
    ensures CreatedInv(OwnerStep(s)) && RunnableInv(OwnerStep(s)) && StartInv(OwnerStep(s))
  {
    match s.opc {
      case Refusing(d) =>
      case Leaving(d) =>
      case _ =>
    }
  }

  lemma ThreadKeepsReference(s: State)
    requires Enabled(s, Thread) && !s.tpc.Ending?
    ensures var s' := ThreadStep(s);
            && s'.refs == s.refs && s'.deletes == s.deletes && s'.opc == s.opc
            && ThreadHolds(s.tpc, s.opc) && !ThreadDeleting(s.tpc)
            && ThreadHolds(s'.tpc, s'.opc) && !ThreadDeleting(s'.tpc)
  {
    match s.tpc {
      case ReadRunnable =>
      case PreTest =>
      case LoopTest =>
      case PostTest =>
      case _ =>
    }
  }

  lemma ThreadDestroys(s: State, d: Destroy)
    requires s.tpc == Ending(d)
    ensures var s' := ThreadStep(s);
            && s'.opc == s.opc
            && ThreadHolds(s.tpc, s.opc) == Counted(d) && ThreadDeleting(s.tpc) == d.Delete?
            && s'.refs == (if d.Decrement? then s.refs - 1 else s.refs)
            && s'.deletes == (if d.Delete? then s.deletes + 1 else s.deletes)
            && ThreadHolds(s'.tpc, s'.opc) == (d.TestCount? && s.refs > 0)
            && ThreadDeleting(s'.tpc) == (d.Decrement? && s.refs == 1)
  {
  }

  lemma ThreadKeepsCounts(s: State)
    requires CountsInv(s) && Enabled(s, Thread)
    ensures CountsInv(ThreadStep(s))
  {
    match s.tpc {
      case Ending(d) => ThreadDestroys(s, d);
      case _ => ThreadKeepsReference(s);
    }
    GivingUpKeepsCount(s.refs, s.deletes, OwnerHolds(s.opc), OwnerDeleting(s.opc));
  }

  lemma ThreadKeepsRest(s: State)
    requires Inv(s) && Enabled(s, Thread)
    ensures CreatedInv(ThreadStep(s)) && RunnableInv(ThreadStep(s)) && StartInv(ThreadStep(s))
  {
    match s.tpc {
      case Ending(d) =>
      case _ =>
    }
  }

  lemma StepKeepsInv(s: State, a: Step)
    requires Inv(s) && Enabled(s, a)
    ensures Inv(Do(s, a))
  {
    match a {
      case Owner => OwnerKeepsCounts(s); OwnerKeepsRest(s);
      case Thread => ThreadKeepsCounts(s); ThreadKeepsRest(s);
      case _ =>
    }
  }

  lemma {:induction false} RunKeepsInv(s: State, run: seq<Step>, s': State)
    requires Inv(s) && Reaches(s, run, s')
    ensures Inv(s')
    decreases |run|
  {
    if run != [] {
      StepKeepsInv(s, run[0]);
      RunKeepsInv(Do(s, run[0]), run[1..], s');
    }
  }

  predicate BothDone(s: State) {
    s.opc.OwnerDone? && (s.tpc.Absent? || s.tpc.Exited?)
  }

  // ---------------------------------------------------------------- what it gives

  /** In every interleaving the delegate and the runnable are deleted at most once, and no step that
      can be taken next touches either after its deletion. */
  lemma NoUseAfterDelete(s: State, run: seq<Step>, s': State, a: Step)
    requires Init(s) && Reaches(s, run, s') && Enabled(s', a)
    ensures s'.deletes <= 1 && s'.runnableDeletes <= 1
    ensures TouchesDelegate(s', a) ==> s'.deletes == 0
    ensures TouchesRunnable(s', a) ==> s'.runnableDeletes == 0
  {
    RunKeepsInv(s, run, s');
    TouchesBeforeDelete(s', a);
  }

  lemma TouchesBeforeDelete(s: State, a: Step)
    requires CountsInv(s) && Enabled(s, a)
    ensures s.deletes <= 1 && (TouchesDelegate(s, a) ==> s.deletes == 0)
  {
    if TouchesDelegate(s, a) {
      assert OwnerHolds(s.opc) || OwnerDeleting(s.opc) || ThreadHolds(s.tpc, s.opc) || ThreadDeleting(s.tpc);
    }
  }

  /** Once both sides are finished the delegate has been deleted exactly once; and the runnable has
      been, exactly if a thread was made and took its copy before the owner's stop nulled it. */
  lemma DeletedExactlyOnce(s: State, run: seq<Step>, s': State)
    requires Init(s) && Reaches(s, run, s') && BothDone(s')
    ensures s'.deletes == 1 && s'.refs == 0
    ensures s'.runnableDeletes == 1 <==> s'.created && !s'.nulledFirst
  {
    RunKeepsInv(s, run, s');
    DoneMeans(s');
  }

  lemma DoneMeans(s: State)
    requires Inv(s) && BothDone(s)
    ensures s.deletes == 1 && s.refs == 0 && (s.runnableDeletes == 1 <==> s.created && !s.nulledFirst)
    ensures !s.started ==> s.runnableDeletes == One(s.created)
  {
    assert !OwnerHolds(s.opc) && !ThreadHolds(s.tpc, s.opc);
  }

  /** A caller is told to delete the runnable itself if start() returns false. That is right exactly
      when no thread was created: a thread that finishes before create() looks makes start() return
      false too, and the library has then deleted the runnable. */
  lemma RefusedStartLeavesRunnableIff(s: State, run: seq<Step>, s': State)
    requires Init(s) && Reaches(s, run, s') && BothDone(s') && !s'.started
    ensures s'.runnableDeletes == 0 <==> !s'.created
  {
    RunKeepsInv(s, run, s');
    DoneMeans(s');
  }

  /** Until both are finished somebody can move: the join never blocks for ever. */
  lemma NoDeadlock(s: State, run: seq<Step>, s': State)
    requires Init(s) && Reaches(s, run, s') && !BothDone(s')
    ensures exists a :: Enabled(s', a)
  {
    RunKeepsInv(s, run, s');
    SomeoneMoves(s');
  }

  lemma SomeoneMoves(s: State)
    requires !BothDone(s) && CreatedInv(s) && StartInv(s)
    ensures exists a :: Enabled(s, a)
  {
    if !s.tpc.Absent? && !s.tpc.Exited? {
      assert Enabled(s, if s.tpc.RunCall? then ThreadRun(true) else Thread);
    } else if s.opc.Creating? {
      assert Enabled(s, Create(true));
    } else if s.opc.Holding? {
      assert Enabled(s, CallStop);
    } else {
      assert s.opc.Joining? ==> s.created;
      assert Enabled(s, Owner);
    }
  }

  lemma {:induction false} Extend(s0: State, run: seq<Step>, s: State, a: Step)
    requires Reaches(s0, run, s) && Enabled(s, a)
    ensures Reaches(s0, run + [a], Do(s, a))
    decreases |run|
  {
    if run == [] {
      assert [a][1..] == [];
    } else {
      Extend(Do(s0, run[0]), run[1..], s, a);
      assert (run + [a])[1..] == run[1..] + [a];
    }
  }

  lemma Go(s0: State, run: seq<Step>, s: State, a: Step) returns (run': seq<Step>, s': State)
    requires Reaches(s0, run, s) && Enabled(s, a)
    ensures Reaches(s0, run', s') && s' == Do(s, a)
  {
    Extend(s0, run, s, a);
    run', s' := run + [a], Do(s, a);
  }

  /** The spawned thread, with nothing to wait for, up to the end of its loop. */
  lemma ThreadRunsOnce(joinable: bool) returns (s0: State, run: seq<Step>, s: State)
    ensures Init(s0) && s0.joinable == joinable && Reaches(s0, run, s)
    ensures s == State(SettingUp, PostTest, true, joinable, 2, true, false, true, false, 0, 0)
  {
    s0 := State(Creating, Absent, true, joinable, 2, false, false, false, false, 0, 0);
    run, s := [], s0;
    run, s := Go(s0, run, s, Create(true));
    run, s := Go(s0, run, s, Thread);            // the copy is taken
    run, s := Go(s0, run, s, Thread);
    run, s := Go(s0, run, s, Thread);            // prerun()
    run, s := Go(s0, run, s, Thread);
    run, s := Go(s0, run, s, ThreadRun(false));  // run() asks not to be called again
  }

  /** ... to the deletion of the runnable ... */
  lemma ThreadDeletesRunnable(joinable: bool) returns (s0: State, run: seq<Step>, s: State)
    ensures Init(s0) && s0.joinable == joinable && Reaches(s0, run, s)
    ensures s == State(SettingUp, Ending(TestCount), false, joinable, 2, true, false, true, false, 0, 1)
  {
    s0, run, s := ThreadRunsOnce(joinable);
    run, s := Go(s0, run, s, Thread);
    run, s := Go(s0, run, s, Thread);            // postrun()
    run, s := Go(s0, run, s, Thread);
    run, s := Go(s0, run, s, Thread);
  }

  /** ... and to its end, before create() looks. */
  lemma ThreadRunsToEnd(joinable: bool) returns (s0: State, run: seq<Step>, s: State)
    ensures Init(s0) && s0.joinable == joinable && Reaches(s0, run, s)
    ensures s == State(SettingUp, Exited, false, joinable, 1, true, false, true, false, 0, 1)
  {
    s0, run, s := ThreadDeletesRunnable(joinable);
    run, s := Go(s0, run, s, Thread);
    run, s := Go(s0, run, s, Thread);            // the reference is given up
  }

  /** A run in which start() returns false although the thread ran and deleted the runnable. */
  lemma EarlyFinishRefusesStart(joinable: bool) returns (s0: State, run: seq<Step>, s: State)
    ensures Init(s0) && s0.joinable == joinable && Reaches(s0, run, s) && BothDone(s)
    ensures !s.started && s.created && s.runnableDeletes == 1
  {
    s0, run, s := ThreadRunsToEnd(joinable);
    run, s := Go(s0, run, s, Owner);
    run, s := Go(s0, run, s, Owner);             // create() sees no runnable
    run, s := Go(s0, run, s, Owner);
    run, s := Go(s0, run, s, Owner);
    run, s := Go(s0, run, s, Owner);
  }
}
