/**
  The delayed video-encode hint of power/power-8994.c: a start spawns a thread that sleeps two
  seconds and then performs the hint, unless a stop or another start came meanwhile. Everything but
  the sleep runs under one mutex, so a step is one critical section.
  */
module VideoHint {
  import opened Basics

  /** Calls of perform_hint_action and undo_hint_action, in order. */
  datatype Action = Perform(id: int) | Undo(id: int)

  const DEFAULT_VIDEO_ENCODE_HINT_ID := 0x0A00
  const COUNTER_LIMIT := 65535

  /** The variables the mutex protects, and the actions taken so far. */
  datatype Vars = Vars(
    counter: nat,
    shouldEnable: bool,
    isEnabled: bool,
    newId: int,
    curId: int,
    log: seq<Action>)

  // ---------------------------------------------------------------- the critical sections

  function NextCounter(c: nat): nat {
    if c < COUNTER_LIMIT then c + 1 else 0
  }

  /** A start; `created` says whether pthread_create succeeded. */
  function StartHint(v: Vars, id: int, created: bool): Vars {
    v.(newId := id, counter := NextCounter(v.counter), shouldEnable := created)
  }

  function StopHint(v: Vars): Vars {
    if v.isEnabled then v.(shouldEnable := false, isEnabled := false, log := v.log + [Undo(v.curId)])
    else v.(shouldEnable := false)
  }

  predicate Performs(v: Vars, expected: nat) {
    v.shouldEnable && v.counter == expected
  }

  /** A sleeping thread, started when the counter was `expected`, wakes. */
  function WakeHint(v: Vars, expected: nat): Vars {
    if Performs(v, expected)
    then v.(curId := v.newId, isEnabled := true, shouldEnable := false, log := v.log + [Perform(v.newId)])
    else v
  }

  /** The module's globals and the functions that update them. */
  class VideoEncodeHint {
    var counter: nat
    var shouldEnable: bool
    var isEnabled: bool
    var newId: int
    var curId: int
    ghost var log: seq<Action>

    ghost function View(): Vars
      reads this
    {
      Vars(counter, shouldEnable, isEnabled, newId, curId, log)
    }

    constructor ()
      ensures View() == Vars(0, false, false, DEFAULT_VIDEO_ENCODE_HINT_ID, DEFAULT_VIDEO_ENCODE_HINT_ID, [])
    {
      counter, shouldEnable, isEnabled := 0, false, false;
      newId, curId := DEFAULT_VIDEO_ENCODE_HINT_ID, DEFAULT_VIDEO_ENCODE_HINT_ID;
      log := [];
    }

    /** process_video_encode_hint, once the metadata is parsed: `state` is 1 to start and 0 to stop. */
    method Process(state: int, id: int, interactive: bool, created: bool) returns (handled: bool)
      modifies this
      ensures handled <==> interactive && ((state == 1 && created) || state == 0)
      ensures View() == if interactive && state == 1 then StartHint(old(View()), id, created)
                        else if interactive && state == 0 then StopHint(old(View()))
                        else old(View())
    {
      if state == 1 {
        if interactive {
          newId := id;
          if counter < COUNTER_LIMIT {
            counter := counter + 1;
          } else {
            counter := 0;
          }
          shouldEnable := true;
          if !created {
            shouldEnable := false;
            return false;
          }
          return true;
        }
      } else if state == 0 {
        if interactive {
          shouldEnable := false;
          if isEnabled {
            log := log + [Undo(curId)];
            isEnabled := false;
          }
          return true;
        }
      }
      return false;
    }

    /** video_encode_hint_function after its sleep. */
    method Wake(expected: nat)
      modifies this
      ensures View() == WakeHint(old(View()), expected)
    {
      if shouldEnable && counter == expected {
        log := log + [Perform(newId)];
        curId := newId;
        isEnabled := true;
        shouldEnable := false;
      }
    }
  }

  // ---------------------------------------------------------------- any number of sleeping threads

  /** A thread asleep: what it expects the counter to be, and which start made it, for what hint. */
  datatype Sleeper = Sleeper(expected: nat, startNo: nat, id: int)

  /** `starts` numbers the starts so far; `stopped` says a stop has come since the last of them;
      `overlaps` counts hints performed while one was enabled already. */
  datatype State = State(v: Vars, sleepers: multiset<Sleeper>, starts: nat, stopped: bool, overlaps: nat)

  datatype Step = Start(id: int, created: bool) | Stop | Wake(t: Sleeper)

  ghost predicate Init(s: State) {
    && s.v == Vars(0, false, false, DEFAULT_VIDEO_ENCODE_HINT_ID, DEFAULT_VIDEO_ENCODE_HINT_ID, [])
    && s.sleepers == multiset{} && s.starts == 0 && s.stopped && s.overlaps == 0
  }

  ghost predicate Enabled(s: State, a: Step) {
    a.Wake? ==> a.t in s.sleepers
  }

  ghost function Do(s: State, a: Step): State
    requires Enabled(s, a)
  {
    match a
    case Start(id, created) =>
      var v := StartHint(s.v, id, created);
      var asleep := if created then multiset{Sleeper(v.counter, s.starts + 1, id)} else multiset{};
      State(v, s.sleepers + asleep, s.starts + 1, false, s.overlaps)
    case Stop => s.(v := StopHint(s.v), stopped := true)
    case Wake(t) =>
      s.(v := WakeHint(s.v, t.expected), sleepers := s.sleepers - multiset{t},
         overlaps := s.overlaps + if Performs(s.v, t.expected) && s.v.isEnabled then 1 else 0)
  }

  ghost predicate Reaches(s: State, run: seq<Step>, s': State)
    decreases |run|
  {
    if run == [] then s == s' else Enabled(s, run[0]) && Reaches(Do(s, run[0]), run[1..], s')
  }

  function Wrap(n: nat): nat {
    n % (COUNTER_LIMIT + 1)
  }

  ghost predicate Inv(s: State) {
    && s.v.counter == Wrap(s.starts)
    && (s.v.shouldEnable ==> !s.stopped && s.starts > 0)
    && (forall t :: t in s.sleepers ==>
          t.expected == Wrap(t.startNo) && 0 < t.startNo <= s.starts && (t.startNo == s.starts ==> t.id == s.v.newId))
  }

  lemma StepKeepsInv(s: State, a: Step)
    requires Inv(s) && Enabled(s, a)
    ensures Inv(Do(s, a))
  {
    match a {
      case Start(_, _) => CounterWraps(s.starts);
      case Stop =>
      case Wake(_) =>
    }
  }

  lemma CounterWraps(n: nat)
    ensures NextCounter(Wrap(n)) == Wrap(n + 1)
  {
  }

  lemma {:induction false} RunKeepsInv(s: State, run: seq<Step>, s': State)
    requires Inv(s) && Reaches(s, run, s')
    ensures Inv(s')
    decreases |run|
  {
    if run != [] {
      StepKeepsInv(s, run[0]);
      RunKeepsInv(Do(s, run[0]), run[1..], s');
    }
  }

  /** Exactly when a waking thread performs a hint: nothing has stopped or used up the latest start,
      and that start is the thread's own or a multiple of 65536 starts after it. */
  lemma WakePerformsIff(s: State, run: seq<Step>, s': State, t: Sleeper)
    requires Init(s) && Reaches(s, run, s') && t in s'.sleepers
    ensures Performs(s'.v, t.expected) <==> s'.v.shouldEnable && (s'.starts - t.startNo) % 65536 == 0
    ensures s'.v.shouldEnable ==> !s'.stopped
  {
    RunKeepsInv(s, run, s');
    SameCounterIff(s'.starts, t.startNo);
  }

  lemma SameCounterIff(a: nat, b: nat)
    requires b <= a
    ensures Wrap(a) == Wrap(b) <==> (a - b) % 65536 == 0
  {
  }

  /** With fewer than 65536 starts while it slept, a thread performs a hint only if its start is the
      latest and no stop came since, and then it is the hint of its own start. */
  lemma OnlyLatestPerforms(s: State, run: seq<Step>, s': State, t: Sleeper)
    requires Init(s) && Reaches(s, run, s') && t in s'.sleepers && s'.starts - t.startNo < 65536
    requires Performs(s'.v, t.expected)
    ensures t.startNo == s'.starts && !s'.stopped
    ensures WakeHint(s'.v, t.expected).log == s'.v.log + [Perform(t.id)]
  {
    RunKeepsInv(s, run, s');
    SameCounterIff(s'.starts, t.startNo);
  }

  // ---------------------------------------------------------------- what a start and a stop lead to

  ghost predicate AllWakes(steps: seq<Step>) {
    forall k :: 0 <= k < |steps| ==> steps[k].Wake?
  }

  /** One of the waking threads expects this counter. */
  ghost predicate SomeExpects(wakes: seq<Step>, counter: nat) {
    exists k :: 0 <= k < |wakes| && wakes[k].Wake? && wakes[k].t.expected == counter
  }

  lemma SomeExpectsNext(wakes: seq<Step>, counter: nat)
    requires wakes != [] && AllWakes(wakes)
    ensures SomeExpects(wakes, counter) <==> wakes[0].t.expected == counter || SomeExpects(wakes[1..], counter)
  {
    if SomeExpects(wakes[1..], counter) {
      var k :| 0 <= k < |wakes| - 1 && wakes[1..][k].t.expected == counter;
      assert wakes[k + 1].t.expected == counter;
    }
    if SomeExpects(wakes, counter) && wakes[0].t.expected != counter {
      var k :| 0 <= k < |wakes| && wakes[k].t.expected == counter;
      assert wakes[1..][k - 1].t.expected == counter;
    }
  }

  /** However many threads wake, nothing is performed while the flag is down. */
  lemma {:induction false} WakesDoNothing(s: State, wakes: seq<Step>, s': State)
    requires !s.v.shouldEnable && AllWakes(wakes) && Reaches(s, wakes, s')
    ensures s'.v == s.v
    decreases |wakes|
  {
    if wakes != [] {
      WakesDoNothing(Do(s, wakes[0]), wakes[1..], s');
    }
  }

  lemma {:induction false} FirstExpectedPerforms(s: State, wakes: seq<Step>, s': State)
    requires s.v.shouldEnable && AllWakes(wakes) && Reaches(s, wakes, s')
    ensures s'.v == if SomeExpects(wakes, s.v.counter)
                    then s.v.(log := s.v.log + [Perform(s.v.newId)], curId := s.v.newId, isEnabled := true,
                              shouldEnable := false)
                    else s.v
    decreases |wakes|
  {
    if wakes != [] {
      SomeExpectsNext(wakes, s.v.counter);
      var s1 := Do(s, wakes[0]);
      if wakes[0].t.expected == s.v.counter {
        WakesDoNothing(s1, wakes[1..], s');
      } else {
        FirstExpectedPerforms(s1, wakes[1..], s');
      }
    }
  }

  /** A start and whatever threads wake before the next call: its hint is performed, once, if and only if
      it got a thread and one that wakes expects its counter. Otherwise nothing is. */
  lemma StartThenWakes(s: State, id: int, created: bool, wakes: seq<Step>, s': State)
    requires AllWakes(wakes) && Reaches(Do(s, Start(id, created)), wakes, s')
    ensures var counter := Do(s, Start(id, created)).v.counter;
            if created && SomeExpects(wakes, counter)
            then s'.v == Vars(counter, false, true, id, id, s.v.log + [Perform(id)])
            else s'.v == Vars(counter, created, s.v.isEnabled, id, s.v.curId, s.v.log)
  {
    var s1 := Do(s, Start(id, created));
    if created {
      FirstExpectedPerforms(s1, wakes, s');
    } else {
      WakesDoNothing(s1, wakes, s');
    }
  }

  /** A stop and whatever threads wake before the next call: the enabled hint is undone, if any, and
      nothing is performed. */
  lemma StopThenWakes(s: State, wakes: seq<Step>, s': State)
    requires AllWakes(wakes) && Reaches(Do(s, Stop), wakes, s')
    ensures s'.v == Vars(s.v.counter, false, false, s.v.newId, s.v.curId,
                         if s.v.isEnabled then s.v.log + [Undo(s.v.curId)] else s.v.log)
  {
    WakesDoNothing(Do(s, Stop), wakes, s');
  }

  // ---------------------------------------------------------------- each undo is of the last perform

  /** Each undo directly follows a perform of the same hint. */
  ghost predicate UndoesLast(log: seq<Action>) {
    forall k :: 0 <= k < |log| && log[k].Undo? ==> k > 0 && log[k - 1] == Perform(log[k].id)
  }

  ghost predicate CurrentIsLast(v: Vars) {
    UndoesLast(v.log) && (v.isEnabled ==> v.log != [] && v.log[|v.log| - 1] == Perform(v.curId))
  }

  lemma {:induction false} RunKeepsCurrent(s: State, run: seq<Step>, s': State)
    requires CurrentIsLast(s.v) && Reaches(s, run, s')
    ensures CurrentIsLast(s'.v)
    decreases |run|
  {
    if run != [] {
      RunKeepsCurrent(Do(s, run[0]), run[1..], s');
    }
  }

  /** On every run, starts that overlap included, an undo is of the hint performed last, and nothing was
      undone since. */
  lemma EachUndoIsOfTheLastPerform(s: State, run: seq<Step>, s': State, k: nat)
    requires Init(s) && Reaches(s, run, s') && k < |s'.v.log| && s'.v.log[k].Undo?
    ensures k > 0 && s'.v.log[k - 1] == Perform(s'.v.log[k].id)
  {
    RunKeepsCurrent(s, run, s');
  }

  // ---------------------------------------------------------------- performs and undos balance

  function CountPerforms(log: seq<Action>): nat {
    if log == [] then 0 else CountPerforms(log[..|log| - 1]) + if log[|log| - 1].Perform? then 1 else 0
  }

  function CountUndos(log: seq<Action>): nat {
    if log == [] then 0 else CountUndos(log[..|log| - 1]) + if log[|log| - 1].Undo? then 1 else 0
  }

  ghost predicate Balanced(s: State) {
    CountPerforms(s.v.log) == CountUndos(s.v.log) + One(s.v.isEnabled) + s.overlaps
  }

  lemma StepKeepsBalanced(s: State, a: Step)
    requires Balanced(s) && Enabled(s, a)
    ensures Balanced(Do(s, a))
  {
    var log := Do(s, a).v.log;
    if log != s.v.log { assert log[..|log| - 1] == s.v.log; }
  }

  lemma {:induction false} RunKeepsBalanced(s: State, run: seq<Step>, s': State)
    requires Balanced(s) && Reaches(s, run, s')
    ensures Balanced(s')
    decreases |run|
  {
    if run != [] {
      StepKeepsBalanced(s, run[0]);
      RunKeepsBalanced(Do(s, run[0]), run[1..], s');
    }
  }

  /** On every run, hints performed and not undone are the enabled one, if any, and one for each
      hint that was performed over an enabled one. */
  lemma PerformsMinusUndos(s: State, run: seq<Step>, s': State)
    requires Init(s) && Reaches(s, run, s')
    ensures CountPerforms(s'.v.log) - CountUndos(s'.v.log) == One(s'.v.isEnabled) + s'.overlaps
  {
    RunKeepsBalanced(s, run, s');
  }

  // ---------------------------------------------------------------- which call sequences leak

  /** What the callers do in a run: everything but the wakes. */
  function Calls(run: seq<Step>): seq<Step> {
    if run == [] then [] else (if run[0].Wake? then [] else [run[0]]) + Calls(run[1..])
  }

  /** Between every two starts that got their thread there is a stop. `open` says such a start came
      before `calls` with no stop since. */
  predicate Separated(calls: seq<Step>, open: bool) {
    calls == [] ||
    match calls[0]
    case Start(_, created) => if created then !open && Separated(calls[1..], true) else Separated(calls[1..], open)
    case Stop => Separated(calls[1..], false)
    case Wake(_) => Separated(calls[1..], open)
  }

  /** `open` after a step. */
  function OpenAfter(a: Step, open: bool): bool {
    match a
    case Start(_, created) => created || open
    case Stop => false
    case Wake(_) => open
  }

  /** What is performed and not undone is the enabled hint, if any. */
  ghost predicate LeakFree(s: State) {
    CountPerforms(s.v.log) - CountUndos(s.v.log) == One(s.v.isEnabled)
  }

  /** Every undo takes back the perform just before it, for the same hint. */
  ghost predicate Bracketed(log: seq<Action>) {
    log == [] || (|log| == 1 && log[0].Perform?) ||
    (|log| >= 2 && Bracketed(log[..|log| - 1]) &&
      match log[|log| - 1]
      case Perform(_) => log[|log| - 2].Undo?
      case Undo(id) => log[|log| - 2] == Perform(id))
  }

  ghost predicate Orderly(s: State, open: bool) {
    && (!open ==> !s.v.isEnabled && !s.v.shouldEnable)
    && !(s.v.isEnabled && s.v.shouldEnable)
    && s.overlaps == 0
    && Bracketed(s.v.log)
    && (if s.v.isEnabled then s.v.log != [] && s.v.log[|s.v.log| - 1] == Perform(s.v.curId)
        else s.v.log == [] || s.v.log[|s.v.log| - 1].Undo?)
  }

  lemma StepKeepsOrderly(s: State, a: Step, open: bool)
    requires Orderly(s, open) && Enabled(s, a) && (a.Start? && a.created ==> !open)
    ensures Orderly(Do(s, a), OpenAfter(a, open))
  {
    match a {
      case Start(_, _) =>
      case Stop => if s.v.isEnabled { UndoBrackets(s.v.log, s.v.curId); }
      case Wake(t) => if Performs(s.v, t.expected) { PerformBrackets(s.v.log, s.v.newId); }
    }
  }

  lemma PerformBrackets(log: seq<Action>, id: int)
    requires Bracketed(log) && (log == [] || log[|log| - 1].Undo?)
    ensures Bracketed(log + [Perform(id)]) && (log + [Perform(id)])[|log|] == Perform(id)
  {
    assert (log + [Perform(id)])[..|log|] == log;
  }

  lemma UndoBrackets(log: seq<Action>, id: int)
    requires Bracketed(log) && log != [] && log[|log| - 1] == Perform(id)
    ensures Bracketed(log + [Undo(id)]) && (log + [Undo(id)])[|log|] == Undo(id)
  {
    assert (log + [Undo(id)])[..|log|] == log;
  }

  lemma {:induction false} RunKeepsOrderly(s: State, run: seq<Step>, s': State, open: bool)
    requires Orderly(s, open) && Reaches(s, run, s') && Separated(Calls(run), open)
    ensures exists open' :: Orderly(s', open')
    decreases |run|
  {
    if run != [] {
      var a, rest := run[0], run[1..];
      SeparatedNext(a, rest, open);
      StepKeepsOrderly(s, a, open);
      RunKeepsOrderly(Do(s, a), rest, s', OpenAfter(a, open));
    } else {
      assert Orderly(s', open);
    }
  }

  lemma SeparatedNext(a: Step, rest: seq<Step>, open: bool)
    ensures Separated(Calls([a] + rest), open) <==>
              (a.Start? && a.created ==> !open) && Separated(Calls(rest), OpenAfter(a, open))
  {
    assert ([a] + rest)[1..] == rest;
    if !a.Wake? {
      assert ([a] + Calls(rest))[1..] == Calls(rest);
    } else {
      assert [] + Calls(rest) == Calls(rest);
    }
  }

  /** If a stop separates every two starts that got their thread, then however the sleeping threads are
      scheduled no hint is leaked, and each undo is of the hint performed just before. */
  lemma SeparatedStartsNeverLeak(s: State, run: seq<Step>, s': State)
    requires Init(s) && Reaches(s, run, s') && Separated(Calls(run), false)
    ensures LeakFree(s') && Bracketed(s'.v.log)
  {
    RunKeepsOrderly(s, run, s', false);
    RunKeepsBalanced(s, run, s');
  }

  /** The schedule in which each thread wakes before the next call. */
  ghost function Eager(s: State, calls: seq<Step>): seq<Step>
    requires forall i :: 0 <= i < |calls| ==> !calls[i].Wake?
    decreases |calls|
  {
    if calls == [] then []
    else
      var a := calls[0];
      var s1 := Do(s, a);
      if a.Start? && a.created then
        var t := Sleeper(s1.v.counter, s1.starts, a.id);
        [a] + ([Wake(t)] + Eager(Do(s1, Wake(t)), calls[1..]))
      else [a] + Eager(s1, calls[1..])
  }

  /** After a start whose thread wakes at once the hint is enabled, over one that was enabled already
      or not. */
  lemma WakesAtOnce(s: State, id: int)
    ensures var s1 := Do(s, Start(id, true));
            var t := Sleeper(s1.v.counter, s1.starts, id);
            && Enabled(s1, Wake(t))
            && var s2 := Do(s1, Wake(t));
               s2.v.isEnabled && s2.overlaps == s.overlaps + One(s.v.isEnabled)
  {
  }

  /** The eager schedule makes exactly the given calls, and performs one hint over another for every
      start that lacks a stop before it. */
  lemma {:induction false} EagerLeaks(s: State, calls: seq<Step>) returns (s': State)
    requires forall i :: 0 <= i < |calls| ==> !calls[i].Wake?
    ensures Reaches(s, Eager(s, calls), s') && Calls(Eager(s, calls)) == calls
    ensures s'.overlaps >= s.overlaps
    ensures !Separated(calls, s.v.isEnabled) ==> s'.overlaps > s.overlaps
    decreases |calls|
  {
    if calls == [] {
      s' := s;
    } else {
      var a, rest := calls[0], calls[1..];
      var s1 := Do(s, a);
      if a.Start? && a.created {
        var t := Sleeper(s1.v.counter, s1.starts, a.id);
        WakesAtOnce(s, a.id);
        s' := EagerLeaks(Do(s1, Wake(t)), rest);
        PrependStart(s, a, t, Eager(Do(s1, Wake(t)), rest), s');
      } else {
        s' := EagerLeaks(s1, rest);
        Prepend(s, a, Eager(s1, rest), s');
      }
    }
  }

  lemma PrependStart(s: State, a: Step, t: Sleeper, run: seq<Step>, s': State)
    requires a.Start? && Enabled(Do(s, a), Wake(t)) && Reaches(Do(Do(s, a), Wake(t)), run, s')
    ensures Reaches(s, [a] + ([Wake(t)] + run), s') && Calls([a] + ([Wake(t)] + run)) == [a] + Calls(run)
  {
    Prepend(Do(s, a), Wake(t), run, s');
    Prepend(s, a, [Wake(t)] + run, s');
  }

  lemma Prepend(s: State, a: Step, run: seq<Step>, s': State)
    requires Enabled(s, a) && Reaches(Do(s, a), run, s')
    ensures Reaches(s, [a] + run, s')
    ensures Calls([a] + run) == (if a.Wake? then [] else [a]) + Calls(run)
    ensures a.Wake? ==> Calls([a] + run) == Calls(run)
  {
    assert ([a] + run)[1..] == run;
    assert [] + Calls(run) == Calls(run);
  }

  /** Every sequence of calls in which two starts that got their thread lack a stop between them has a
      schedule that leaks a hint. */
  lemma UnseparatedStartsLeak(s: State, calls: seq<Step>) returns (run: seq<Step>, s': State)
    requires Init(s) && !Separated(calls, false) && forall i :: 0 <= i < |calls| ==> !calls[i].Wake?
    ensures Reaches(s, run, s') && Calls(run) == calls && !LeakFree(s')
  {
    run := Eager(s, calls);
    s' := EagerLeaks(s, calls);
    PerformsMinusUndos(s, run, s');
  }

  /** The rule for callers, exactly: no schedule of the sleeping threads leaks a hint if and only if a
      stop separates every two starts that got their thread. */
  lemma LeakFreeIff(s: State, calls: seq<Step>)
    requires Init(s) && forall i :: 0 <= i < |calls| ==> !calls[i].Wake?
    ensures (forall run, s' :: Reaches(s, run, s') && Calls(run) == calls ==> LeakFree(s')) <==> Separated(calls, false)
  {
    if Separated(calls, false) {
      forall run, s' | Reaches(s, run, s') && Calls(run) == calls ensures LeakFree(s') {
        SeparatedStartsNeverLeak(s, run, s');
      }
    } else {
      var run, s' := UnseparatedStartsLeak(s, calls);
      assert Reaches(s, run, s') && Calls(run) == calls && !LeakFree(s');
    }
  }
}
