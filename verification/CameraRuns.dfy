/**
  One camera id of camera/libcameraservice/CameraService.cpp under every interleaving of the HAL
  thread, any number of clients and torch calls. Each step is one critical section. A client's
  updateStatus looks the state object up first and changes it later, so a call may still be holding
  an object that the HAL thread has unregistered meanwhile.
  */
module CameraRuns {
  import opened Basics
  import opened CameraService

  /** An updateStatus that has found its state object. */
  datatype Call = Call(target: nat, status: Status, rejected: seq<Status>)

  /** Where the HAL thread is in onDeviceStatusChanged. */
  datatype HalPc = Idle | AddingState | AddingTorch | Updating(status: Status) | Announcing | RemovingTorch | Erasing

  /** `objects` are the state objects made so far, `current` the registered one. `heard` is what a
      listener that is not skipped was told, `told` the part of it that came from each object. */
  datatype Camera = Camera(
    objects: seq<Status>,
    current: Option<nat>,
    hal: HalPc,
    active: set<nat>,
    calls: seq<Call>,
    heard: seq<Status>,
    told: seq<seq<Status>>,
    torch: Torch)

  datatype Step =
    | HalEvent(next: Status)
    | HalAddState(known: bool)
    | HalAddTorch(flash: bool)
    | HalUpdate(answered: bool)
    | HalRemoveTorch(flash: bool)
    | HalErase
    | Start(client: nat)
    | Finish(client: nat)
    | Complete(index: nat, answered: bool)
    | TorchEvent(torch: TorchStatus)
    | TorchRequest(uid: int)

  predicate WellFormed(s: Camera) {
    && |s.told| == |s.objects|
    && (s.current.Some? ==> s.current.value < |s.objects|)
    && (forall i :: 0 <= i < |s.calls| ==> s.calls[i].target < |s.objects|)
    && (s.hal.AddingState? ==> s.current.None?)
    && (s.hal in {Announcing, RemovingTorch, Erasing} ==> s.current.Some?)
  }

  const INIT := Camera([], None, Idle, {}, [], [], [], Torch(None, None, {}))

  function Current(s: Camera): Status
    requires WellFormed(s)
  {
    if s.current.Some? then s.objects[s.current.value] else NotPresent
  }

  function LastHeard(heard: seq<Status>): Status {
    if heard == [] then NotPresent else heard[|heard| - 1]
  }

  // ---------------------------------------------------------------- the steps

  /** CameraState::updateStatus on one object, with its callback. */
  function Perform(s: Camera, o: nat, next: Status, rejected: seq<Status>, answered: bool): Camera
    requires o < |s.objects| == |s.told|
  {
    if answered && Accepts(s.objects[o], next, rejected)
    then s.(objects := s.objects[o := next], heard := s.heard + [next], told := s.told[o := s.told[o] + [next]],
            torch := TorchFollows(s.torch, next))
    else s
  }

  function AfterEvent(s: Camera, next: Status): HalPc
    requires WellFormed(s)
  {
    if s.current.None? then if next == Present then AddingState else Idle
    else if Current(s) == next then Idle
    else if next == NotPresent then Announcing else Updating(next)
  }

  predicate Enabled(s: Camera, step: Step)
    requires WellFormed(s)
  {
    match step
    case HalEvent(next) => s.hal == Idle && next in {NotPresent, Present, Enumerating}
    case HalAddState(_) => s.hal == AddingState
    case HalAddTorch(_) => s.hal == AddingTorch
    case HalUpdate(_) => s.hal.Updating? || s.hal == Announcing
    case HalRemoveTorch(_) => s.hal == RemovingTorch
    case HalErase => s.hal == Erasing
    case Complete(i, _) => i < |s.calls|
    case Start(_) => true
    case Finish(_) => true
    case TorchEvent(_) => true
    case TorchRequest(_) => true
  }

  function Calling(s: Camera, status: Status, rejected: seq<Status>): Camera {
    if s.current.None? then s else s.(calls := s.calls + [Call(s.current.value, status, rejected)])
  }

  function Do(s: Camera, step: Step): (s': Camera)
    requires WellFormed(s) && Enabled(s, step)
    ensures WellFormed(s')
  {
    match step
    case HalEvent(next) => s.(hal := AfterEvent(s, next))
    case HalAddState(known) =>
      if known then s.(objects := s.objects + [NotPresent], told := s.told + [[]], current := Some(|s.objects|),
                     hal := AddingTorch)
      else s.(hal := Updating(Present))
    case HalAddTorch(flash) =>
      s.(hal := Updating(Present), torch := if flash then s.torch.(status := Some(TorchOff)) else s.torch)
    case HalUpdate(answered) =>
      var next := if s.hal.Updating? then s.hal.status else NotPresent;
      var moved := s.(hal := if s.hal.Updating? then Idle else RemovingTorch);
      if s.current.None? then moved else Perform(moved, s.current.value, next, [], answered)
    case HalRemoveTorch(flash) =>
      s.(hal := Erasing, torch := if flash then s.torch.(status := None) else s.torch)
    case HalErase => s.(hal := Idle, current := None)
    case Start(c) => Calling(s.(active := s.active + {c}), NotAvailable, [])
    case Finish(c) => if c in s.active then Calling(s.(active := s.active - {c}), Present, REJECTED) else s
    case Complete(i, answered) =>
      var call := s.calls[i];
      Perform(s.(calls := s.calls[..i] + s.calls[i + 1..]), call.target, call.status, call.rejected, answered)
    case TorchEvent(status) => s.(torch := TorchChanged(s.torch, status))
    case TorchRequest(uid) => s.(torch := TorchRequested(s.torch, uid))
  }

  /** `run` leads from `s` to `t`. */
  ghost predicate Leads(s: Camera, run: seq<Step>, t: Camera)
    requires WellFormed(s)
    decreases |run|
  {
    if run == [] then s == t else Enabled(s, run[0]) && Leads(Do(s, run[0]), run[1..], t)
  }

  // ---------------------------------------------------------------- one call or event by itself

  /** The torch's entry after a change to `status` was taken: in use without one, free with it off. */
  predicate TorchFollowed(before: Torch, after: Torch, status: Status, taken: bool) {
    after.status == if taken && before.status.Some? then Some(TorchUnder(status, before.status.value))
                    else before.status
  }

  /** A call that completes leaves the calls in flight. Its object changes, and callbacks and torch with
      it, if and only if supportsCameraApi answered, the status is another, the old one is not rejected,
      and absence ends in presence or enumeration. */
  lemma CompleteChanges(s: Camera, i: nat, answered: bool)
    requires WellFormed(s) && i < |s.calls|
    ensures var Call(o, next, rejected) := s.calls[i];
            var before, s' := s.objects[o], Do(s, Complete(i, answered));
            var taken := answered && before != next && before !in rejected
                         && (before == NotPresent ==> next in {Present, Enumerating});
            && s'.objects == (if taken then s.objects[o := next] else s.objects)
            && s'.heard == (if taken then s.heard + [next] else s.heard)
            && s'.told == (if taken then s.told[o := s.told[o] + [next]] else s.told)
            && TorchFollowed(s.torch, s'.torch, next, taken)
            && s'.calls == s.calls[..i] + s.calls[i + 1..]
            && s'.current == s.current && s'.hal == s.hal && s'.active == s.active
  {
  }

  /** A client that opens the camera and is answered makes it unavailable, unless it is absent or
      unavailable already; one that opens no camera of this id changes nothing but its own state. */
  lemma OpensAlone(s: Camera, c: nat)
    requires WellFormed(s)
    ensures var s1 := Do(s, Start(c));
            && c in s1.active
            && if s.current.None? then s1 == s.(active := s1.active)
               else
                 var s2, o := Do(s1, Complete(|s.calls|, true)), s.current.value;
                 var taken := s.objects[o] !in {NotPresent, NotAvailable};
                 && s2.objects == (if taken then s.objects[o := NotAvailable] else s.objects)
                 && s2.heard == (if taken then s.heard + [NotAvailable] else s.heard)
                 && TorchFollowed(s.torch, s2.torch, NotAvailable, taken)
                 && s2.calls == s.calls && s2.active == s1.active && s2.hal == s.hal && s2.current == s.current
  {
    if s.current.Some? {
      AddedLast(s.calls, Call(s.current.value, NotAvailable, []));
      CompleteChanges(Do(s, Start(c)), |s.calls|, true);
    }
  }

  /** A client that finishes and is answered makes it present again, unless it is absent, present or
      enumerating; one that has not opened the camera changes nothing. */
  lemma FinishesAlone(s: Camera, c: nat)
    requires WellFormed(s)
    ensures var s1 := Do(s, Finish(c));
            && c !in s1.active
            && if c !in s.active then s1 == s
               else if s.current.None? then s1 == s.(active := s1.active)
               else
                 var s2, o := Do(s1, Complete(|s.calls|, true)), s.current.value;
                 var taken := s.objects[o] in {NotAvailable, Unknown};
                 && s2.objects == (if taken then s.objects[o := Present] else s.objects)
                 && s2.heard == (if taken then s.heard + [Present] else s.heard)
                 && TorchFollowed(s.torch, s2.torch, Present, taken)
                 && s2.calls == s.calls && s2.active == s1.active && s2.hal == s.hal && s2.current == s.current
  {
    if c in s.active && s.current.Some? {
      AddedLast(s.calls, Call(s.current.value, Present, REJECTED));
      CompleteChanges(Do(s, Finish(c)), |s.calls|, true);
      assert REJECTED[0] == Present && REJECTED[1] == Enumerating && REJECTED[2] == NotPresent;
    }
  }

  lemma AddedLast(calls: seq<Call>, call: Call)
    ensures (calls + [call])[|calls|] == call
    ensures (calls + [call])[..|calls|] + (calls + [call])[|calls| + 1..] == calls
  {
  }

  /** The HAL reports a camera that is not registered. Present, and known to the provider, it is
      registered with its torch off and announced; anything else changes nothing. */
  lemma PlugsAlone(s: Camera, next: Status, flash: bool)
    requires WellFormed(s) && Enabled(s, HalEvent(next)) && s.current.None?
    ensures var s1 := Do(s, HalEvent(next));
            if next != Present then s1 == s
            else
              && Enabled(s1, HalAddState(true))
              && var s2 := Do(s1, HalAddState(true));
              && Enabled(s2, HalAddTorch(flash))
              && var s3 := Do(s2, HalAddTorch(flash));
              && Enabled(s3, HalUpdate(true))
              && var s4 := Do(s3, HalUpdate(true));
              && s4.objects == s.objects + [Present] && s4.current == Some(|s.objects|)
              && s4.heard == s.heard + [Present] && s4.told == s.told + [[Present]]
              && s4.torch.status == (if flash || s.torch.status.Some? then Some(TorchOff) else None)
              && s4.hal == Idle && s4.calls == s.calls && s4.active == s.active
  {
    var n := |s.objects|;
    assert (s.objects + [NotPresent])[n := Present] == s.objects + [Present];
    assert [] + [Present] == [Present];
    assert (s.told + [[]])[n := [Present]] == s.told + [[Present]];
  }

  /** If the provider does not know it, nothing happens either. */
  lemma UnknownAlone(s: Camera, answered: bool)
    requires WellFormed(s) && Enabled(s, HalEvent(Present)) && s.current.None?
    ensures var s1 := Do(s, HalEvent(Present));
            && Enabled(s1, HalAddState(false)) && Enabled(Do(s1, HalAddState(false)), HalUpdate(answered))
            && Do(Do(s1, HalAddState(false)), HalUpdate(answered)) == s
  {
  }

  /** The HAL reports another status of a registered camera, and is answered. */
  lemma ChangesAlone(s: Camera, next: Status)
    requires WellFormed(s) && Enabled(s, HalEvent(next)) && s.current.Some? && next != NotPresent
    ensures var s1, o := Do(s, HalEvent(next)), s.current.value;
            if s.objects[o] == next then s1 == s
            else
              && Enabled(s1, HalUpdate(true))
              && var s2 := Do(s1, HalUpdate(true));
              && s2.objects == s.objects[o := next] && s2.heard == s.heard + [next] && s2.current == s.current
              && TorchFollowed(s.torch, s2.torch, next, true)
              && s2.hal == Idle && s2.calls == s.calls && s2.active == s.active
  {
  }

  /** The HAL drops a registered camera: announced if supportsCameraApi answers, forgotten in any case,
      with its torch's entry if it has a flash. */
  lemma DropsAlone(s: Camera, answered: bool, flash: bool)
    requires WellFormed(s) && Enabled(s, HalEvent(NotPresent)) && s.current.Some?
    ensures var s1, o := Do(s, HalEvent(NotPresent)), s.current.value;
            if s.objects[o] == NotPresent then s1 == s
            else
              && Enabled(s1, HalUpdate(answered))
              && var s2 := Do(s1, HalUpdate(answered));
              && s2.objects == (if answered then s.objects[o := NotPresent] else s.objects)
              && s2.heard == (if answered then s.heard + [NotPresent] else s.heard)
              && TorchFollowed(s.torch, s2.torch, NotPresent, answered)
              && Enabled(s2, HalRemoveTorch(flash))
              && var s3 := Do(s2, HalRemoveTorch(flash));
              && s3.torch == (if flash then s2.torch.(status := None) else s2.torch)
              && Enabled(s3, HalErase)
              && Do(s3, HalErase) == s2.(current := None, torch := s3.torch, hal := Idle)
              && s2.calls == s.calls && s2.active == s.active
  {
  }

  // ---------------------------------------------------------------- unplugged stays unplugged

  predicate FromClient(c: Call) {
    || (c.status == NotAvailable && c.rejected == [])
    || (c.status == Present && c.rejected == REJECTED)
  }

  predicate CallsFromClients(s: Camera) {
    forall i :: 0 <= i < |s.calls| ==> FromClient(s.calls[i])
  }

  lemma StepKeepsCalls(s: Camera, step: Step)
    requires WellFormed(s) && Enabled(s, step) && CallsFromClients(s)
    ensures CallsFromClients(Do(s, step))
  {
  }

  lemma ClientCannotRevive(call: Call)
    requires FromClient(call)
    ensures !Accepts(NotPresent, call.status, call.rejected)
  {
    assert REJECTED[2] == NotPresent;
  }

  lemma StepKeepsAbsent(s: Camera, step: Step, o: nat)
    requires WellFormed(s) && Enabled(s, step) && CallsFromClients(s) && !step.HalUpdate?
    requires o < |s.objects| && s.objects[o] == NotPresent
    ensures o < |Do(s, step).objects| && Do(s, step).objects[o] == NotPresent
  {
    if step.Complete? {
      ClientCannotRevive(s.calls[step.index]);
    }
  }

  lemma StepKeepsUnplugged(s: Camera, step: Step)
    requires WellFormed(s) && Enabled(s, step) && CallsFromClients(s) && !step.HalUpdate?
    requires Current(s) == NotPresent
    ensures Current(Do(s, step)) == NotPresent
  {
    if s.current.Some? {
      StepKeepsAbsent(s, step, s.current.value);
    }
  }

  lemma {:induction false} RunKeepsCalls(s: Camera, run: seq<Step>, t: Camera)
    requires WellFormed(s) && CallsFromClients(s) && Leads(s, run, t)
    ensures WellFormed(t) && CallsFromClients(t)
    decreases |run|
  {
    if run != [] {
      StepKeepsCalls(s, run[0]);
      RunKeepsCalls(Do(s, run[0]), run[1..], t);
    }
  }

  lemma {:induction false} StaysUnplugged(s: Camera, run: seq<Step>, t: Camera)
    requires WellFormed(s) && CallsFromClients(s) && Leads(s, run, t)
    requires Current(s) == NotPresent && forall i :: 0 <= i < |run| ==> !run[i].HalUpdate?
    ensures WellFormed(t) && Current(t) == NotPresent
    decreases |run|
  {
    if run != [] {
      StepKeepsUnplugged(s, run[0]);
      StepKeepsCalls(s, run[0]);
      StaysUnplugged(Do(s, run[0]), run[1..], t);
    }
  }

  /** Whatever has happened, once a camera is absent it stays absent until the HAL thread updates it
      again, however many clients start, finish or complete meanwhile. */
  lemma UnpluggedStaysUnplugged(past: seq<Step>, s: Camera, run: seq<Step>, t: Camera)
    requires Leads(INIT, past, s) && WellFormed(s) && Leads(s, run, t)
    requires Current(s) == NotPresent && forall i :: 0 <= i < |run| ==> !run[i].HalUpdate?
    ensures WellFormed(t) && Current(t) == NotPresent
  {
    RunKeepsCalls(INIT, past, s);
    StaysUnplugged(s, run, t);
  }

  // ---------------------------------------------------------------- each object tells its changes

  /** Each status told differs from the one before, and absence ends in Present or Enumerating. */
  predicate RealChanges(heard: seq<Status>) {
    forall i :: 0 <= i < |heard| ==> RealChange(heard, i)
  }

  predicate RealChange(heard: seq<Status>, i: nat)
    requires i < |heard|
  {
    Accepts(if i == 0 then NotPresent else heard[i - 1], heard[i], [])
  }

  lemma HeardGrows(heard: seq<Status>, next: Status)
    requires RealChanges(heard) && Accepts(LastHeard(heard), next, [])
    ensures RealChanges(heard + [next]) && LastHeard(heard + [next]) == next
  {
    var grown := heard + [next];
    forall i | 0 <= i < |grown| ensures RealChange(grown, i) {
      if i < |heard| {
        assert RealChange(heard, i);
      }
    }
  }

  predicate TellsChanges(s: Camera)
    requires WellFormed(s)
  {
    forall o :: 0 <= o < |s.objects| ==> LastHeard(s.told[o]) == s.objects[o] && RealChanges(s.told[o])
  }

  lemma PerformTellsChanges(s: Camera, o: nat, next: Status, rejected: seq<Status>, answered: bool)
    requires WellFormed(s) && TellsChanges(s) && o < |s.objects|
    ensures TellsChanges(Perform(s, o, next, rejected, answered))
  {
    if answered && Accepts(s.objects[o], next, rejected) {
      HeardGrows(s.told[o], next);
    }
  }

  lemma StepTellsChanges(s: Camera, step: Step)
    requires WellFormed(s) && Enabled(s, step) && TellsChanges(s)
    ensures TellsChanges(Do(s, step))
  {
    match step {
      case HalAddState(_) =>
      case HalUpdate(answered) =>
        if s.current.Some? {
          var next := if s.hal.Updating? then s.hal.status else NotPresent;
          var moved := s.(hal := if s.hal.Updating? then Idle else RemovingTorch);
          PerformTellsChanges(moved, s.current.value, next, [], answered);
        }
      case Complete(i, answered) =>
        var call := s.calls[i];
        PerformTellsChanges(s.(calls := s.calls[..i] + s.calls[i + 1..]), call.target, call.status, call.rejected,
                            answered);
      case _ =>
    }
  }

  lemma {:induction false} RunTellsChanges(s: Camera, run: seq<Step>, t: Camera)
    requires WellFormed(s) && TellsChanges(s) && Leads(s, run, t)
    ensures WellFormed(t) && TellsChanges(t)
    decreases |run|
  {
    if run != [] {
      StepTellsChanges(s, run[0]);
      RunTellsChanges(Do(s, run[0]), run[1..], t);
    }
  }

  /** On every run, with nothing else asked, the callbacks that come from a state object are exactly its
      changes of status, in order: from absence to what it is now. */
  lemma EachObjectTellsItsChanges(run: seq<Step>, t: Camera, o: nat)
    requires Leads(INIT, run, t) && WellFormed(t) && o < |t.objects|
    ensures LastHeard(t.told[o]) == t.objects[o] && RealChanges(t.told[o])
  {
    RunTellsChanges(INIT, run, t);
  }

  // ---------------------------------------------------------------- listeners know the status

  /** What a listener heard is a sequence of real changes that ends in the registered status; in
      absence, if no camera is registered. */
  predicate Knows(s: Camera)
    requires WellFormed(s)
  {
    LastHeard(s.heard) == Current(s) && RealChanges(s.heard)
  }

  /** At every moment of a run. */
  ghost predicate AlwaysKnows(s: Camera, run: seq<Step>)
    requires WellFormed(s)
    decreases |run|
  {
    Knows(s) && (run != [] && Enabled(s, run[0]) ==> AlwaysKnows(Do(s, run[0]), run[1..]))
  }

  /** Whenever the HAL thread goes through with dropping a camera, supportsCameraApi has answered it. */
  ghost predicate DropsAnnounced(s: Camera, run: seq<Step>)
    requires WellFormed(s)
    decreases |run|
  {
    run != [] && Enabled(s, run[0]) ==>
      && (s.hal == Announcing && run[0] == HalUpdate(false) ==> HalErase !in run[1..])
      && DropsAnnounced(Do(s, run[0]), run[1..])
  }

  /** Objects that are not registered are absent, and listeners know the registered one. */
  predicate Informed(s: Camera)
    requires WellFormed(s)
  {
    && OthersAbsent(s)
    && (s.hal == AddingTorch ==> Current(s) == NotPresent)
    && (s.hal == Announcing ==> Current(s) != NotPresent)
    && Knows(s)
  }

  predicate OthersAbsent(s: Camera) {
    forall o :: 0 <= o < |s.objects| && s.current != Some(o) ==> s.objects[o] == NotPresent
  }

  /** A camera is being dropped and the listeners have not been told. */
  predicate Silent(s: Camera)
    requires WellFormed(s)
  {
    s.hal in {RemovingTorch, Erasing} && Current(s) != NotPresent
  }

  lemma PerformKeepsInformed(s: Camera, o: nat, next: Status, rejected: seq<Status>, answered: bool)
    requires WellFormed(s) && o < |s.objects| && OthersAbsent(s) && Knows(s)
    requires s.current == Some(o) || !Accepts(NotPresent, next, rejected)
    ensures var s' := Perform(s, o, next, rejected, answered);
            && WellFormed(s') && OthersAbsent(s') && Knows(s') && s'.current == s.current && s'.hal == s.hal
            && Current(s') == if s.current == Some(o) && answered && Accepts(s.objects[o], next, rejected) then next
                              else Current(s)
  {
    if answered && Accepts(s.objects[o], next, rejected) {
      HeardGrows(s.heard, next);
    }
  }

  lemma HalKeepsInformed(s: Camera, answered: bool)
    requires WellFormed(s) && Enabled(s, HalUpdate(answered)) && Informed(s)
    ensures var s' := Do(s, HalUpdate(answered));
            Informed(s') && (s.hal == Announcing ==> (Silent(s') <==> !answered))
  {
    if s.current.Some? {
      var next := if s.hal.Updating? then s.hal.status else NotPresent;
      var moved := s.(hal := if s.hal.Updating? then Idle else RemovingTorch);
      PerformKeepsInformed(moved, s.current.value, next, [], answered);
    }
  }

  lemma CompleteKeepsInformed(s: Camera, i: nat, answered: bool)
    requires WellFormed(s) && i < |s.calls| && CallsFromClients(s) && Informed(s)
    ensures var s' := Do(s, Complete(i, answered));
            Informed(s') && s'.hal == s.hal && (Current(s') == NotPresent <==> Current(s) == NotPresent)
  {
    var call := s.calls[i];
    ClientCannotRevive(call);
    PerformKeepsInformed(s.(calls := s.calls[..i] + s.calls[i + 1..]), call.target, call.status, call.rejected,
                         answered);
  }

  /** Client calls and torch steps touch neither the objects nor what was heard. */
  lemma QuietKeepsInformed(s: Camera, step: Step)
    requires WellFormed(s) && Enabled(s, step) && Informed(s)
    requires step.Start? || step.Finish? || step.TorchEvent? || step.TorchRequest?
    ensures var s' := Do(s, step); Informed(s') && (Silent(s') <==> Silent(s))
  {
    var s' := Do(s, step);
    assert s'.objects == s.objects && s'.heard == s.heard && s'.current == s.current && s'.hal == s.hal;
  }

  lemma AddStateKeepsInformed(s: Camera, known: bool)
    requires WellFormed(s) && Enabled(s, HalAddState(known)) && Informed(s)
    ensures var s' := Do(s, HalAddState(known)); Informed(s') && !Silent(s')
  {
  }

  lemma EraseInformsIff(s: Camera)
    requires WellFormed(s) && Enabled(s, HalErase) && Informed(s)
    ensures var s' := Do(s, HalErase); if Silent(s) then !Knows(s') else Informed(s') && !Silent(s')
  {
  }

  /** Every step keeps the listeners informed but the end of a silent drop, which never does. A drop
      is silent if and only if supportsCameraApi did not answer. */
  lemma StepKeepsInformed(s: Camera, step: Step)
    requires WellFormed(s) && Enabled(s, step) && CallsFromClients(s) && Informed(s)
    ensures var s' := Do(s, step);
            if step == HalErase && Silent(s) then !Knows(s')
            else Informed(s')
                 && (Silent(s') <==>
                     (s.hal == Announcing && step == HalUpdate(false)) || (Silent(s) && step != HalErase))
  {
    match step {
      case HalEvent(_) =>
      case HalAddState(known) => AddStateKeepsInformed(s, known);
      case HalAddTorch(_) =>
      case HalRemoveTorch(_) =>
      case HalErase => EraseInformsIff(s);
      case HalUpdate(answered) => HalKeepsInformed(s, answered);
      case Complete(i, answered) => CompleteKeepsInformed(s, i, answered);
      case _ => QuietKeepsInformed(s, step);
    }
  }

  lemma {:induction false} KnowsIff(s: Camera, run: seq<Step>, t: Camera)
    requires WellFormed(s) && CallsFromClients(s) && Informed(s) && Leads(s, run, t)
    ensures AlwaysKnows(s, run) <==> DropsAnnounced(s, run) && (Silent(s) ==> HalErase !in run)
    decreases |run|
  {
    if run != [] {
      var step, rest := run[0], run[1..];
      assert HalErase in run <==> step == HalErase || HalErase in rest;
      StepKeepsInformed(s, step);
      StepKeepsCalls(s, step);
      if !(step == HalErase && Silent(s)) {
        KnowsIff(Do(s, step), rest, t);
      }
    }
  }

  /** On every run, of any interleaving, the listeners know the status at every moment if and only if
      every drop that the HAL thread goes through with was announced. */
  lemma ListenersKnowIff(run: seq<Step>, t: Camera)
    requires Leads(INIT, run, t)
    ensures AlwaysKnows(INIT, run) <==> DropsAnnounced(INIT, run)
  {
    KnowsIff(INIT, run, t);
  }

  lemma {:induction false} SilenceLasts(s: Camera, run: seq<Step>, t: Camera)
    requires WellFormed(s) && CallsFromClients(s) && Informed(s) && Leads(s, run, t)
    requires s.hal in {RemovingTorch, Erasing} && HalErase !in run
    ensures WellFormed(t) && CallsFromClients(t) && Informed(t) && (Silent(t) <==> Silent(s))
    decreases |run|
  {
    if run != [] {
      assert run[0] != HalErase && HalErase !in run[1..];
      StepKeepsInformed(s, run[0]);
      StepKeepsCalls(s, run[0]);
      SilenceLasts(Do(s, run[0]), run[1..], t);
    }
  }

  /** One drop, whatever clients do from its announcement to its end: afterwards the listeners know the
      status if and only if supportsCameraApi answered. */
  lemma DropToldIff(s: Camera, answered: bool, run: seq<Step>, t: Camera)
    requires WellFormed(s) && CallsFromClients(s) && Informed(s) && s.hal == Announcing
    requires Leads(Do(s, HalUpdate(answered)), run, t) && HalErase !in run && t.hal == Erasing && WellFormed(t)
    ensures Knows(Do(t, HalErase)) <==> answered
  {
    StepKeepsInformed(s, HalUpdate(answered));
    SilenceLasts(Do(s, HalUpdate(answered)), run, t);
    StepKeepsInformed(t, HalErase);
  }

  // ---------------------------------------------------------------- torch battery notes

  predicate ChangesEntry(step: Step) {
    (step.HalRemoveTorch? || step.HalAddTorch?) && step.flash
  }

  /** The accounts are straight at every moment of a run. */
  ghost predicate AlwaysAccounted(s: Camera, run: seq<Step>, asked: bool)
    requires WellFormed(s)
    decreases |run|
  {
    && Accounted(s.torch, asked)
    && (run != [] && Enabled(s, run[0]) ==>
          var s' := Do(s, run[0]);
          AlwaysAccounted(s', run[1..], Asked(s.torch, s'.torch, asked)))
  }

  /** The torch's entry is neither taken away nor added anew while the torch is on for somebody. */
  ghost predicate EntriesQuiet(s: Camera, run: seq<Step>, asked: bool)
    requires WellFormed(s)
    decreases |run|
  {
    run != [] && Enabled(s, run[0]) ==>
      var s' := Do(s, run[0]);
      !(ChangesEntry(run[0]) && asked) && EntriesQuiet(s', run[1..], Asked(s.torch, s'.torch, asked))
  }

  lemma StepAccountedIff(s: Camera, step: Step, asked: bool)
    requires WellFormed(s) && Enabled(s, step) && Accounted(s.torch, asked)
    ensures var s' := Do(s, step);
            Accounted(s'.torch, Asked(s.torch, s'.torch, asked)) <==> !(ChangesEntry(step) && asked)
  {
    match step {
      case HalUpdate(_) =>
        TorchChangedAccounts(s.torch, TorchOff, asked);
        TorchChangedAccounts(s.torch, TorchNotAvailable, asked);
      case Complete(_, _) =>
        TorchChangedAccounts(s.torch, TorchOff, asked);
        TorchChangedAccounts(s.torch, TorchNotAvailable, asked);
      case TorchEvent(status) => TorchChangedAccounts(s.torch, status, asked);
      case _ =>
    }
  }

  lemma {:induction false} AccountedIff(s: Camera, run: seq<Step>, t: Camera, asked: bool)
    requires WellFormed(s) && Accounted(s.torch, asked) && Leads(s, run, t)
    ensures AlwaysAccounted(s, run, asked) <==> EntriesQuiet(s, run, asked)
    decreases |run|
  {
    if run != [] {
      var s' := Do(s, run[0]);
      StepAccountedIff(s, run[0], asked);
      if Accounted(s'.torch, Asked(s.torch, s'.torch, asked)) {
        AccountedIff(s', run[1..], t, Asked(s.torch, s'.torch, asked));
      }
    }
  }

  /** On every run, of any interleaving, exactly the current uid is charged while the torch is on for
      somebody and nobody otherwise, at every moment, if and only if the torch's entry never comes or
      goes while the torch is on for somebody. */
  lemma TorchAccountedIff(run: seq<Step>, t: Camera)
    requires Leads(INIT, run, t)
    ensures AlwaysAccounted(INIT, run, false) <==> EntriesQuiet(INIT, run, false)
  {
    AccountedIff(INIT, run, t, false);
  }

  // ---------------------------------------------------------------- what an unanswered drop does

  lemma Two(s: Camera, a: Step, m: Camera, b: Step, t: Camera)
    requires WellFormed(s) && Enabled(s, a) && Do(s, a) == m && Enabled(m, b) && Do(m, b) == t
    ensures Leads(s, [a, b], t)
  {
    assert [a, b][1..] == [b] && [b][1..] == [];
    assert Leads(m, [b], t);
  }

  lemma {:induction false} Then(s: Camera, first: seq<Step>, m: Camera, second: seq<Step>, t: Camera)
    requires WellFormed(s) && WellFormed(m) && Leads(s, first, m) && Leads(m, second, t)
    ensures Leads(s, first + second, t)
    decreases |first|
  {
    if first == [] {
      assert first + second == second;
    } else {
      Then(Do(s, first[0]), first[1..], m, second, t);
      assert (first + second)[1..] == first[1..] + second;
    }
  }

  /** A run from the start, one step longer. */
  lemma Next(run: seq<Step>, s: Camera, step: Step, t: Camera) returns (run': seq<Step>)
    requires Leads(INIT, run, s) && WellFormed(s) && Enabled(s, step) && Do(s, step) == t
    ensures Leads(INIT, run', t) && run' == run + [step]
  {
    run' := run + [step];
    assert [step][1..] == [] && Leads(t, [], t);
    Then(INIT, run, s, [step], t);
  }

  /** A new camera is plugged in. */
  lemma Plugs(flash: bool) returns (t: Camera, run: seq<Step>)
    ensures t == Camera([Present], Some(0), Idle, {}, [], [Present], [[Present]],
                        Torch(if flash then Some(TorchOff) else None, None, {}))
    ensures Leads(INIT, run, t)
  {
    var torch := Torch(if flash then Some(TorchOff) else None, None, {});
    var added := INIT.(objects := [NotPresent], told := [[]], current := Some(0), hal := AddingTorch);
    var ready := added.(hal := Updating(Present), torch := torch);
    t := Do(ready, HalUpdate(true));
    assert t.objects == [Present] && t.heard == [Present] && t.told == [[Present]];
    Two(INIT, HalEvent(Present), INIT.(hal := AddingState), HalAddState(true), added);
    Two(added, HalAddTorch(flash), ready, HalUpdate(true), t);
    run := [HalEvent(Present), HalAddState(true)] + [HalAddTorch(flash), HalUpdate(true)];
    Then(INIT, [HalEvent(Present), HalAddState(true)], added, [HalAddTorch(flash), HalUpdate(true)], t);
  }

  /** A registered camera is dropped and the listeners are not told. */
  lemma DropsSilently(run: seq<Step>, s: Camera, flash: bool) returns (run': seq<Step>, t: Camera)
    requires Leads(INIT, run, s) && WellFormed(s) && s.hal == Idle && s.current.Some? && Current(s) != NotPresent
    ensures t == s.(current := None, torch := if flash then s.torch.(status := None) else s.torch)
    ensures Leads(INIT, run', t)
  {
    var announcing := s.(hal := Announcing);
    var removing := s.(hal := RemovingTorch);
    var erasing := s.(hal := Erasing, torch := if flash then s.torch.(status := None) else s.torch);
    t := s.(current := None, torch := erasing.torch);
    run' := Next(run, s, HalEvent(NotPresent), announcing);
    run' := Next(run', announcing, HalUpdate(false), removing);
    run' := Next(run', removing, HalRemoveTorch(flash), erasing);
    run' := Next(run', erasing, HalErase, t);
  }

  const OPENED := Camera([NotAvailable], Some(0), Idle, {1}, [], [Present, NotAvailable], [[Present, NotAvailable]],
                         Torch(None, None, {}))

  lemma StartAsked(s: Camera) returns (asked: Camera)
    requires WellFormed(s) && s.current == Some(0) && s.calls == []
    ensures Enabled(s, Start(1)) && asked == Do(s, Start(1))
    ensures asked == s.(active := s.active + {1}, calls := [Call(0, NotAvailable, [])])
  {
    asked := Do(s, Start(1));
  }

  lemma OpeningAnswered(s: Camera)
    requires s == Camera([Present], Some(0), Idle, {1}, [Call(0, NotAvailable, [])], [Present], [[Present]],
                         Torch(None, None, {}))
    ensures WellFormed(s) && Enabled(s, Complete(0, true)) && Do(s, Complete(0, true)) == OPENED
  {
    assert [Present] + [NotAvailable] == [Present, NotAvailable];
    CompleteChanges(s, 0, true);
  }

  /** A client opens the camera. */
  lemma Opens() returns (t: Camera, run: seq<Step>)
    ensures t == OPENED && Leads(INIT, run, t)
  {
    var s;
    s, run := Plugs(false);
    var asked := StartAsked(s);
    run := Next(run, s, Start(1), asked);
    OpeningAnswered(asked);
    t := OPENED;
    run := Next(run, asked, Complete(0, true), t);
  }

  lemma FinishAsked(s: Camera) returns (asked: Camera)
    requires WellFormed(s) && 1 in s.active && s.current == Some(0) && s.calls == []
    ensures Enabled(s, Finish(1)) && asked == Do(s, Finish(1))
    ensures asked == s.(active := s.active - {1}, calls := [Call(0, Present, REJECTED)])
  {
    asked := Do(s, Finish(1));
  }

  lemma LateFinish(s: Camera) returns (t: Camera)
    requires WellFormed(s) && s.objects == [NotAvailable] && s.calls == [Call(0, Present, REJECTED)]
    requires s.current == None && s.heard == [Present, NotAvailable]
    ensures Enabled(s, Complete(0, true)) && t == Do(s, Complete(0, true))
    ensures t.current == None && t.heard == [Present, NotAvailable, Present]
  {
    t := Do(s, Complete(0, true));
    CompleteChanges(s, 0, true);
    assert [Present, NotAvailable] + [Present] == [Present, NotAvailable, Present];
  }

  /** After an unanswered drop a client that finishes late announces the camera again, though it is no
      longer registered. */
  lemma UnannouncedDropRevives() returns (run: seq<Step>, t: Camera)
    ensures Leads(INIT, run, t) && t.current == None && t.heard == [Present, NotAvailable, Present]
  {
    var s;
    s, run := Opens();
    var asked := FinishAsked(s);
    run := Next(run, s, Finish(1), asked);
    run, s := DropsSilently(run, asked, false);
    t := LateFinish(s);
    run := Next(run, s, Complete(0, true), t);
  }

  /** And a torch that is on during an unanswered drop stays charged to its user. */
  lemma UnannouncedDropLeaksTorch(uid: int) returns (run: seq<Step>, t: Camera)
    ensures Leads(INIT, run, t) && t.current == None && t.torch == Torch(None, Some(Uids(uid, uid)), {uid})
  {
    var s;
    s, run := Plugs(true);
    var asked := Do(s, TorchRequest(uid));
    run := Next(run, s, TorchRequest(uid), asked);
    var lit := Do(asked, TorchEvent(TorchOn));
    assert lit.torch.noted == {uid};
    run := Next(run, asked, TorchEvent(TorchOn), lit);
    run, t := DropsSilently(run, lit, true);
  }
}
