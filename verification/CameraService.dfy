/**
  Camera status and torch accounting of camera/libcameraservice/CameraService.cpp: what one status
  change does to a camera's state object, to the listeners, to the torch and to the uids the
  battery service is told about.
  */
module CameraService {
  import opened Basics

  type Id = string

  datatype Status = NotPresent | Present | Enumerating | NotAvailable | Unknown

  datatype TorchStatus = TorchNotAvailable | TorchOff | TorchOn

  /** mTorchUidMap's pair: first is the pending uid, second the current one. */
  datatype Uids = Uids(pending: int, current: int)

  /** One camera's torch: its entry in mTorchStatusMap, its entry in mTorchUidMap, and the uids that
      noteFlashlightOn was called for with no noteFlashlightOff since. */
  datatype Torch = Torch(status: Option<TorchStatus>, uids: Option<Uids>, noted: set<int>)

  datatype Note = Note(id: Id, status: Status)

  // ---------------------------------------------------------------- one change, on values

  /** Whether a state object in `old` takes a change to `new`, unless it comes from `rejected`. */
  predicate Accepts(before: Status, next: Status, rejected: seq<Status>) {
    && before != next
    && (before == NotPresent ==> next == Present || next == Enumerating)
    && before !in rejected
  }

  /** The torch after onTorchStatusChangedLocked. */
  function TorchChanged(t: Torch, next: TorchStatus): Torch {
    if t.status.None? || t.status.value == next then t
    else if t.uids.None? then t.(status := Some(next))
    else
      var Uids(pending, current) := t.uids.value;
      if current != pending then
        var off := if t.status.value == TorchOn then t.noted - {current} else t.noted;
        Torch(Some(next), Some(Uids(pending, pending)), if next == TorchOn then off + {pending} else off)
      else
        Torch(Some(next), t.uids, if next == TorchOn then t.noted + {current} else t.noted - {current})
  }

  /** The torch after the uid part of setTorchMode. */
  function TorchRequested(t: Torch, uid: int): Torch {
    t.(uids := Some(if t.uids.None? then Uids(uid, uid) else t.uids.value.(pending := uid)))
  }

  /** What a taken status change does to the torch: a camera in use has none. */
  function TorchFollows(t: Torch, next: Status): Torch {
    if next == Enumerating then t
    else TorchChanged(t, if next == Present then TorchOff else TorchNotAvailable)
  }

  /** The torch status a camera status calls for. */
  function TorchUnder(status: Status, torch: TorchStatus): (r: TorchStatus)
    ensures status == Present ==> r == TorchOff
    ensures status == Enumerating ==> r == torch
    ensures status !in {Present, Enumerating} ==> r == TorchNotAvailable
  {
    if status == Present then TorchOff else if status == Enumerating then torch else TorchNotAvailable
  }

  // ---------------------------------------------------------------- what the accounting promises

  /** `asked` says the torch is on and had an entry in mTorchUidMap when it came on. Then exactly the
      current uid is charged, and otherwise nobody. */
  predicate Accounted(t: Torch, asked: bool) {
    && (asked ==> t.status == Some(TorchOn) && t.uids.Some?)
    && t.noted == if asked then {t.uids.value.current} else {}
  }

  /** `asked` after the torch went from `t` to `next`: it is settled when the torch comes on. */
  predicate Asked(t: Torch, next: Torch, asked: bool) {
    next.status == Some(TorchOn) && if t.status == Some(TorchOn) then asked else t.uids.Some?
  }

  lemma TorchChangedAccounts(t: Torch, next: TorchStatus, asked: bool)
    requires Accounted(t, asked)
    ensures Accounted(TorchChanged(t, next), Asked(t, TorchChanged(t, next), asked))
  {
    if t.uids.Some? {
      var current := t.uids.value.current;
      assert t.noted - {current} == {};
    }
  }

  /** Whoever asked last before the torch comes on is charged, and nobody else. */
  lemma LastRequesterPays(t: Torch, uid: int)
    requires Accounted(t, false) && t.status.Some? && t.status.value != TorchOn
    ensures TorchChanged(TorchRequested(t, uid), TorchOn).noted == {uid}
  {
  }

  /** Taking the torch's entry away, or adding it anew, keeps the accounts straight if and only if the
      torch is off or came on without being asked. */
  lemma NewEntryAccountedIff(t: Torch, entry: Option<TorchStatus>, asked: bool)
    requires Accounted(t, asked) && entry != Some(TorchOn)
    ensures Accounted(t.(status := entry), false) <==> !asked
    ensures t.status != Some(TorchOn) ==> !asked
  {
  }

  // ---------------------------------------------------------------- the objects

  /** CameraService::CameraState: every camera starts out absent. */
  class CameraState {
    const kind: CameraKind
    var status: Status

    constructor (kind: CameraKind)
      ensures status == NotPresent && this.kind == kind
    {
      this.kind, status := kind, NotPresent;
    }

    /** Sets the status first and puts the old one back when the change is refused; `changed` says
        whether onStatusUpdatedLocked is to be called. */
    method UpdateStatus(next: Status, rejectSourceStates: seq<Status>) returns (changed: bool)
      modifies this
      ensures changed <==> Accepts(old(status), next, rejectSourceStates)
      ensures changed <==> old(status) != next && old(status) !in rejectSourceStates
                           && (old(status) == NotPresent ==> next in {Present, Enumerating})
      ensures status == if changed then next else old(status)
    {
      var oldStatus := status;
      status := next;
      if oldStatus == next { return false; }
      if oldStatus == NotPresent && next != Present && next != Enumerating {
        status := oldStatus;
        return false;
      }
      for i := 0 to |rejectSourceStates|
        invariant status == next && oldStatus !in rejectSourceStates[..i]
      {
        if oldStatus == rejectSourceStates[i] {
          status := oldStatus;
          return false;
        }
      }
      return true;
    }
  }

  /** SystemCameraKind: who may see a camera. */
  datatype CameraKind = Public | SystemOnly | HiddenSecure

  /** Whether a listener is a vendor's, and whether it may see system cameras. */
  datatype Listener = Listener(vendor: bool, systemCameras: bool)

  /** Whether a listener is told of a camera; `hal3` is what supportsCameraApi says of it. */
  predicate Hears(l: Listener, kind: CameraKind, hal3: bool) {
    if l.vendor then hal3 else kind == Public || (kind == SystemOnly && l.systemCameras)
  }

  /** The status and torch tables, the listeners with what each was told, and the battery notes. */
  class Service {
    var states: map<Id, CameraState>
    var torchStatus: map<Id, TorchStatus>
    var torchUids: map<Id, Uids>
    var noted: map<Id, set<int>>
    var listeners: seq<Listener>
    var heard: seq<seq<Note>>

    ghost predicate Valid()
      reads this
    {
      && |heard| == |listeners|
      && forall a, b :: a in states && b in states && states[a] == states[b] ==> a == b
    }

    /** A camera's status, None if it is not registered. */
    ghost function StatusOf(id: Id): Option<Status>
      reads this`states, states.Values
    {
      if id in states then Some(states[id].status) else None
    }

    ghost function KindOf(id: Id): CameraKind
      reads this`states
    {
      if id in states then states[id].kind else Public
    }

    ghost function TorchOf(id: Id): Torch
      reads this`torchStatus, this`torchUids, this`noted
    {
      Torch(if id in torchStatus then Some(torchStatus[id]) else None,
            if id in torchUids then Some(torchUids[id]) else None,
            if id in noted then noted[id] else {})
    }

    constructor (listeners: seq<Listener>)
      ensures Valid() && this.listeners == listeners && states == map[]
      ensures forall id :: TorchOf(id) == Torch(None, None, {})
      ensures forall k :: 0 <= k < |listeners| ==> heard[k] == []
    {
      states, torchStatus, torchUids, noted := map[], map[], map[], map[];
      this.listeners := listeners;
      heard := seq(|listeners|, i => []);
    }

    method NoteFlashlightOff(id: Id, uid: int)
      modifies this`noted
      ensures noted == old(noted)[id := (if id in old(noted) then old(noted)[id] else {}) - {uid}]
    {
      noted := noted[id := (if id in noted then noted[id] else {}) - {uid}];
    }

    method NoteFlashlightOn(id: Id, uid: int)
      modifies this`noted
      ensures noted == old(noted)[id := (if id in old(noted) then old(noted)[id] else {}) + {uid}]
    {
      noted := noted[id := (if id in noted then noted[id] else {}) + {uid}];
    }

    method OnTorchStatusChangedLocked(id: Id, next: TorchStatus)
      modifies this`torchStatus, this`torchUids, this`noted
      ensures TorchOf(id) == TorchChanged(old(TorchOf(id)), next)
      // the status is set whether or not anybody ever asked for the torch
      ensures id in torchStatus <==> id in old(torchStatus)
      ensures id in torchStatus ==> torchStatus[id] == next
      ensures id in torchUids <==> id in old(torchUids)
      ensures id in torchUids ==>
                torchUids[id] == if id in torchStatus && old(torchStatus)[id] != next
                                 then Uids(old(torchUids)[id].pending, old(torchUids)[id].pending)
                                 else old(torchUids)[id]
      ensures forall other :: other != id ==> TorchOf(other) == old(TorchOf(other))
    {
      if id !in torchStatus { return; }
      var status := torchStatus[id];
      if status == next { return; }
      torchStatus := torchStatus[id := next];
      if id in torchUids {
        var Uids(newUid, oldUid) := torchUids[id];
        if oldUid != newUid {
          if status == TorchOn {
            NoteFlashlightOff(id, oldUid);
          }
          if next == TorchOn {
            NoteFlashlightOn(id, newUid);
          }
          torchUids := torchUids[id := Uids(newUid, newUid)];
        } else if next == TorchOn {
          NoteFlashlightOn(id, oldUid);
        } else {
          NoteFlashlightOff(id, oldUid);
        }
      }
    }

    /** The uid part of setTorchMode. */
    method SetTorchMode(id: Id, uid: int)
      modifies this`torchUids
      ensures TorchOf(id) == TorchRequested(old(TorchOf(id)), uid)
      ensures id in torchUids && torchUids[id].pending == uid
      ensures torchUids[id].current == if id in old(torchUids) then old(torchUids)[id].current else uid
      ensures forall other :: other != id ==> TorchOf(other) == old(TorchOf(other))
    {
      if id !in torchUids {
        torchUids := torchUids[id := Uids(uid, uid)];
      } else {
        torchUids := torchUids[id := torchUids[id].(pending := uid)];
      }
    }

    method FollowWithTorch(id: Id, status: Status)
      modifies this`torchStatus, this`torchUids, this`noted
      ensures TorchOf(id) == TorchFollows(old(TorchOf(id)), status)
      ensures id in torchStatus <==> id in old(torchStatus)
      ensures id in torchStatus ==> torchStatus[id] == TorchUnder(status, old(torchStatus)[id])
      ensures forall other :: other != id ==> TorchOf(other) == old(TorchOf(other))
    {
      if status != Enumerating && id in torchStatus {
        var newTorchStatus := if status == Present then TorchOff else TorchNotAvailable;
        if torchStatus[id] != newTorchStatus {
          OnTorchStatusChangedLocked(id, newTorchStatus);
        }
      }
    }

    /** Tells every listener that is not to be skipped, in order: of the ordinary ones those that may see
        the camera, of the vendor's all, unless the camera lacks the newer interface. */
    method NotifyListeners(id: Id, kind: CameraKind, status: Status, hal3: bool)
      requires Valid()
      modifies this`heard
      ensures Valid()
      ensures forall k :: 0 <= k < |listeners| ==>
                heard[k] == if Hears(listeners[k], kind, hal3) then old(heard[k]) + [Note(id, status)]
                            else old(heard[k])
      ensures forall k :: 0 <= k < |listeners| && !listeners[k].vendor && kind == Public ==>
                heard[k] == old(heard[k]) + [Note(id, status)]
      ensures forall k :: 0 <= k < |listeners| && !listeners[k].vendor && kind == HiddenSecure ==>
                heard[k] == old(heard[k])
      ensures forall k :: 0 <= k < |listeners| && !listeners[k].vendor && kind == SystemOnly ==>
                heard[k] == old(heard[k]) + if listeners[k].systemCameras then [Note(id, status)] else []
      ensures forall k :: 0 <= k < |listeners| && listeners[k].vendor ==>
                heard[k] == old(heard[k]) + if hal3 then [Note(id, status)] else []
    {
      for i := 0 to |listeners|
        invariant |heard| == |listeners|
        invariant forall k :: i <= k < |listeners| ==> heard[k] == old(heard[k])
        invariant forall k :: 0 <= k < i ==>
                    heard[k] == if Hears(listeners[k], kind, hal3) then old(heard[k]) + [Note(id, status)]
                                else old(heard[k])
      {
        if ShouldSkipStatusUpdates(listeners[i], kind) || (listeners[i].vendor && !hal3) { continue; }
        heard := heard[i := heard[i] + [Note(id, status)]];
      }
    }

    predicate ShouldSkipStatusUpdates(l: Listener, kind: CameraKind) {
      !l.vendor && (kind == HiddenSecure || (kind == SystemOnly && !l.systemCameras))
    }

    /** A camera's status, its torch and what each listener heard change together or not at all. */
    method UpdateStatus(next: Status, id: Id, rejectSourceStates: seq<Status>, hal3: Option<bool>)
      requires Valid()
      modifies this`torchStatus, this`torchUids, this`noted, this`heard, states.Values
      ensures Valid()
      ensures var before := old(StatusOf(id));
              var taken := hal3.Some? && before.Some? && Accepts(before.value, next, rejectSourceStates);
              && StatusOf(id) == (if taken then Some(next) else before)
              && TorchOf(id) == (if taken then TorchFollows(old(TorchOf(id)), next) else old(TorchOf(id)))
              && forall k :: 0 <= k < |listeners| ==>
                   heard[k] == if taken && Hears(listeners[k], KindOf(id), hal3.value)
                               then old(heard[k]) + [Note(id, next)] else old(heard[k])
      ensures id in torchStatus <==> id in old(torchStatus)
      ensures id in torchStatus && StatusOf(id) != old(StatusOf(id)) ==>
                torchStatus[id] == TorchUnder(next, old(torchStatus)[id])
      ensures forall other :: other != id ==>
                StatusOf(other) == old(StatusOf(other)) && TorchOf(other) == old(TorchOf(other))
    {
      if id !in states || hal3.None? { return; }
      var changed := states[id].UpdateStatus(next, rejectSourceStates);
      assert forall other :: other != id ==>
               StatusOf(other) == old(StatusOf(other)) && TorchOf(other) == old(TorchOf(other));
      if changed {
        FollowWithTorch(id, next);
        NotifyListeners(id, states[id].kind, next, hal3.value);
      }
    }

    /** `known` says whether the provider answers for the camera; only then is it registered, absent. */
    method AddStates(id: Id, known: bool, kind: CameraKind, hasFlashUnit: bool)
      requires Valid() && id !in states
      modifies this`states, this`torchStatus
      ensures Valid() && StatusOf(id) == (if known then Some(NotPresent) else None)
      ensures TorchOf(id) == if known && hasFlashUnit then old(TorchOf(id)).(status := Some(TorchOff))
                             else old(TorchOf(id))
      ensures known ==> id in states && fresh(states[id]) && states[id].kind == kind
      ensures known && hasFlashUnit ==> id in torchStatus && torchStatus[id] == TorchOff
      ensures forall other :: other != id ==>
                StatusOf(other) == old(StatusOf(other)) && TorchOf(other) == old(TorchOf(other))
      ensures states.Keys == old(states.Keys) + if known then {id} else {}
      ensures forall other :: other in old(states) ==> states[other] == old(states)[other]
    {
      if !known { return; }
      var state := new CameraState(kind);
      states := states[id := state];
      if hasFlashUnit {
        torchStatus := torchStatus[id := TorchOff];
      }
    }

    method RemoveStates(id: Id, hasFlashUnit: bool)
      requires Valid()
      modifies this`states, this`torchStatus
      ensures Valid() && StatusOf(id) == None && states == old(states) - {id}
      ensures TorchOf(id) == if hasFlashUnit then old(TorchOf(id)).(status := None) else old(TorchOf(id))
      ensures hasFlashUnit ==> id !in torchStatus
      ensures forall other :: other != id ==>
                StatusOf(other) == old(StatusOf(other)) && TorchOf(other) == old(TorchOf(other))
    {
      if hasFlashUnit {
        torchStatus := torchStatus - {id};
      }
      states := states - {id};
    }

    /** The HAL reports a status. A camera the HAL drops is announced before it is forgotten, if
        supportsCameraApi still answers for it; its clients are disconnected in between, each by
        FinishCameraOps. */
    method OnDeviceStatusChanged(id: Id, next: Status, known: bool, kind: CameraKind, hasFlashUnit: bool,
                                 hal3: Option<bool>)
      requires Valid() && next in {NotPresent, Present, Enumerating}
      modifies this, states.Values
      ensures Valid() && listeners == old(listeners)
      ensures var before := old(StatusOf(id));
              && StatusOf(id) == (
                  if before.None? then
                    if next == Present && known then Some(if hal3.Some? then Present else NotPresent) else None
                  else if before.value == next then before
                  else if next == NotPresent then None
                  else if hal3.Some? then Some(next) else before)
              && TorchOf(id) == TorchAfterEvent(old(TorchOf(id)), before, next, known, hasFlashUnit, hal3.Some?)
              && var told := hal3.Some? && before != Some(next) && (before.None? ==> next == Present && known);
                 var seen := if before.None? then kind else old(KindOf(id));
                 forall k :: 0 <= k < |listeners| ==>
                   heard[k] == if told && Hears(listeners[k], seen, hal3.value)
                               then old(heard[k]) + [Note(id, next)] else old(heard[k])
      ensures old(StatusOf(id)) == None && next == Present && known && hasFlashUnit ==>
                id in torchStatus && torchStatus[id] == TorchOff
      ensures old(StatusOf(id)).Some? && old(StatusOf(id)) != Some(next) && next == NotPresent && hasFlashUnit ==>
                id !in torchStatus
      ensures old(StatusOf(id)).Some? && next != NotPresent ==>
                (id in torchStatus <==> id in old(torchStatus))
                && (id in torchStatus && StatusOf(id) != old(StatusOf(id)) ==>
                      torchStatus[id] == TorchUnder(next, old(torchStatus)[id]))
      ensures forall other :: other != id ==>
                StatusOf(other) == old(StatusOf(other)) && TorchOf(other) == old(TorchOf(other))
    {
      if id !in states {
        if next == Present {
          AddStates(id, known, kind, hasFlashUnit);
          UpdateStatus(next, id, [], hal3);
        }
        return;
      }
      var oldStatus := states[id].status;
      if oldStatus == next { return; }
      UpdateStatus(next, id, [], hal3);
      if next == NotPresent {
        RemoveStates(id, hasFlashUnit);
      }
    }
  }

  /** The torch after onDeviceStatusChanged. */
  function TorchAfterEvent(t: Torch, before: Option<Status>, next: Status, known: bool, flash: bool, hal3: bool)
    : Torch
  {
    if before.None? then
      if next != Present || !known then t
      else
        var added := if flash then t.(status := Some(TorchOff)) else t;
        if hal3 then TorchFollows(added, Present) else added
    else if before.value == next then t
    else
      var followed := if hal3 && Accepts(before.value, next, []) then TorchFollows(t, next) else t;
      if next == NotPresent && flash then followed.(status := None) else followed
  }

  const REJECTED := [Present, Enumerating, NotPresent]

  /** CameraService::BasicClient, as far as it moves the status. */
  class BasicClient {
    const service: Service
    const id: Id
    var opsActive: bool

    constructor (service: Service, id: Id)
      ensures this.service == service && this.id == id && !opsActive
    {
      this.service, this.id, opsActive := service, id, false;
    }

    method StartCameraOps(allowed: bool, hal3: Option<bool>) returns (ok: bool)
      requires service.Valid()
      modifies this`opsActive, service`torchStatus, service`torchUids, service`noted, service`heard,
               service.states.Values
      ensures service.Valid() && ok == allowed && opsActive == (allowed || old(opsActive))
      ensures service.listeners == old(service.listeners)
      ensures var before := old(service.StatusOf(id));
              var taken := allowed && hal3.Some? && before !in {None, Some(NotPresent), Some(NotAvailable)};
              && service.StatusOf(id) == (if taken then Some(NotAvailable) else before)
              && service.TorchOf(id) == (if taken then TorchChanged(old(service.TorchOf(id)), TorchNotAvailable)
                                         else old(service.TorchOf(id)))
              && forall k :: 0 <= k < |service.listeners| ==>
                   service.heard[k] == if taken && Hears(service.listeners[k], service.KindOf(id), hal3.value)
                                       then old(service.heard[k]) + [Note(id, NotAvailable)]
                                       else old(service.heard[k])
      ensures id in service.torchStatus <==> id in old(service.torchStatus)
      ensures service.StatusOf(id) != old(service.StatusOf(id)) && id in service.torchStatus ==>
                service.torchStatus[id] == TorchNotAvailable
      ensures forall other :: other != id ==>
                service.StatusOf(other) == old(service.StatusOf(other))
                && service.TorchOf(other) == old(service.TorchOf(other))
    {
      if !allowed { return false; }
      opsActive := true;
      service.UpdateStatus(NotAvailable, id, [], hal3);
      return true;
    }

    method FinishCameraOps(hal3: Option<bool>)
      requires service.Valid()
      modifies this`opsActive, service`torchStatus, service`torchUids, service`noted, service`heard,
               service.states.Values
      ensures service.Valid() && !opsActive
      ensures service.listeners == old(service.listeners)
      ensures var before := old(service.StatusOf(id));
              var taken := old(opsActive) && hal3.Some? && before in {Some(NotAvailable), Some(Unknown)};
              && service.StatusOf(id) == (if taken then Some(Present) else before)
              && service.TorchOf(id) == (if taken then TorchChanged(old(service.TorchOf(id)), TorchOff)
                                         else old(service.TorchOf(id)))
              && forall k :: 0 <= k < |service.listeners| ==>
                   service.heard[k] == if taken && Hears(service.listeners[k], service.KindOf(id), hal3.value)
                                       then old(service.heard[k]) + [Note(id, Present)]
                                       else old(service.heard[k])
      ensures id in service.torchStatus <==> id in old(service.torchStatus)
      ensures service.StatusOf(id) != old(service.StatusOf(id)) && id in service.torchStatus ==>
                service.torchStatus[id] == TorchOff
      ensures forall other :: other != id ==>
                service.StatusOf(other) == old(service.StatusOf(other))
                && service.TorchOf(other) == old(service.TorchOf(other))
    {
      if opsActive {
        opsActive := false;
        service.UpdateStatus(Present, id, REJECTED, hal3);
      }
    }
  }
}
