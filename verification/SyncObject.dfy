/** A sync object as the driver keeps it (`hgsl_drawobj.c`): a bitmap of pending events, a
    list of events, a reference count. The ghost field `m` is the state of `SyncEvents`;
    every method moves it by steps of that model, so the theorems about its runs hold of
    this code. */
module SyncObject {
  import opened SyncEvents

  /** The driver's side of one event: its type, whether a fence handle is kept, and the
      references to the context or fence it waits for. */
  datatype Slot = Slot(kind: Kind, handle: bool, otherRefs: int)

  predicate HasHandle(e: Event) { e.kind == Fence && e.arming == Registered }

  /** Slots and bitmap show the events. */
  ghost predicate Shown(slots: seq<Slot>, pending: seq<bool>, events: seq<Event>) {
    && |slots| == |pending| == |events|
    && forall i :: 0 <= i < |events| ==>
         slots[i] == Slot(events[i].kind, HasHandle(events[i]), events[i].otherRefs) && pending[i] == events[i].pending
  }

  /** What is left of the slots when the object goes: fence handles give their fence back. */
  function Emptied(slots: seq<Slot>): (r: seq<Slot>)
    ensures |r| == |slots|
    ensures forall i :: 0 <= i < |r| ==>
              r[i] == if slots[i].handle then slots[i].(otherRefs := slots[i].otherRefs - 1) else slots[i]
  {
    seq(|slots|, i requires 0 <= i < |slots| =>
      if slots[i].handle then slots[i].(otherRefs := slots[i].otherRefs - 1) else slots[i])
  }

  lemma EmptiedIsReleased(slots: seq<Slot>, pending: seq<bool>, events: seq<Event>)
    requires Shown(slots, pending, events)
    ensures Shown(Emptied(slots), pending, ReleaseHandles(events))
  {
  }

  lemma RegisteredIsShown(slots: seq<Slot>, pending: seq<bool>, events: seq<Event>, kind: Kind, arming: Arming)
    requires Shown(slots, pending, events)
    ensures var e := Armed0(kind, arming);
            Shown(slots + [Slot(kind, HasHandle(e), e.otherRefs)], pending + [e.pending], events + [e])
  {
  }

  lemma UpdatedIsShown(slots: seq<Slot>, pending: seq<bool>, events: seq<Event>, i: nat, e: Event)
    requires Shown(slots, pending, events) && i < |events| && e.kind == events[i].kind && e.arming == events[i].arming
    ensures Shown(slots[i := slots[i].(otherRefs := e.otherRefs)], pending[i := e.pending], events[i := e])
  {
  }

  /** An event gave back references, which its slot shows only for the one on what it waits for. */
  lemma GivenIsShown(slots: seq<Slot>, pending: seq<bool>, events: seq<Event>, i: nat, e: Event)
    requires Shown(slots, pending, events) && i < |events| && e.kind == events[i].kind && e.arming == events[i].arming
    requires e.pending == events[i].pending
    ensures Shown(slots[i := slots[i].(otherRefs := e.otherRefs)], pending, events[i := e])
    ensures e.otherRefs == events[i].otherRefs ==> Shown(slots, pending, events[i := e])
  {
  }

  lemma SlotShown(slots: seq<Slot>, pending: seq<bool>, events: seq<Event>, i: nat)
    requires Shown(slots, pending, events) && i < |events|
    ensures |slots| == |pending| == |events|
    ensures slots[i] == Slot(events[i].kind, HasHandle(events[i]), events[i].otherRefs)
    ensures pending[i] == events[i].pending
  {
  }

  /** Nobody pending. */
  predicate NonePending(pending: seq<bool>) { forall b <- pending :: !b }

  /** No callback that lost its bit is under way, and no event is half cancelled: so it is
      before destruction, and stays without interference. */
  ghost predicate Undisturbed(s: State) {
    forall i :: 0 <= i < |s.events| ==> s.events[i].callback != Lost && !s.events[i].cancelling
  }

  /** The same, but event `i` is being cancelled. */
  ghost predicate UndisturbedBut(s: State, i: nat) {
    forall k :: 0 <= k < |s.events| ==> s.events[k].callback != Lost && (k != i ==> !s.events[k].cancelling)
  }

  ghost function StartedDestroy(s: State): State { s.(phase := Visiting(0)) }

  /** The work of the destroying thread on one event. */
  ghost function CancelOne(s: State): (r: State)
    requires Inv(s) && s.phase.Visiting? && s.phase.index < |s.events| && Undisturbed(s)
    ensures Inv(r) && r.phase == Visiting(s.phase.index + 1) && |r.events| == |s.events| && Undisturbed(r)
  {
    VisitShape(s);
    var t := Apply(s, Visit);
    if s.events[s.phase.index].pending then
      CancelShape(t);
      Apply(t, FinishCancel)
    else t
  }

  lemma VisitShape(s: State)
    requires Inv(s) && s.phase.Visiting? && s.phase.index < |s.events| && Undisturbed(s)
    ensures Enabled(s, Visit)
    ensures var i, t := s.phase.index, Apply(s, Visit);
            && Inv(t) && |t.events| == |s.events|
            && if s.events[i].pending then
                 Enabled(t, FinishCancel) && t.phase == s.phase && UndisturbedBut(t, i)
               else t.phase == Visiting(i + 1) && Undisturbed(t)
  {
    StepKeepsInv(s, Visit);
  }

  lemma CancelShape(s: State)
    requires Inv(s) && s.phase.Visiting? && Enabled(s, FinishCancel) && UndisturbedBut(s, s.phase.index)
    ensures var t := Apply(s, FinishCancel);
            && Inv(t) && |t.events| == |s.events| && t.phase == Visiting(s.phase.index + 1) && Undisturbed(t)
  {
    StepKeepsInv(s, FinishCancel);
    hide Inv;
  }

  /** Its work on the rest of them. */
  ghost function CancelRest(s: State): (r: State)
    requires Inv(s) && s.phase.Visiting? && Undisturbed(s)
    ensures Inv(r) && r.phase == Visiting(|r.events|) && |r.events| == |s.events|
    decreases |s.events| - s.phase.index
  {
    if s.phase.index >= |s.events| then s else CancelRest(CancelOne(s))
  }

  /** Destruction from start to end. */
  ghost function CancelAll(s: State): State
    requires Inv(s) && s.phase == Alive
  {
    DestroyStarts(s);
    Apply(CancelRest(StartedDestroy(s)), DropQueueRef)
  }

  lemma DestroyStarts(s: State)
    requires Inv(s) && s.phase == Alive
    ensures StartedDestroy(s) == Apply(s, StartDestroy)
    ensures Inv(StartedDestroy(s)) && Undisturbed(StartedDestroy(s))
  {
    StepKeepsInv(s, StartDestroy);
    forall i | 0 <= i < |s.events| ensures s.events[i].callback != Lost && !s.events[i].cancelling {
      assert EventOk(s.events[i], Visited(s, i), s.freed > 0);
    }
  }

  lemma CancelSteps(s: State, i: nat)
    requires Inv(s) && s.phase == Visiting(i) && i < |s.events| && Undisturbed(s)
    ensures CancelRest(s) == CancelRest(CancelOne(s)) && Enabled(s, Visit)
    ensures var t := Apply(s, Visit);
            if s.events[i].pending then
              t.phase == Visiting(i) && Enabled(t, FinishCancel) && CancelOne(s) == Apply(t, FinishCancel)
            else CancelOne(s) == t
  {
  }

  lemma CancelRestDone(s: State)
    requires Inv(s) && s.phase == Visiting(|s.events|) && Undisturbed(s)
    ensures CancelRest(s) == s && Enabled(s, DropQueueRef)
    ensures forall k :: 0 <= k < |s.events| ==> !s.events[k].pending
    ensures forall k :: 0 <= k < |s.events| ==> Apply(s, DropQueueRef).events[k].pending == s.events[k].pending
    ensures |Apply(s, DropQueueRef).events| == |s.events|
  {
    forall k | 0 <= k < |s.events| ensures !s.events[k].pending {
      assert EventOk(s.events[k], Visited(s, k), s.freed > 0);
    }
  }

  class Object {
    var slots: seq<Slot>
    var pending: seq<bool>
    var refcount: int
    var freed: nat
    /** How often the context was handed to its dispatcher. */
    var scheduled: nat
    ghost var m: State

    ghost predicate Valid()
      reads this
    {
      Inv(m) && Shown(slots, pending, m.events) && refcount == m.refcount && freed == m.freed
    }

    /** `hgsl_drawobj_sync_create` */
    constructor ()
      ensures Valid() && m == Create() && scheduled == 0
    {
      slots, pending, refcount, freed, scheduled := [], [], 1, 0, 0;
      m := Create();
    }

    /** `syncobj_destroy_object` */
    method DestroyObject()
      modifies this`slots
      ensures slots == Emptied(old(slots))
    {
      var i := 0;
      while i < |slots|
        invariant 0 <= i <= |slots| == |old(slots)|
        invariant slots[..i] == Emptied(old(slots))[..i] && slots[i..] == old(slots)[i..]
      {
        ghost var before := slots;
        if slots[i].handle {
          slots := slots[i := slots[i].(otherRefs := slots[i].otherRefs - 1)];
        }
        assert slots[i] == Emptied(old(slots))[i] by { assert before[i..][0] == old(slots)[i..][0]; }
        assert slots[..i + 1] == slots[..i] + [slots[i]] && slots[i + 1..] == before[i..][1..];
        i := i + 1;
      }
      assert slots[..i] == slots;
    }

    /** `hgsl_drawobj_put`, `s` being the state of the model so far. */
    method PutObject(ghost s: State)
      requires Shown(slots, pending, s.events) && refcount == s.refcount && freed == s.freed
      modifies this`refcount, this`freed, this`slots
      ensures Shown(slots, pending, Put(s).events) && refcount == Put(s).refcount && freed == Put(s).freed
      ensures refcount == old(refcount) - 1 && freed == old(freed) + if refcount == 0 then 1 else 0
      ensures slots == if refcount == 0 then Emptied(old(slots)) else old(slots)
    {
      hide Shown;
      EmptiedIsReleased(slots, pending, s.events);
      refcount := refcount - 1;
      if refcount == 0 {
        DestroyObject();
        freed := freed + 1;
      }
    }

    /** One event more, behind the others; it is pending and holds a reference to the object exactly
        if its callback was added. */
    ghost predicate EventAdded(
      slots0: seq<Slot>, pending0: seq<bool>, refcount0: int, kind: Kind, added: bool, fenceRefs: int)
      reads this
    {
      && slots == slots0 + [Slot(kind, kind == Fence && added, fenceRefs)]
      && pending == pending0 + [added]
      && refcount == refcount0 + if added then 1 else 0
    }

    /** The common part of the `drawobj_add_sync_*` functions: a reference for the event, a
        slot, the pending bit before the callback can run; `arming` is how adding the
        callback went, and undoes bit and reference unless it succeeded. `fenceRefs` is what
        the caller is left holding on the context or fence. */
    method AddEvent(kind: Kind, arming: Arming, fenceRefs: int)
      requires Valid() && Enabled(m, Register(kind, arming)) && fenceRefs == Armed0(kind, arming).otherRefs
      modifies this`slots, this`pending, this`refcount, this`m
      ensures Valid() && m == Apply(old(m), Register(kind, arming))
      ensures EventAdded(old(slots), old(pending), old(refcount), kind, arming == Registered, fenceRefs)
    {
      hide Inv, Shown;
      ghost var s := m;
      RegisteredIsShown(slots, pending, m.events, kind, arming);
      StepKeepsInv(m, Register(kind, arming));
      refcount := refcount + 1;
      var id := |slots|;
      pending := pending + [true];
      slots := slots + [Slot(kind, kind == Fence && arming == Registered, fenceRefs)];
      if arming != Registered {
        pending := pending[..|pending| - 1] + [false];
        refcount := refcount - 1;
      }
      m := Apply(m, Register(kind, arming));
    }

    /** `drawobj_add_sync_timestamp`: a context that is gone or a future timestamp is refused
        before anything is taken; afterwards the context reference stays with the event or
        is given back. */
    method AddSyncTimestamp(found: bool, own: bool, future: bool, added: bool) returns (ok: bool)
      requires Valid() && m.phase == Alive && |m.events| < MAX_SYNCPOINTS
      modifies this`slots, this`pending, this`refcount, this`m
      ensures Valid() && ok == (found && !(own && future) && added)
      ensures m == if found && !(own && future)
                   then Apply(old(m), Register(Timestamp, if added then Registered else Failed)) else old(m)
      ensures if found && !(own && future)
              then EventAdded(old(slots), old(pending), old(refcount), Timestamp, added, if added then 1 else 0)
              else slots == old(slots) && pending == old(pending) && refcount == old(refcount)
    {
      hide Inv, Shown;
      ok := false;
      if !found {
        return;
      }
      var refs := 1;
      if own && future {
        return;
      }
      if !added {
        refs := refs - 1;
      }
      AddEvent(Timestamp, if added then Registered else Failed, refs);
      ok := added;
    }

    /** `drawobj_add_sync_fence`: the fence stays with the handle, if there is one. */
    method AddSyncFence(arming: Arming) returns (ok: bool)
      requires Valid() && m.phase == Alive && |m.events| < MAX_SYNCPOINTS
      modifies this`slots, this`pending, this`refcount, this`m
      ensures Valid() && ok == (arming != Failed) && m == Apply(old(m), Register(Fence, arming))
      ensures EventAdded(old(slots), old(pending), old(refcount), Fence, arming == Registered,
                         if arming == Registered then 1 else 0)
    {
      hide Inv, Shown;
      var refs := 1;
      if arming != Registered {
        refs := refs - 1;
      }
      AddEvent(Fence, arming, refs);
      ok := arming != Failed;
    }

    /** `drawobj_add_sync_timeline`: one reference from making the fence, one for the
        callback. The first is always put, the second only if the fence has signalled. */
    method AddSyncTimeline(arming: Arming) returns (ok: bool)
      requires Valid() && m.phase == Alive && |m.events| < MAX_SYNCPOINTS
      modifies this`slots, this`pending, this`refcount, this`m
      ensures Valid() && ok == (arming != Failed) && m == Apply(old(m), Register(Timeline, arming))
      ensures EventAdded(old(slots), old(pending), old(refcount), Timeline, arming == Registered,
                         if arming == AlreadySignaled then 0 else 1)
    {
      hide Inv, Shown;
      var refs := 1;
      refs := refs + 1;
      if arming != Registered {
        if arming == AlreadySignaled {
          refs := refs - 1;
        }
      }
      refs := refs - 1;
      AddEvent(Timeline, arming, refs);
      ok := arming != Failed;
    }

    /** `drawobj_sync_expire`: whoever clears the bit owns the event, and whoever clears the
        last bit hands the context to its dispatcher. */
    method Expire(i: nat) returns (won: bool)
      requires Valid() && Enabled(m, Fire(i))
      modifies this`pending, this`scheduled, this`m
      ensures Valid() && m == Apply(old(m), Fire(i))
      ensures won == old(pending)[i] && pending == old(pending)[i := false]
      ensures scheduled == old(scheduled) + if won && NonePending(pending) then 1 else 0
    {
      hide Inv, NonePending;
      StepKeepsInv(m, Fire(i));
      UpdatedIsShown(slots, pending, m.events, i, FireEvent(m.events[i]));
      assert slots[i := slots[i].(otherRefs := m.events[i].otherRefs)] == slots;
      FireChanges(m, i);
      m := Apply(m, Fire(i));
      won := pending[i];
      if !won {
        assert pending[i := false] == pending;
        return;
      }
      pending := pending[i := false];
      if NonePending(pending) {
        scheduled := scheduled + 1;
      }
    }

    /** What event `i` gave back: a reference to the object, `own`, and one to the context or fence
        it waited for, `other`. The last reference to the object empties the handles. */
    ghost predicate PartsGiven(slots0: seq<Slot>, refcount0: int, freed0: nat, i: nat, own: bool, other: bool)
      requires i < |slots0|
      reads this
    {
      var after := if other then slots0[i := slots0[i].(otherRefs := slots0[i].otherRefs - 1)] else slots0;
      && refcount == refcount0 - (if own then 1 else 0)
      && freed == freed0 + (if own && refcount == 0 then 1 else 0)
      && slots == if own && refcount == 0 then Emptied(after) else after
    }

    /** What a callback, or the work it queued, still has to do once it knows whether it
        took the bit. */
    method FinishCallback(i: nat, won: bool)
      requires Valid() && Enabled(m, Return(i)) && won == (m.events[i].callback == Won)
      modifies this`slots, this`refcount, this`freed, this`m
      ensures Valid() && m == Apply(old(m), Return(i))
      ensures PartsGiven(old(slots), old(refcount), old(freed), i,
                         old(slots)[i].kind == Timestamp || won, old(slots)[i].kind != Fence && won)
    {
      hide Inv, Shown;
      SlotShown(slots, pending, m.events, i);
      StepKeepsInv(m, Return(i));
      ghost var e := ReturnEvent(m.events[i]);
      GivenIsShown(slots, pending, m.events, i, e);
      ghost var s := m.(events := m.events[i := e]);
      var slot := slots[i];
      match slot.kind {
        case Timestamp =>
          if won {
            slots := slots[i := slot.(otherRefs := slot.otherRefs - 1)];
          }
          PutObject(s);
        case Fence =>
          if won {
            PutObject(s);
          }
        case Timeline =>
          if won {
            slots := slots[i := slot.(otherRefs := slot.otherRefs - 1)];
            PutObject(s);
          }
      }
      m := Apply(m, Return(i));
    }

    /** A callback from start to end, nothing coming in between: `_timestamp_signaled`,
        `drawobj_sync_fence_func`, or the timeline callback with its work. */
    method Callback(i: nat)
      requires Valid() && Enabled(m, Fire(i))
      modifies this
      ensures Valid() && m == Apply(Apply(old(m), Fire(i)), Return(i))
    {
      hide Inv, Shown;
      ghost var s := m;
      PendingShown();
      FireChanges(s, i);
      var won := Expire(i);
      FinishCallback(i, won);
    }

    // Destruction. Callbacks may come between any two of the next three.

    /** The bit of the event the destroying thread has come to, taken if it is still set. */
    method TakeBit(i: nat) returns (won: bool)
      requires Valid() && Enabled(m, Visit) && m.phase == Visiting(i)
      modifies this`pending, this`m
      ensures Valid() && m == Apply(old(m), Visit)
      ensures won == old(m).events[i].pending
      ensures won == old(pending)[i] && pending == old(pending)[i := false]
    {
      hide Inv;
      StepKeepsInv(m, Visit);
      won := pending[i];
      if won {
        UpdatedIsShown(slots, pending, m.events, i, m.events[i].(pending := false, cancelling := true));
        assert slots[i := slots[i].(otherRefs := m.events[i].otherRefs)] == slots;
        pending := pending[i := false];
      }
      m := Apply(m, Visit);
    }

    /** The event whose bit was taken is cancelled. */
    method CancelEventAt(i: nat)
      requires Valid() && Enabled(m, FinishCancel) && m.phase == Visiting(i)
      modifies this`slots, this`refcount, this`freed, this`m
      ensures Valid() && m == Apply(old(m), FinishCancel)
      ensures PartsGiven(old(slots), old(refcount), old(freed), i,
                         old(slots)[i].kind != Timestamp, old(slots)[i].kind != Fence)
    {
      hide Inv, Shown;
      SlotShown(slots, pending, m.events, i);
      StepKeepsInv(m, FinishCancel);
      ghost var e := CancelEvent(m.events[i]);
      GivenIsShown(slots, pending, m.events, i, e);
      ghost var s := m.(phase := Visiting(i + 1), events := m.events[i := e]);
      var slot := slots[i];
      match slot.kind {
        case Timestamp =>
          slots := slots[i := slot.(otherRefs := slot.otherRefs - 1)];
        case Fence =>
          PutObject(s);
        case Timeline =>
          slots := slots[i := slot.(otherRefs := slot.otherRefs - 1)];
          PutObject(s);
      }
      m := Apply(m, FinishCancel);
    }

    /** The reference of the queue goes last. */
    method DropQueueReference()
      requires Valid() && Enabled(m, DropQueueRef)
      modifies this`slots, this`refcount, this`freed, this`m
      ensures Valid() && m == Apply(old(m), DropQueueRef)
      ensures refcount == old(refcount) - 1 && freed == old(freed) + if refcount == 0 then 1 else 0
      ensures slots == if refcount == 0 then Emptied(old(slots)) else old(slots)
    {
      hide Inv, Shown;
      StepKeepsInv(m, DropQueueRef);
      PutObject(m.(phase := Destroyed));
      m := Apply(m, DropQueueRef);
    }

    /** `hgsl_drawobj_destroy` with no callback coming in between: every event is visited,
        no bit is left set, and the check behind the loop never hands the context to its
        dispatcher. */
    method Destroy()
      requires Valid() && m.phase == Alive
      modifies this
      ensures Valid() && m == CancelAll(old(m))
      ensures NonePending(pending) && scheduled == old(scheduled)
    {
      hide Inv, Shown, CancelRest, CancelOne, NonePending, Apply, PartsGiven;
      ghost var s := m;
      DestroyStarts(m);
      m := StartedDestroy(m);
      var i: nat := 0;
      PendingShown();
      while i < |slots|
        invariant Valid() && m.phase == Visiting(i) && i <= |m.events| == |slots| && Undisturbed(m)
        invariant CancelRest(m) == CancelRest(StartedDestroy(s))
        invariant scheduled == old(scheduled)
        decreases |slots| - i
      {
        CancelSteps(m, i);
        var won := TakeBit(i);
        if won {
          CancelEventAt(i);
        }
        i := i + 1;
        PendingShown();
      }
      CancelRestDone(m);
      PendingShown();
      NoneIsPending(pending);
      scheduled := scheduled + if NonePending(pending) then 0 else 1;
      DropQueueReference();
    }

    lemma PendingShown()
      requires Valid()
      ensures |pending| == |slots| == |m.events| && forall i :: 0 <= i < |pending| ==> pending[i] == m.events[i].pending
    {
    }
  }

  lemma NoneIsPending(pending: seq<bool>)
    requires forall i :: 0 <= i < |pending| ==> !pending[i]
    ensures NonePending(pending)
  {
  }

  lemma FireChanges(s: State, i: nat)
    requires i < |s.events|
    ensures Update(s, i, FireEvent(s.events[i])) == s.(events := s.events[i := FireEvent(s.events[i])])
    ensures FireEvent(s.events[i]).callback in {Won, Lost}
    ensures FireEvent(s.events[i]).callback == Won <==> s.events[i].pending
  {
  }
}
