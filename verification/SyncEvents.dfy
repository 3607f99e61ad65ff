/** One sync object, its asynchronous events and the threads that race over them
    (`hgsl_drawobj.c`).

    A step is what one thread does between two accesses to shared state. The atomic
    test-and-clear of the pending bit decides who owns an event: the callback that
    fires, or the thread that destroys the object. */
module SyncEvents {

  const MAX_SYNCPOINTS: int := 32   // HGSL_MAX_SYNCPOINTS

  datatype Kind = Timestamp | Fence | Timeline

  /** A callback is armed, has won or lost the pending bit, or is over; a fence callback
      can also be taken off before it runs. */
  datatype Callback = Armed | Won | Lost | Over | Removed

  /** How arming an event ended. */
  datatype Arming = Registered | AlreadySignaled | Failed

  /** `objRefs` and `otherRefs` count the references taken for this event and not given
      back: on the draw object, and on the context or fence it waits for. */
  datatype Event = Event(
    kind: Kind, arming: Arming, pending: bool, callback: Callback, cancelling: bool,
    objRefs: int, otherRefs: int)

  /** Progress of the destroying thread. */
  datatype Phase = Alive | Visiting(index: nat) | Destroyed

  datatype State = State(refcount: int, freed: nat, phase: Phase, events: seq<Event>)

  datatype Action =
    | Register(kind: Kind, arming: Arming)
    | Fire(index: nat)
    | Return(index: nat)
    | StartDestroy
    | Visit
    | FinishCancel
    | DropQueueRef

  function Create(): State { State(1, 0, Alive, []) }

  // ---- references ----

  /** `syncobj_destroy_object` gives back the fences still held by fence handles. */
  function ReleaseHandles(events: seq<Event>): (r: seq<Event>)
    ensures |r| == |events|
    ensures forall k :: 0 <= k < |r| ==>
              r[k] == if events[k].kind == Fence && events[k].arming == Registered
                      then events[k].(otherRefs := events[k].otherRefs - 1) else events[k]
  {
    seq(|events|, k requires 0 <= k < |events| =>
      if events[k].kind == Fence && events[k].arming == Registered
      then events[k].(otherRefs := events[k].otherRefs - 1) else events[k])
  }

  /** `hgsl_drawobj_put` */
  function Put(s: State): State {
    if s.refcount == 1 then State(0, s.freed + 1, s.phase, ReleaseHandles(s.events))
    else s.(refcount := s.refcount - 1)
  }

  // ---- steps ----

  /** The event as the `drawobj_add_sync_*` functions leave it. A timeline event whose
      callback could not be added to an unsignalled fence keeps one fence reference. */
  function Armed0(kind: Kind, arming: Arming): Event {
    match arming
    case Registered => Event(kind, arming, true, Armed, false, 1, 1)
    case AlreadySignaled => Event(kind, arming, false, Removed, false, 0, 0)
    case Failed => Event(kind, arming, false, Removed, false, 0, if kind == Timeline then 1 else 0)
  }

  predicate Enabled(s: State, a: Action) {
    match a
    case Register(kind, arming) =>
      s.phase == Alive && |s.events| < MAX_SYNCPOINTS && (kind == Timestamp ==> arming != AlreadySignaled)
    case Fire(i) => i < |s.events| && s.events[i].callback == Armed
    case Return(i) => i < |s.events| && s.events[i].callback in {Won, Lost}
    case StartDestroy => s.phase == Alive
    case Visit =>
      s.phase.Visiting? && s.phase.index < |s.events| && !s.events[s.phase.index].cancelling
    case FinishCancel =>
      // removing a fence callback waits for one that is running
      && s.phase.Visiting? && s.phase.index < |s.events| && s.events[s.phase.index].cancelling
      && (s.events[s.phase.index].kind == Timestamp || s.events[s.phase.index].callback != Lost)
    case DropQueueRef => s.phase.Visiting? && s.phase.index == |s.events|
  }

  /** `drawobj_sync_expire`: the callback takes the pending bit if it is still set. */
  function FireEvent(e: Event): Event {
    e.(pending := false, callback := if e.pending then Won else Lost)
  }

  /** What the destroying thread does for an event it took the bit of. */
  function CancelEvent(e: Event): Event {
    match e.kind
    case Timestamp => e.(cancelling := false, otherRefs := e.otherRefs - 1)
    case Fence =>
      e.(cancelling := false, objRefs := e.objRefs - 1, callback := if e.callback == Armed then Removed else e.callback)
    case Timeline =>
      e.(cancelling := false, objRefs := e.objRefs - 1, otherRefs := e.otherRefs - 1,
         callback := if e.callback == Armed then Removed else e.callback)
  }

  /** The rest of a callback, and of the work a timeline callback queues. */
  function ReturnEvent(e: Event): Event {
    var won := e.callback == Won;
    match e.kind
    case Timestamp =>
      e.(callback := Over, objRefs := e.objRefs - 1, otherRefs := if won then e.otherRefs - 1 else e.otherRefs)
    case Fence => e.(callback := Over, objRefs := if won then e.objRefs - 1 else e.objRefs)
    case Timeline =>
      e.(callback := Over, objRefs := if won then e.objRefs - 1 else e.objRefs,
         otherRefs := if won then e.otherRefs - 1 else e.otherRefs)
  }

  function Update(s: State, i: nat, e: Event): State
    requires i < |s.events|
  {
    var t := s.(events := s.events[i := e]);
    if e.objRefs < s.events[i].objRefs then Put(t) else t
  }

  function Apply(s: State, a: Action): State
    requires Enabled(s, a)
  {
    match a
    case Register(kind, arming) =>
      var e := Armed0(kind, arming);
      s.(events := s.events + [e], refcount := s.refcount + e.objRefs)
    case Fire(i) => Update(s, i, FireEvent(s.events[i]))
    case Return(i) => Update(s, i, ReturnEvent(s.events[i]))
    case StartDestroy => s.(phase := Visiting(0))
    case Visit =>
      var i := s.phase.index;
      if s.events[i].pending then s.(events := s.events[i := s.events[i].(pending := false, cancelling := true)])
      else s.(phase := Visiting(i + 1))
    case FinishCancel =>
      var i := s.phase.index;
      Update(s.(phase := Visiting(i + 1)), i, CancelEvent(s.events[i]))
    case DropQueueRef => Put(s.(phase := Destroyed))
  }

  // ---- the invariant ----

  /** References an event holds, by who owns it and how far they got. `visited` is
      whether the destroying thread is past it. */
  ghost predicate EventOk(e: Event, visited: bool, freed: bool) {
    var fence := if e.kind == Fence && e.arming == Registered && !freed then 1 else 0;
    if e.arming != Registered then
      && !e.pending && e.callback == Removed && !e.cancelling && e.objRefs == 0
      && e.otherRefs == (if e.kind == Timeline && e.arming == Failed then 1 else 0)
    else if e.pending then
      e.callback == Armed && !e.cancelling && !visited && e.objRefs == 1 && e.otherRefs == 1
    else if e.cancelling then
      && !visited && e.otherRefs == 1
      && match e.kind
         case Timestamp => e.callback in {Armed, Lost, Over} && e.objRefs == (if e.callback == Over then 0 else 1)
         case _ => e.callback in {Armed, Lost, Over} && e.objRefs == 1
    else match e.callback
      case Won => e.objRefs == 1 && e.otherRefs == 1
      case Over => e.objRefs == 0 && e.otherRefs == fence
      case Removed => visited && e.kind != Timestamp && e.objRefs == 0 && e.otherRefs == fence
      case _ => visited && e.kind == Timestamp && e.objRefs == 1 && e.otherRefs == 0
  }

  /** Draw-object references held for all events. */
  ghost function Held(events: seq<Event>): int {
    if events == [] then 0 else events[0].objRefs + Held(events[1..])
  }

  ghost predicate Visited(s: State, i: nat) {
    s.phase == Destroyed || (s.phase.Visiting? && i < s.phase.index)
  }

  ghost predicate Inv(s: State) {
    && (s.phase.Visiting? ==> s.phase.index <= |s.events|)
    && (forall i :: 0 <= i < |s.events| ==> EventOk(s.events[i], Visited(s, i), s.freed > 0))
    && (forall i :: 0 <= i < |s.events| && s.events[i].cancelling ==> s.phase == Visiting(i))
    && s.refcount == (if s.phase == Destroyed then 0 else 1) + Held(s.events)
    && s.freed == (if s.refcount == 0 then 1 else 0)
  }

  lemma {:induction false} HeldUpdate(events: seq<Event>, i: nat, e: Event)
    requires i < |events|
    ensures Held(events[i := e]) == Held(events) - events[i].objRefs + e.objRefs
    decreases |events|
  {
    if i > 0 {
      HeldUpdate(events[1..], i - 1, e);
      assert events[i := e][1..] == events[1..][i - 1 := e];
    } else {
      assert events[i := e][1..] == events[1..];
    }
  }

  lemma {:induction false} HeldAppend(events: seq<Event>, e: Event)
    ensures Held(events + [e]) == Held(events) + e.objRefs
    decreases |events|
  {
    if events != [] {
      HeldAppend(events[1..], e);
      assert (events + [e])[1..] == events[1..] + [e];
    }
  }

  /** Events never hold a negative number of references, and hold none exactly when
      each holds none. */
  lemma {:induction false} HeldBounds(events: seq<Event>)
    requires forall i :: 0 <= i < |events| ==> events[i].objRefs >= 0
    ensures Held(events) >= 0
    ensures Held(events) == 0 <==> forall i :: 0 <= i < |events| ==> events[i].objRefs == 0
    ensures forall i :: 0 <= i < |events| ==> events[i].objRefs <= Held(events)
    decreases |events|
  {
    if events != [] {
      var rest := events[1..];
      assert forall i :: 0 <= i < |rest| ==> rest[i] == events[i + 1];
      HeldBounds(rest);
      assert forall i :: 1 <= i < |events| ==> events[i] == rest[i - 1];
    }
  }

  lemma {:induction false} HeldReleased(events: seq<Event>, released: seq<Event>)
    requires |released| == |events| && forall i :: 0 <= i < |events| ==> released[i].objRefs == events[i].objRefs
    ensures Held(released) == Held(events)
    decreases |events|
  {
    if events != [] {
      HeldReleased(events[1..], released[1..]);
    }
  }

  // ---- every step keeps it ----

  lemma FireEventOk(e: Event, visited: bool, freed: bool)
    requires EventOk(e, visited, freed) && e.callback == Armed
    ensures EventOk(FireEvent(e), visited, freed) && FireEvent(e).objRefs == e.objRefs
  {}

  lemma ReturnEventOk(e: Event, visited: bool)
    requires EventOk(e, visited, false) && e.callback in {Won, Lost}
    ensures EventOk(ReturnEvent(e), visited, false)
    ensures e.objRefs - 1 <= ReturnEvent(e).objRefs <= e.objRefs
  {}

  lemma CancelEventOk(e: Event)
    requires EventOk(e, false, false) && e.cancelling && (e.kind == Timestamp || e.callback != Lost)
    ensures EventOk(CancelEvent(e), true, false) && !CancelEvent(e).cancelling
    ensures e.objRefs - 1 <= CancelEvent(e).objRefs <= e.objRefs
  {}

  /** Once the object is freed no event holds a reference on it. */
  lemma FreedHasNoHolder(s: State)
    requires Inv(s) && s.freed > 0
    ensures s.phase == Destroyed && s.refcount == 0
    ensures forall i :: 0 <= i < |s.events| ==>
              var e := s.events[i];
              !e.pending && !e.cancelling && e.objRefs == 0 && e.callback in {Over, Removed}
  {
    HeldBounds(s.events);
    forall i | 0 <= i < |s.events|
      ensures var e := s.events[i]; !e.pending && !e.cancelling && e.objRefs == 0 && e.callback in {Over, Removed}
    {
      assert EventOk(s.events[i], Visited(s, i), true);
    }
  }

  /** Putting one reference back: `s` counts one more than its holders. */
  lemma PutKeepsInv(s: State)
    requires s.phase.Visiting? ==> s.phase.index <= |s.events|
    requires forall i :: 0 <= i < |s.events| ==> EventOk(s.events[i], Visited(s, i), false)
    requires forall i :: 0 <= i < |s.events| && s.events[i].cancelling ==> s.phase == Visiting(i)
    requires s.refcount == (if s.phase == Destroyed then 0 else 1) + Held(s.events) + 1 && s.freed == 0
    ensures Inv(Put(s))
  {
    HeldBounds(s.events);
    if s.refcount == 1 {
      var t := Put(s);
      HeldReleased(s.events, t.events);
      forall i | 0 <= i < |t.events| ensures EventOk(t.events[i], Visited(t, i), true) {
        assert EventOk(s.events[i], Visited(s, i), false);
      }
    }
  }

  /** One event moves on, and perhaps the destroying thread with it. */
  lemma UpdateKeepsInv(s: State, phase: Phase, i: nat, e: Event)
    requires Inv(s) && s.freed == 0 && i < |s.events|
    requires phase == s.phase || (s.phase == Visiting(i) && phase == Visiting(i + 1) && !e.cancelling)
    requires EventOk(e, Visited(s.(phase := phase), i), false)
    requires e.cancelling ==> phase == Visiting(i)
    requires s.events[i].objRefs - 1 <= e.objRefs <= s.events[i].objRefs
    ensures Inv(Update(s.(phase := phase), i, e))
  {
    var t := s.(phase := phase, events := s.events[i := e]);
    HeldUpdate(s.events, i, e);
    forall k | 0 <= k < |t.events| ensures EventOk(t.events[k], Visited(t, k), false) {
      if k != i {
        assert EventOk(s.events[k], Visited(s, k), false);
      }
    }
    if e.objRefs < s.events[i].objRefs {
      PutKeepsInv(t);
    }
  }

  lemma ReferencedIsNotFreed(s: State, i: nat)
    requires Inv(s) && i < |s.events|
    requires s.phase != Destroyed || s.events[i].callback in {Armed, Won, Lost}
    ensures s.freed == 0
  {
    if s.freed > 0 {
      FreedHasNoHolder(s);
    }
  }

  lemma StepKeepsInv(s: State, a: Action)
    requires Inv(s) && Enabled(s, a)
    ensures Inv(Apply(s, a))
  {
    match a
    case Register(kind, arming) =>
      var e := Armed0(kind, arming);
      HeldAppend(s.events, e);
      HeldBounds(s.events);
      assert EventOk(e, false, false);
    case Fire(i) =>
      ReferencedIsNotFreed(s, i);
      FireEventOk(s.events[i], Visited(s, i), false);
      UpdateKeepsInv(s, s.phase, i, FireEvent(s.events[i]));
    case Return(i) =>
      ReferencedIsNotFreed(s, i);
      ReturnEventOk(s.events[i], Visited(s, i));
      UpdateKeepsInv(s, s.phase, i, ReturnEvent(s.events[i]));
    case StartDestroy =>
      assert forall i :: 0 <= i < |s.events| ==> EventOk(s.events[i], false, s.freed > 0);
    case Visit => VisitKeepsInv(s);
    case FinishCancel =>
      var i := s.phase.index;
      ReferencedIsNotFreed(s, i);
      CancelEventOk(s.events[i]);
      UpdateKeepsInv(s, Visiting(i + 1), i, CancelEvent(s.events[i]));
    case DropQueueRef =>
      if s.freed > 0 {
        FreedHasNoHolder(s);
      }
      PutKeepsInv(s.(phase := Destroyed));
  }

  lemma VisitKeepsInv(s: State)
    requires Inv(s) && Enabled(s, Visit)
    ensures Inv(Apply(s, Visit))
  {
    var i := s.phase.index;
    var e := s.events[i];
    ReferencedIsNotFreed(s, i);
    if e.pending {
      UpdateKeepsInv(s, s.phase, i, e.(pending := false, cancelling := true));
    } else {
      UpdateKeepsInv(s, Visiting(i + 1), i, e);
      assert s.events[i := e] == s.events;
    }
  }

  // ---- runs ----

  ghost predicate Run(ss: seq<State>, acts: seq<Action>) {
    && |ss| == |acts| + 1 && ss[0] == Create()
    && forall i :: 0 <= i < |acts| ==> Enabled(ss[i], acts[i]) && ss[i + 1] == Apply(ss[i], acts[i])
  }

  lemma {:induction false} RunKeepsInv(ss: seq<State>, acts: seq<Action>, i: nat)
    requires Run(ss, acts) && i < |ss|
    ensures Inv(ss[i])
  {
    if i > 0 {
      RunKeepsInv(ss, acts, i - 1);
      StepKeepsInv(ss[i - 1], acts[i - 1]);
    }
  }

  /** An event as it may look later: its bit is never set again and no count grows. */
  ghost predicate Later(e: Event, f: Event) {
    && e.kind == f.kind && e.arming == f.arming
    && (f.pending ==> e.pending)
    && f.objRefs <= e.objRefs && f.otherRefs <= e.otherRefs
    && (e.callback in {Over, Removed} ==> f.callback == e.callback)
  }

  lemma UpdateIsLater(s: State, i: nat, e: Event, k: nat)
    requires i < |s.events| && k < |s.events| && (k == i ==> Later(s.events[i], e))
    ensures |Update(s, i, e).events| == |s.events| && Later(s.events[k], Update(s, i, e).events[k])
  {}

  lemma StepIsLater(s: State, a: Action, k: nat)
    requires Inv(s) && Enabled(s, a) && k < |s.events|
    ensures k < |Apply(s, a).events| && Later(s.events[k], Apply(s, a).events[k])
  {
    hide Update;
    assert EventOk(s.events[k], Visited(s, k), s.freed > 0);
    match a
    case Fire(i) => UpdateIsLater(s, i, FireEvent(s.events[i]), k);
    case Return(i) => UpdateIsLater(s, i, ReturnEvent(s.events[i]), k);
    case FinishCancel =>
      var i := s.phase.index;
      UpdateIsLater(s.(phase := Visiting(i + 1)), i, CancelEvent(s.events[i]), k);
    case _ =>
  }

  lemma CountsAreBits(s: State, k: nat)
    requires Inv(s) && k < |s.events|
    ensures 0 <= s.events[k].objRefs <= 1 && 0 <= s.events[k].otherRefs <= 1
  {
    assert EventOk(s.events[k], Visited(s, k), s.freed > 0);
  }

  /** In every interleaving of fire, cancel and destroy each event gives back its draw
      object reference and its context or fence reference at most once: a count starts
      at one, never rises and never drops below zero. */
  lemma {:induction false} ReferencesComeBackOnce(ss: seq<State>, acts: seq<Action>, i: nat, j: nat, k: nat)
    requires Run(ss, acts) && i <= j < |ss| && k < |ss[i].events|
    ensures k < |ss[j].events| && Later(ss[i].events[k], ss[j].events[k])
    ensures 0 <= ss[j].events[k].objRefs <= 1 && 0 <= ss[j].events[k].otherRefs <= 1
    decreases j
  {
    hide Inv, Apply, Enabled;
    RunKeepsInv(ss, acts, j);
    if i < j {
      ReferencesComeBackOnce(ss, acts, i, j - 1, k);
      RunKeepsInv(ss, acts, j - 1);
      StepIsLater(ss[j - 1], acts[j - 1], k);
    }
    CountsAreBits(ss[j], k);
  }

  /** No callback can start or is running. */
  ghost predicate Quiet(s: State) {
    forall i :: 0 <= i < |s.events| ==> s.events[i].callback in {Over, Removed}
  }

  /** In every interleaving the object is freed at most once, exactly when its count
      reaches zero, and then nobody holds it: no event is pending, being cancelled, or
      in a callback. */
  lemma FreedOnceWithNoHolder(ss: seq<State>, acts: seq<Action>, i: nat)
    requires Run(ss, acts) && i < |ss|
    ensures ss[i].freed <= 1 && (ss[i].freed == 1 <==> ss[i].refcount == 0) && ss[i].refcount >= 0
    ensures ss[i].freed == 1 ==> ss[i].phase == Destroyed && Quiet(ss[i])
    ensures ss[i].freed == 1 ==>
              forall k :: 0 <= k < |ss[i].events| ==>
                var e := ss[i].events[k]; !e.pending && !e.cancelling && e.objRefs == 0
  {
    RunKeepsInv(ss, acts, i);
    assert forall k :: 0 <= k < |ss[i].events| ==> EventOk(ss[i].events[k], Visited(ss[i], k), ss[i].freed > 0);
    HeldBounds(ss[i].events);
    if ss[i].freed > 0 {
      FreedHasNoHolder(ss[i]);
    }
  }

  /** When the destroying thread is done and every callback is over, the object has been
      freed and every reference is back, except the fence reference of a timeline event
      whose callback was refused by an unsignalled fence: that one is never put. */
  lemma QuietMeansAllReferencesBack(ss: seq<State>, acts: seq<Action>, i: nat)
    requires Run(ss, acts) && i < |ss| && ss[i].phase == Destroyed && Quiet(ss[i])
    ensures ss[i].freed == 1 && ss[i].refcount == 0
    ensures forall k :: 0 <= k < |ss[i].events| ==>
              && ss[i].events[k].objRefs == 0
              && (ss[i].events[k].otherRefs != 0 <==>
                    ss[i].events[k].kind == Timeline && ss[i].events[k].arming == Failed)
  {
    RunKeepsInv(ss, acts, i);
    var s := ss[i];
    assert forall k :: 0 <= k < |s.events| ==> EventOk(s.events[k], true, s.freed > 0);
    HeldBounds(s.events);
  }

  /** Every event was registered by some step, the way it says. */
  lemma {:induction false} RegisteredOnce(ss: seq<State>, acts: seq<Action>, i: nat, k: nat) returns (j: nat)
    requires Run(ss, acts) && i < |ss| && k < |ss[i].events|
    ensures j < i && acts[j] == Register(ss[i].events[k].kind, ss[i].events[k].arming)
  {
    hide Inv, EventOk;
    RunKeepsInv(ss, acts, i - 1);
    assert Enabled(ss[i - 1], acts[i - 1]) && ss[i] == Apply(ss[i - 1], acts[i - 1]);
    if k < |ss[i - 1].events| {
      StepIsLater(ss[i - 1], acts[i - 1], k);
      j := RegisteredOnce(ss, acts, i - 1, k);
    } else {
      OnlyRegisterAdds(ss[i - 1], acts[i - 1]);
      j := i - 1;
    }
  }

  lemma OnlyRegisterAdds(s: State, a: Action)
    requires Enabled(s, a)
    ensures a.Register? ==> Apply(s, a).events == s.events + [Armed0(a.kind, a.arming)]
    ensures !a.Register? ==> |Apply(s, a).events| == |s.events|
  {}

  /** A fence refuses a callback only once it has signalled. As long as that is so, every
      reference is back when all is over. */
  lemma AllReferencesComeBack(ss: seq<State>, acts: seq<Action>, i: nat)
    requires Run(ss, acts) && i < |ss| && ss[i].phase == Destroyed && Quiet(ss[i])
    requires forall j :: 0 <= j < |acts| ==> acts[j] != Register(Timeline, Failed)
    ensures ss[i].freed == 1 && ss[i].refcount == 0
    ensures forall k :: 0 <= k < |ss[i].events| ==> ss[i].events[k].objRefs == 0 && ss[i].events[k].otherRefs == 0
  {
    QuietMeansAllReferencesBack(ss, acts, i);
    forall k | 0 <= k < |ss[i].events| ensures ss[i].events[k].otherRefs == 0 {
      var j := RegisteredOnce(ss, acts, i, k);
    }
  }

  /** After the cancel loop no bit is left set, so the check behind it that would
      schedule the context never finds one. */
  lemma NothingPendingAfterVisiting(ss: seq<State>, acts: seq<Action>, i: nat, k: nat)
    requires Run(ss, acts) && i < |ss| && k < |ss[i].events|
    requires ss[i].phase == Visiting(|ss[i].events|)
    ensures !ss[i].events[k].pending
  {
    RunKeepsInv(ss, acts, i);
    assert EventOk(ss[i].events[k], Visited(ss[i], k), ss[i].freed > 0);
  }
}
