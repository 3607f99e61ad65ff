/** The draw queue of a context as the driver keeps it: a ring of 128 slots, 32-bit
    timestamp registers, and code that looks only at those (`hgsl_dispatch.c`).

    The ghost field `m` is the state of `DispatchModel`; every method moves it by the
    steps of that model, so the theorems about runs hold of this code. */
module DispatchContext {
  import opened Timestamps
  import opened DispatchModel
  import opened DispatchRuns
  import opened DispatchBatches
  import opened Units

  const EINVAL: int := -22
  const ERESTARTSYS: int := -512
  const ENOENT: int := -2
  const EAGAIN: int := -11

  /** What a caller meets at the door. */
  datatype Door = Closed | Open | Sleeping

  /** How the sleep for room ended: time ran out, it was interrupted, or room appeared with
      `left` ticks to spare. */
  datatype Wake = TimedOut | Interrupted | Woken(left: int)

  datatype Scan = Nothing | Blocked | Found(obj: DrawObj)

  /** The draw object with its times as the driver stores them. */
  function Stored(o: DrawObj): DrawObj {
    match o
    case Cmd(id, time) => Cmd(id, Wrap32(time))
    case Marker(id, time, markerTime, skip, flagged) =>
      Marker(id, Wrap32(time), Wrap32(markerTime), skip, flagged)
    case Sync(_) => o
    case Timeline(_) => o
  }

  /** Index of the slot `k` places after `head`. */
  function Slot(head: nat, k: nat): (r: nat)
    requires head < 128 && k <= 128
    ensures r < 128 && r == (head + k) % 128
  {
    if head + k < 128 then head + k else head + k - 128
  }

  function NextSlot(i: nat): nat { (i + 1) % 128 }

  lemma SlotZero(i: nat)
    requires i < 128
    ensures Slot(i, 0) == i
  {}

  lemma SlotBefore(prev: nat, head: nat, k: nat)
    requires head < 128 && k <= 127 && prev == (if head == 0 then 127 else head - 1)
    ensures Slot(prev, k + 1) == Slot(head, k) && (Slot(head, k) == prev <==> k == 127)
  {}

  lemma SlotAfter(head: nat, n: nat)
    requires head < 128 && 1 <= n <= 127
    ensures NextSlot(head) < 128 && Slot(head, 0) == head
    ensures forall k {:trigger Slot(NextSlot(head), k)} :: 0 <= k < n ==> Slot(NextSlot(head), k) == Slot(head, k + 1)
  {}

  /** What the scan leaves: everything that can retire at the head has. */
  ghost function Scanned(s: State): (r: State)
    ensures r.sending == s.sending && r.inDestroy == s.inDestroy && !HeadRetires(r) && |r.out| <= |s.out|
    decreases |s.out|
  {
    if HeadRetires(s) then Scanned(RetireFirst(s)) else s
  }

  lemma ScannedStep(s: State)
    ensures HeadRetires(s) ==>
              var t := RetireFirst(s); Scanned(s) == Scanned(t) && |t.out| < |s.out| && t.sending == s.sending
    ensures !HeadRetires(s) ==> Scanned(s) == s
  {}

  // ---- the methods of the dispatcher as runs of the model ----

  /** The scan takes steps that retire the head, and no others. */
  lemma {:induction false} ScanLeads(s: State) returns (acts: seq<Action>)
    requires !s.sending
    ensures Leads(s, acts, Scanned(s)) && forall a <- acts :: a.RetireHead?
    decreases |s.out|
  {
    acts := [];
    if HeadRetires(s) {
      var rest := ScanLeads(RetireFirst(s));
      acts := [RetireHead] + rest;
      assert acts[1..] == rest;
    }
  }

  /** A burst: what `hgsl_dispatch_sendcmds` does from state `s` with `k` objects sent
      already, `send(k)` being the result of the next sending. */
  datatype Burst = Burst(state: State, ret: int)

  ghost function RunBurst(s: State, send: nat -> int, k: nat): Burst
    requires !s.sending
    decreases |s.out|
  {
    var t := Scanned(s);
    if !HeadIsReady(t) then Burst(t, if t.out == [] then k else EAGAIN)
    else
      var p := Apply(t, Pop);
      if send(k) == 0 then RunBurst(Apply(p, SendOk), send, k + 1)
      else if send(k) == ENOENT then Burst(Apply(p, SendGone), ENOENT)
      else Burst(Apply(p, SendFail), send(k))
  }

  lemma RunBurstStep(s: State, send: nat -> int, k: nat)
    requires !s.sending
    ensures var t := Scanned(s);
            if !HeadIsReady(t) then RunBurst(s, send, k) == Burst(t, if t.out == [] then k else EAGAIN)
            else
              var p := Apply(t, Pop);
              && p.sending
              && if send(k) == 0 then
                && RunBurst(s, send, k) == RunBurst(Apply(p, SendOk), send, k + 1)
                && |Apply(p, SendOk).out| < |s.out| && !Apply(p, SendOk).sending
              else if send(k) == ENOENT then RunBurst(s, send, k) == Burst(Apply(p, SendGone), ENOENT)
              else RunBurst(s, send, k) == Burst(Apply(p, SendFail), send(k))
  {
  }

  /** How many of the steps are successful sendings. */
  function Sends(acts: seq<Action>): nat {
    if acts == [] then 0 else Sends(acts[..|acts| - 1]) + if acts[|acts| - 1].SendOk? then 1 else 0
  }

  lemma {:induction false} SendsAppend(a: seq<Action>, b: seq<Action>)
    ensures Sends(a + b) == Sends(a) + Sends(b)
    decreases |b|
  {
    if b == [] {
      assert a + b == a;
    } else {
      SendsAppend(a, b[..|b| - 1]);
      assert (a + b)[..|a + b| - 1] == a + b[..|b| - 1];
    }
  }

  lemma {:induction false} NoSends(acts: seq<Action>)
    requires forall a <- acts :: !a.SendOk?
    ensures Sends(acts) == 0
  {
    if acts != [] {
      NoSends(acts[..|acts| - 1]);
    }
  }

  /** Why a burst that starts with its `k`-th sending ends after `n` successful ones: the queue
      is empty; or its head is blocked; or the next sending fails, and its object is dropped
      with its context or put back. */
  ghost predicate EndsRightly(t: State, ret: int, acts: seq<Action>, send: nat -> int, k: nat, n: nat) {
    && (forall j :: k <= j < k + n ==> send(j) == 0)
    && (|| (t.out == [] && ret == k + n)
        || (t.out != [] && !HeadRetires(t) && !HeadIsReady(t) && ret == EAGAIN)
        || (&& send(k + n) != 0 && ret == send(k + n)
            && acts != [] && acts[|acts| - 1] == if send(k + n) == ENOENT then SendGone else SendFail))
  }

  /** A burst is a run of dispatcher steps, so every theorem about runs holds of it. It goes on
      until the queue is empty or blocked or a sending fails; it returns 0 only if it sent
      nothing and left the queue empty. */
  lemma {:induction false} BurstLeads(s: State, send: nat -> int, k: nat) returns (acts: seq<Action>)
    requires !s.sending
    ensures Leads(s, acts, RunBurst(s, send, k).state)
    ensures forall a <- acts :: a.RetireHead? || a.Pop? || a.SendOk? || a.SendGone? || a.SendFail?
    ensures EndsRightly(RunBurst(s, send, k).state, RunBurst(s, send, k).ret, acts, send, k, Sends(acts))
    ensures RunBurst(s, send, k).ret == 0 ==> k == 0 && Sends(acts) == 0 && RunBurst(s, send, k).state.out == []
    ensures !RunBurst(s, send, k).state.sending
    decreases |s.out|
  {
    hide RetireFirst, HeadRetires, HeadIsReady, Leads, Apply, Enabled, Scanned, RunBurst, Sends;
    RunBurstStep(s, send, k);
    var t := Scanned(s);
    acts := ScanLeads(s);
    NoSends(acts);
    if HeadIsReady(t) {
      var a := if send(k) == 0 then SendOk else if send(k) == ENOENT then SendGone else SendFail;
      SendEnabled(t, a);
      var p := Apply(t, Pop);
      LeadsOne(t, Pop);
      LeadsOn(s, acts, t, [Pop], p);
      LeadsOne(p, a);
      LeadsOn(s, acts + [Pop], p, [a], Apply(p, a));
      TwoMore(acts, a);
      acts := acts + [Pop] + [a];
      if send(k) == 0 {
        var rest := BurstLeads(Apply(p, a), send, k + 1);
        LeadsOn(s, acts, Apply(p, a), rest, RunBurst(s, send, k).state);
        SendsAppend(acts, rest);
        EndsLater(RunBurst(s, send, k).state, RunBurst(s, send, k).ret, acts, rest, send, k, Sends(rest));
        acts := acts + rest;
      }
    }
  }

  lemma TwoMore(acts: seq<Action>, a: Action)
    requires Sends(acts) == 0
    ensures Sends(acts + [Pop] + [a]) == if a.SendOk? then 1 else 0
  {
    assert (acts + [Pop])[..|acts|] == acts;
    assert (acts + [Pop] + [a])[..|acts| + 1] == acts + [Pop];
  }

  lemma SendEnabled(t: State, a: Action)
    requires !t.sending && HeadIsReady(t) && (a.SendOk? || a.SendGone? || a.SendFail?)
    ensures Enabled(t, Pop) && Enabled(Apply(t, Pop), a) && !Apply(Apply(t, Pop), a).sending
  {}

  lemma EndsLater(t: State, ret: int, acts: seq<Action>, rest: seq<Action>, send: nat -> int, k: nat, n: nat)
    requires send(k) == 0 && EndsRightly(t, ret, rest, send, k + 1, n)
    ensures EndsRightly(t, ret, acts + rest, send, k, n + 1)
  {
    hide HeadRetires, HeadIsReady;
    assert rest != [] ==> (acts + rest)[|acts + rest| - 1] == rest[|rest| - 1];
  }

  /** The registers decide as the unbounded times do. */
  lemma RegistersDecide(s: State)
    requires Inv(s)
    ensures Ts32Ge(Wrap32(s.retired), Wrap32(s.queued)) <==> s.retired >= s.queued
    ensures s.out != [] && s.out[0].Marker? ==>
              (Ts32Ge(Wrap32(s.retired), Wrap32(s.out[0].markerTime)) <==> s.retired >= s.out[0].markerTime)
  {
    Ts32GeAgreesWithOrder(s.retired, s.queued);
    if s.out != [] && s.out[0].Marker? {
      Ts32GeAgreesWithOrder(s.retired, s.out[0].markerTime);
    }
  }

  function NewState(shadow: bool, mode: Mode): State {
    State(shadow, mode, [], false, [], 0, 0, 0, map[], [], [], [], [], 0, multiset{}, false)
  }

  class Context {
    const shadow: bool
    const mode: Mode
    const drawq: array<DrawObj>
    var head: nat
    var tail: nat
    var queued: int
    var queuedTs: u32
    var sop: u32
    var eop: u32
    var pending: map<nat, set<nat>>
    var inDestroy: bool
    ghost var m: State

    /** The slots from head to tail store the objects `f`. */
    ghost predicate Ring(f: seq<DrawObj>)
      reads this`head, this`tail, drawq
    {
      && drawq.Length == 128 && head < 128 && |f| <= 127
      && tail == Slot(head, |f|)
      && forall k :: 0 <= k < |f| ==> drawq[Slot(head, k)] == Stored(f[k])
    }

    ghost predicate Registers(s: State)
      reads this
    {
      && queuedTs == Wrap32(s.queued) && sop == Wrap32(s.consumed) && eop == Wrap32(s.retired)
      && pending == s.pending && inDestroy == s.inDestroy && shadow == s.shadow && mode == s.mode
    }

    /** The slots from head to tail are those of the model, and `queued` counts what the model
        says it counts. */
    ghost predicate Valid()
      reads this, drawq
    {
      && Inv(m) && Ring(m.Fifo()) && Registers(m) && queued == m.Count()
    }

    lemma ValidBasics()
      requires Valid()
      ensures Inv(m) && mode == m.mode && queuedTs == Wrap32(m.queued) && inDestroy == m.inDestroy
      ensures mode != Unchecked && (m.sending ==> m.out != [])
    {}

    constructor (shadow: bool, mode: Mode)
      requires mode != Unchecked
      ensures Valid() && Init(m) && fresh(drawq) && this.shadow == shadow && this.mode == mode
    {
      hide Inv;
      this.shadow := shadow;
      this.mode := mode;
      drawq := new DrawObj[128](_ => Sync(0));
      head, tail, queued := 0, 0, 0;
      queuedTs, sop, eop := 0, 0, 0;
      pending, inDestroy := map[], false;
      m := NewState(shadow, mode);
      new;
      InitIsSound(m);
    }

    // ---- the ring ----

    /** `o` was put into the slot `at`, the tail then, when `count` objects were counted. */
    predicate PutInSlot(at: nat, count: int, o: DrawObj)
      reads this`tail, this`queued, drawq
    {
      at < drawq.Length && drawq[at] == o && tail == NextSlot(at) && queued == count + 1
    }

    /** `_pop_drawobj` */
    method PopDrawobj(ghost f: seq<DrawObj>)
      requires Ring(f) && f != []
      modifies this`head, this`queued
      ensures Ring(f[1..]) && head == NextSlot(old(head)) && queued == old(queued) - 1
    {
      SlotAfter(head, |f|);
      head := NextSlot(head);
      queued := queued - 1;
    }

    /** `_queue_drawobj`. On a ring with all 127 usable slots taken the tail catches up with the
        head, and the ring reads as empty. */
    method QueueDrawobj(o: DrawObj, ghost f: seq<DrawObj>, ghost x: DrawObj)
      requires Ring(f) && o == Stored(x)
      modifies this`tail, this`queued, drawq
      ensures PutInSlot(old(tail), old(queued), o)
      ensures Ring(if |f| == 127 then [] else f + [x])
      ensures tail == head <==> |f| == 127
    {
      drawq[tail] := o;
      tail := NextSlot(tail);
      queued := queued + 1;
    }

    /** `hgsl_dispatch_requeue_drawobj`: its warning fires, and the ring reads as empty
        afterwards, exactly if all 127 usable slots are taken. */
    method RequeueDrawobj(o: DrawObj, ghost f: seq<DrawObj>, ghost x: DrawObj)
      requires Ring(f) && o == Stored(x)
      modifies this`head, this`queued, drawq
      ensures queued == old(queued) + 1
      ensures head == tail <==> |f| == 127
      ensures head < drawq.Length && drawq[head] == o && NextSlot(head) == old(head)
      ensures Ring(if |f| == 127 then [] else [x] + f)
    {
      hide Stored, Slot;
      var prev := if head == 0 then 127 else head - 1;
      SlotBefore(prev, head, |f|);
      SlotZero(prev);
      drawq[prev] := o;
      queued := queued + 1;
      head := prev;
      if |f| < 127 {
        forall k | 0 <= k < |[x] + f| ensures drawq[Slot(prev, k)] == Stored(([x] + f)[k]) {
          if k > 0 {
            SlotBefore(prev, old(head), k - 1);
          }
        }
      } else {
        assert tail == Slot(prev, 0);
      }
    }

    /** The loop of `_queue_cmdobj` that sets the skip bit of every queued marker. */
    method ForceQueuedMarkers(ghost f: seq<DrawObj>)
      requires Ring(f)
      modifies drawq
      ensures Ring(ForceMarkers(f))
    {
      var j := head;
      ghost var done: nat := 0;
      while j != tail
        invariant done <= |f| && j == Slot(head, done)
        invariant forall k :: 0 <= k < |f| ==>
          drawq[Slot(head, k)] == Stored(if k < done then ForceMarkers(f)[k] else f[k])
        decreases |f| - done
      {
        if drawq[j].Marker? {
          drawq[j] := drawq[j].(skip := true);
        }
        j := NextSlot(j);
        done := done + 1;
      }
    }

    // ---- enqueue ----

    method QueueCmdobj(id: nat, given: u32) returns (code: int, stamp: u32)
      requires Valid() && id !in m.accepted
      requires var r := NextTimestamp(mode, queuedTs, given); r.Ok? ==> Lift(m.queued, r.value) - m.retired <= TWO31
      modifies this`tail, this`queued, this`queuedTs, this`m, drawq
      ensures var r := NextTimestamp(mode, old(queuedTs), given);
              if r.Err? then code == r.code && m == old(m)
              else code == 0 && stamp == r.value == queuedTs && m == QueueCmd(old(m), id, Lift(old(m).queued, r.value))
      ensures Valid()
      ensures code == 0 ==> PutInSlot(old(tail), old(queued), Cmd(id, stamp))
      ensures code != 0 ==> unchanged(`tail) && unchanged(`queued) && unchanged(`queuedTs)
    {
      hide Inv, NextTimestamp, Ts32Ge, Lift, Append;
      InvBasics(m);
      RefusalCode(m, given);
      stamp := 0;
      var r := NextTimestamp(mode, queuedTs, given);
      if r.Err? {
        return r.code, 0;
      }
      code, stamp := 0, r.value;
      ghost var t := Lift(m.queued, stamp);
      LiftWraps(m.queued, stamp);
      NextTimestampIsLater(mode, m.queued, given);
      AppendCmd(id, stamp, t);
    }

    /** The part of `_queue_cmdobj` for a command that has got its timestamp. */
    method AppendCmd(id: nat, stamp: u32, ghost t: int)
      requires Valid() && id !in m.accepted
      requires stamp == Wrap32(t) && m.queued < t <= m.retired + TWO31
      modifies this`tail, this`queued, this`queuedTs, this`m, drawq
      ensures Valid() && queuedTs == stamp && m == QueueCmd(old(m), id, t)
      ensures PutInSlot(old(tail), old(queued), Cmd(id, stamp))
    {
      hide Inv, QueueCmd, ForceMarkers, Stored, Slot;
      StoredCmd(id, t);
      InvBasics(m);
      QueueCmdShape(m, id, t);
      QueueCmdKeepsInv(m, id, t);
      ForceQueuedMarkers(m.Fifo());
      QueueDrawobj(Cmd(id, stamp), ForceMarkers(m.Fifo()), Cmd(id, t));
      queuedTs := stamp;
      m := QueueCmd(m, id, t);
    }

    method QueueMarkerobj(id: nat, flagged: bool, given: u32) returns (code: int, stamp: u32)
      requires Valid() && id !in m.accepted
      requires var r := NextTimestamp(mode, queuedTs, given);
               r.Ok? && !FastPath(m) ==> Lift(m.queued, r.value) - m.retired <= TWO31
      modifies this`tail, this`queued, this`queuedTs, this`sop, this`eop, this`m, drawq
      ensures var r := NextTimestamp(mode, old(queuedTs), given);
              if r.Err? then code == r.code && m == old(m)
              else code == (if FastPath(old(m)) then 1 else 0) && stamp == r.value == queuedTs
                   && m == QueueMarker(old(m), id, flagged, Lift(old(m).queued, r.value))
      ensures Valid()
      ensures code == 1 <==>
                && NextTimestamp(mode, old(queuedTs), given).Ok?
                && shadow && old(queued) == 0 && old(m).retired == old(m).queued
      ensures code == 1 ==> sop == eop == stamp && unchanged(`tail) && queued == 0
      ensures code == 0 ==> PutInSlot(old(tail), old(queued), Marker(id, stamp, old(queuedTs), !shadow, flagged))
      ensures code == 0 ==> unchanged(`sop) && unchanged(`eop)
    {
      hide Inv, NextTimestamp, Ts32Ge, Lift, Append;
      InvBasics(m);
      RefusalCode(m, given);
      stamp := 0;
      var r := NextTimestamp(mode, queuedTs, given);
      if r.Err? {
        return r.code, 0;
      }
      code, stamp := 0, r.value;
      ghost var t := Lift(m.queued, stamp);
      LiftWraps(m.queued, stamp);
      NextTimestampIsLater(mode, m.queued, given);
      RegistersDecide(m);
      if shadow && queued == 0 && Ts32Ge(eop, queuedTs) {
        FastMarkerKeepsInv(m, id, flagged, t);
        FastPathIsIdle(m);
        queuedTs, sop, eop := stamp, stamp, stamp;
        m := QueueMarker(m, id, flagged, t);
        return 1, stamp;
      }
      AppendMarker(id, flagged, stamp, t);
    }

    /** The part of `_queue_markerobj` for a marker that has to wait its turn. */
    method AppendMarker(id: nat, flagged: bool, stamp: u32, ghost t: int)
      requires Valid() && id !in m.accepted && !FastPath(m)
      requires stamp == Wrap32(t) && m.queued < t <= m.retired + TWO31
      modifies this`tail, this`queued, this`queuedTs, this`m, drawq
      ensures Valid() && queuedTs == stamp && m == QueueMarker(old(m), id, flagged, t)
      ensures PutInSlot(old(tail), old(queued), Marker(id, stamp, old(queuedTs), !shadow, flagged))
    {
      hide Inv, Ts32Ge, Lift, Append;
      InvBasics(m);
      ghost var o := Marker(id, t, m.queued, !shadow, flagged);
      QueueDrawobj(Marker(id, stamp, queuedTs, !shadow, flagged), m.Fifo(), o);
      queuedTs := stamp;
      QueueMarkerKeepsInv(m, id, flagged, t);
      FifoOfAppend(m.(queued := t), o);
      m := QueueMarker(m, id, flagged, t);
    }

    method QueueSyncobj(id: nat, events: set<nat>)
      requires Valid() && id !in m.accepted
      modifies this`tail, this`queued, this`pending, this`m, drawq
      ensures Valid() && m == QueueSync(old(m), id, events)
      ensures PutInSlot(old(tail), old(queued), Sync(id)) && pending == old(pending)[id := events]
    {
      hide Inv, QueueSync;
      InvBasics(m);
      QueueSyncShape(m, id, events);
      QueueSyncKeepsInv(m, id, events);
      QueueDrawobj(Sync(id), m.Fifo(), Sync(id));
      pending := pending[id := events];
      m := QueueSync(m, id, events);
    }

    method QueueTimelineobj(id: nat)
      requires Valid() && id !in m.accepted
      modifies this`tail, this`queued, this`m, drawq
      ensures Valid() && m == Append(old(m), Timeline(id))
      ensures PutInSlot(old(tail), old(queued), Timeline(id))
    {
      hide Inv, Append;
      InvBasics(m);
      QueueDrawobj(Timeline(id), m.Fifo(), Timeline(id));
      QueueTimelineKeepsInv(m, id);
      FifoOfAppend(m, Timeline(id));
      m := Append(m, Timeline(id));
    }

    /** `hgsl_dispatch_queue_cmds` up to its sleep for room, or to its end if there is room.
        The lock is dropped to sleep: other steps may come before `AfterSleep`. */
    method QueueCmds(batch: seq<Request>, given: u32) returns (door: Door, code: int, stamp: u32)
      requires Valid()
      requires 0 < |batch| <= 126 && !inDestroy && queued + |batch| <= 126 ==> CanTake(m, batch, given)
      modifies this`tail, this`queued, this`queuedTs, this`sop, this`eop, this`pending, this`m, drawq
      ensures Valid()
      ensures door.Closed? <==> |batch| == 0 || |batch| > 126 || old(inDestroy)
      ensures door.Open? <==> 0 < |batch| <= 126 && !old(inDestroy) && old(queued) + |batch| <= 126
      ensures door.Closed? ==> code == EINVAL && m == old(m)
      ensures door.Sleeping? ==> Enabled(old(m), Sleep(|batch|)) && m == Apply(old(m), Sleep(|batch|))
      ensures door.Open? ==>
                && Enabled(old(m), Queue(batch, given)) && m == Apply(old(m), Queue(batch, given))
                && code == Enqueue(old(m), batch, given).code && StampIs(batch, code, stamp)
                && RefusedRightly(old(m).queued, batch, given, code)
    {
      hide Inv, Enqueue, FreshIds, Ring;
      InvBasics(m);
      code, stamp := EINVAL, given;
      if |batch| == 0 || |batch| > 126 || inDestroy {
        return Closed, code, stamp;
      }
      if queued + |batch| > 126 {
        SleepIsEnabled(m, |batch|);
        m := m.(waiting := m.waiting + multiset{|batch|});
        return Sleeping, code, stamp;
      }
      door := Open;
      code, stamp := QueueBatch(batch, given);
    }

    /** The rest of `hgsl_dispatch_queue_cmds`, the lock being held again. After a sleep that
        timed out the batch goes in, whether or not there are slots for it and whatever has
        become of the context. */
    method AfterSleep(batch: seq<Request>, given: u32, wake: Wake) returns (code: int, stamp: u32)
      requires Valid() && |batch| in m.waiting
      requires wake.Woken? ==> wake.left > 0
      requires wake.TimedOut? ==> CanTake(Awake(m, |batch|), batch, given)
      modifies this`tail, this`queued, this`queuedTs, this`sop, this`eop, this`pending, this`m, drawq
      ensures Valid()
      ensures wake.TimedOut? ==>
                && Enabled(old(m), LateQueue(batch, given)) && m == Apply(old(m), LateQueue(batch, given))
                && code == Enqueue(Awake(old(m), |batch|), batch, given).code && StampIs(batch, code, stamp)
                && RefusedRightly(old(m).queued, batch, given, code)
      ensures !wake.TimedOut? ==>
                && Enabled(old(m), GiveUp(|batch|)) && m == Apply(old(m), GiveUp(|batch|))
                && code == if wake.Interrupted? then ERESTARTSYS else wake.left
    {
      hide Inv, Enqueue, FreshIds, Ring;
      AwakeKeepsInv(m, |batch|);
      m := Awake(m, |batch|);
      stamp := given;
      match wake
      case Interrupted => code := ERESTARTSYS;
      case Woken(left) => code := left;
      case TimedOut => code, stamp := QueueBatch(batch, given);
    }

    /** A sync object alone is taken whatever timestamp comes with it; any other batch of an
        ioctl is refused exactly if its client timestamp does not lie ahead of the last queued
        time by at most half a turn. */
    predicate RefusedRightly(time: int, batch: seq<Request>, given: u32, code: int) {
      && (LoneSync(batch) ==> code == 0)
      && (IoctlShape(batch) && !LoneSync(batch) ==>
            && code in {0, -34}
            && (code == -34 <==> mode == Client && !(0 < Lift(time, given) - time <= TWO31)))
    }

    /** The timestamp handed back. */
    predicate StampIs(batch: seq<Request>, code: int, stamp: u32)
      reads this
    {
      batch != [] && code == 0 ==>
        && (batch[|batch| - 1].Stamped() ==> stamp == queuedTs)
        && ((forall r <- batch :: !r.Stamped()) && batch[|batch| - 1].SyncReq? ==> stamp == 0)
    }

    /** The check of a client's timestamp, then the loop. */
    method QueueBatch(batch: seq<Request>, given: u32) returns (code: int, stamp: u32)
      requires Valid() && CanTake(m, batch, given)
      modifies this`tail, this`queued, this`queuedTs, this`sop, this`eop, this`pending, this`m, drawq
      ensures Valid() && Outcome(m, code) == Enqueue(old(m), batch, given) && StampIs(batch, code, stamp)
      ensures RefusedRightly(old(m).queued, batch, given, code)
    {
      hide Inv, FreshIds, Ring, EnqueueLoop, Lift, IoctlShape;
      InvBasics(m);
      if IoctlShape(batch) || LoneSync(batch) {
        OneIsIoctlShape(batch);
        IoctlBatchIsRefusedExactly(m, batch, given);
      }
      if !(|batch| == 1 && batch[0].SyncReq?) && mode == Client && Ts32Ge(queuedTs, given) {
        return ERANGE, given;
      }
      code, stamp := QueueObjects(batch, given);
    }

    /** One turn of the enqueue loop, `rest` being what is left of the batch; `stop` when
        the loop ends here. */
    method QueueObject(r: Request, given: u32, ghost rest: seq<Request>) returns (code: int, stamp: u32, stop: bool)
      requires Valid()
      requires rest != [] && rest[0] == r
      requires FreshIds(m, rest) && InWindow(EnqueueLoop(m, rest, given).state)
      modifies this`tail, this`queued, this`queuedTs, this`sop, this`eop, this`pending, this`m, drawq
      ensures Valid()
      ensures if stop then Outcome(m, code) == EnqueueLoop(old(m), rest, given)
              else EnqueueLoop(m, rest[1..], given) == EnqueueLoop(old(m), rest, given)
                   && FreshIds(m, rest[1..])
      ensures !stop || code == 0 ==> (r.Stamped() ==> stamp == queuedTs) && (r.SyncReq? ==> stamp == 0)
      ensures stop ==> r.Stamped()
    {
      hide Valid, Ts32Ge, Lift, EnqueueLoop, FreshIds, QueueSync, QueueCmd, QueueMarker, Append, NextTimestamp;
      ValidBasics();
      RefusalCode(m, given);
      QueueOneShape(m, r, TimeGiven(m, given));
      ghost var s := m;
      EnqueueLoopStep(s, rest, given);
      FreshHead(s, rest);
      code, stamp, stop := 0, 0, false;
      match r {
        case MarkerReq(id, flagged) =>
          StampInWindow(m, rest, given);
          code, stamp := QueueMarkerobj(id, flagged, given);
          if code != 0 {
            return if code == 1 then 0 else code, stamp, true;
          }
        case CmdReq(id) =>
          StampInWindow(m, rest, given);
          code, stamp := QueueCmdobj(id, given);
          if code != 0 {
            return code, stamp, true;
          }
        case SyncReq(id, events) => QueueSyncobj(id, events);
        case TimelineReq(id) => QueueTimelineobj(id);
      }
      FreshTail(s, m, rest);
    }

    /** The enqueue loop. */
    method QueueObjects(batch: seq<Request>, given: u32) returns (code: int, stamp: u32)
      requires Valid()
      requires batch != [] && FreshIds(m, batch) && InWindow(EnqueueLoop(m, batch, given).state)
      modifies this`tail, this`queued, this`queuedTs, this`sop, this`eop, this`pending, this`m, drawq
      ensures Valid()
      ensures Outcome(m, code) == EnqueueLoop(old(m), batch, given)
      ensures code == 0 && batch[|batch| - 1].Stamped() ==> stamp == queuedTs
      ensures code == 0 && batch[|batch| - 1].SyncReq? && (forall r <- batch :: !r.Stamped()) ==> stamp == 0
    {
      hide Valid, EnqueueLoop, FreshIds;
      stamp := given;
      var i := 0;
      assert batch[0..] == batch;
      while i < |batch|
        invariant i <= |batch| && Valid()
        invariant FreshIds(m, batch[i..])
        invariant EnqueueLoop(m, batch[i..], given) == EnqueueLoop(old(m), batch, given)
        invariant i > 0 && batch[i - 1].Stamped() ==> stamp == queuedTs
        invariant i > 0 && batch[i - 1].SyncReq? ==> stamp == 0
      {
        var stop;
        assert batch[i..][1..] == batch[i + 1..];
        code, stamp, stop := QueueObject(batch[i], given, batch[i..]);
        if stop {
          return;
        }
        i := i + 1;
      }
      EnqueueLoopStep(m, batch[i..], given);
      code := 0;
    }

    // ---- the dispatcher ----

    /** `_retire_syncobj` */
    method RetireSyncobj(id: nat) returns (ret: int)
      requires Valid() && !m.sending && m.out != [] && m.out[0] == Sync(id)
      modifies this`head, this`queued, this`m
      ensures Valid() && (ret == 0 <==> HeadRetires(old(m)))
      ensures ret == 0 <==> id in old(pending) && old(pending)[id] == {}
      ensures if ret == 0 then m == RetireFirst(old(m)) && head == NextSlot(old(head))
              else m == old(m) && head == old(head) && ret == EAGAIN
    {
      hide Inv;
      if id !in pending || pending[id] != {} {
        return EAGAIN;
      }
      PopDrawobj(m.out);
      RetireHeadKeepsInv(m);
      m := RetireFirst(m);
      ret := 0;
    }

    /** `_retire_markerobj`: 0 when the CPU retired it, 1 when it must be sent. */
    method RetireMarkerobj(o: DrawObj) returns (ret: int)
      requires Valid() && !m.sending && m.out != [] && m.out[0].Marker? && o == Stored(m.out[0])
      modifies this`head, this`queued, this`sop, this`eop, this`m
      ensures Valid() && (ret == 0 <==> HeadRetires(old(m))) && (ret == 1 <==> HeadIsReady(old(m)))
      ensures var expired := o.flagged && shadow && old(m).retired >= old(m).out[0].markerTime;
              && (ret == 0 <==> expired) && (ret == 1 <==> !expired && o.skip)
      ensures ret == 0 ==> sop == eop == o.time && queued == old(queued) - 1
      ensures ret != 0 ==> unchanged(`sop) && unchanged(`eop) && unchanged(`queued)
      ensures if ret == 0 then m == RetireFirst(old(m)) && head == NextSlot(old(head))
              else m == old(m) && head == old(head) && ret in {1, EAGAIN}
    {
      hide Inv, Ts32Ge, Wrap32;
      RegistersDecide(m);
      if o.flagged && shadow && Ts32Ge(eop, o.markerTime) {
        PopDrawobj(m.out);
        RetireHeadKeepsInv(m);
        sop, eop := o.time, o.time;
        m := RetireFirst(m);
        return 0;
      }
      ret := if o.skip then 1 else EAGAIN;
    }

    /** `_retire_timelineobj` */
    method RetireTimelineobj()
      requires Valid() && !m.sending && m.out != [] && m.out[0].Timeline?
      modifies this`head, this`queued, this`m
      ensures Valid() && m == RetireFirst(old(m)) && head == NextSlot(old(head))
    {
      hide Inv;
      PopDrawobj(m.out);
      RetireHeadKeepsInv(m);
      m := RetireFirst(m);
    }

    /** `_process_drawqueue_get_next_drawobj`, under the queue lock. The cursor always
        stands at the head, so the object found is the one popped next. */
    method ScanQueue() returns (r: Scan)
      requires Valid() && !m.sending
      modifies this`head, this`queued, this`sop, this`eop, this`m
      ensures Valid() && m == Scanned(old(m))
      ensures match r
              case Nothing => m.out == [] && head == tail
              case Found(obj) => HeadIsReady(m) && obj == Stored(m.out[0]) == drawq[head]
                                 && (obj.Cmd? || (obj.Marker? && obj.skip))
              case Blocked => m.out != [] && !HeadRetires(m) && !HeadIsReady(m) && match m.out[0]
                case Sync(id) => id !in pending || pending[id] != {}
                case Marker(_, _, time, skip, flagged) => !skip && !(flagged && shadow && m.retired >= time)
                case _ => false
    {
      hide Inv, Scanned, RetireFirst;
      var i := head;
      while i != tail
        invariant Valid() && !m.sending && i == head
        invariant Scanned(m) == Scanned(old(m))
        decreases |m.out|
      {
        SlotAfter(head, |m.out|);
        var o := drawq[i];
        assert o == Stored(m.out[0]);
        ScannedStep(m);
        match o {
          case Cmd(_, _) => return Found(o);
          case Sync(id) =>
            var ret := RetireSyncobj(id);
            if ret != 0 {
              return Blocked;
            }
          case Marker(_, _, _, _, _) =>
            var ret := RetireMarkerobj(o);
            if ret != 0 {
              return if ret == 1 then Found(o) else Blocked;
            }
          case Timeline(_) => RetireTimelineobj();
        }
        i := NextSlot(i);
      }
      ScannedStep(m);
      return Nothing;
    }

    /** The object at the head is popped to be sent. */
    method TakeFirst()
      requires Enabled(m, Pop) && Valid()
      modifies this`head, this`queued, this`m
      ensures Valid() && m == Apply(old(m), Pop)
    {
      hide Inv, HeadIsReady;
      PopShape(m);
      PopDrawobj(m.out);
      PopKeepsInv(m);
      m := m.(sending := true);
    }

    /** The locked part of an iteration of `hgsl_dispatch_sendcmds`. */
    method TakeNext() returns (r: Scan)
      requires !m.sending
      requires Valid()
      modifies this`head, this`queued, this`sop, this`eop, this`m
      ensures r.Found? == HeadIsReady(Scanned(old(m))) && r.Nothing? == (Scanned(old(m)).out == [])
      ensures if r.Found? then m == Apply(Scanned(old(m)), Pop) && m.out != [] && r.obj == Stored(m.out[0])
              else m == Scanned(old(m))
      ensures r.Found? ==> m.sending && m.out != [] && m.out[0].Stamped()
      ensures r.Found? ==> |m.Fifo()| <= 126
      ensures Valid()
    {
      hide Inv, Scanned, RetireFirst, HeadRetires, HeadIsReady, Apply;
      r := ScanQueue();
      ReadyHasOne(m);
      if r.Found? {
        PopShape(m);
        TakeFirst();
      }
    }

    /** The object taken is gone for good. */
    ghost method Depart(a: Action)
      requires Valid() && m.sending && (a.SendOk? || a.SendGone?) && Enabled(m, a)
      modifies this`m
      ensures Valid() && m == Apply(old(m), a)
      ensures !m.sending && m.inflight == old(m).inflight + if a.SendOk? then [old(m).out[0].time] else []
    {
      hide Inv, Apply;
      SendDoneKeepsInv(m, a);
      SendDoneShape(m, a);
      m := Apply(m, a);
    }

    /** The object taken could not be sent and goes back to the head. With 127 objects in the
        ring, which an enqueue meanwhile can leave there, nothing is seen of it afterwards. */
    method PutBackDrawobj(o: DrawObj)
      requires m.sending && m.out != [] && o == Stored(m.out[0])
      requires Valid()
      modifies this`head, this`queued, this`m, drawq
      ensures m == PutBack(old(m))
      ensures head < drawq.Length && drawq[head] == o && NextSlot(head) == old(head) && queued == old(queued) + 1
      ensures Valid()
    {
      hide Inv, RetireFirst, Enqueue, ForceMarkers;
      InvBasics(m);
      SendFailKeepsInv(m);
      RequeueDrawobj(o, m.Fifo(), m.out[0]);
      PutBackShape(m);
      m := PutBack(m);
    }

    /** The end of an iteration: the result of sending `o`. */
    method SendDone(o: DrawObj, ret: int)
      requires m.sending && m.out != [] && m.out[0].Stamped() && o == Stored(m.out[0])
      requires Valid()
      modifies this`head, this`queued, this`m, drawq
      ensures m == Apply(old(m), if ret == 0 then SendOk else if ret == ENOENT then SendGone else SendFail)
      ensures ret == 0 || ret == -2 ==> unchanged(`head) && unchanged(`queued) && !m.sending
      ensures ret != 0 && ret != -2 ==>
                head < drawq.Length && drawq[head] == o && NextSlot(head) == old(head) && queued == old(queued) + 1
      ensures m.inflight == old(m).inflight + if ret == 0 then [old(m).out[0].time] else []
      ensures Valid()
    {
      hide Inv, Apply;
      InvBasics(m);
      if ret == 0 {
        Depart(SendOk);
      } else if ret == ENOENT {
        Depart(SendGone);
      } else {
        SendFailShape(m);
        PutBackDrawobj(o);
      }
    }

    /** `hgsl_dispatch_sendcmds` with nothing else going on: sends until the queue is
        empty or blocked or a sending fails. */
    method SendCmds(send: nat -> int) returns (ret: int)
      requires Valid() && !m.sending
      modifies this`head, this`queued, this`sop, this`eop, this`m, drawq
      ensures Valid() && Burst(m, ret) == RunBurst(old(m), send, 0)
    {
      hide Valid, Scanned, HeadIsReady, Apply, RunBurst;
      var count: nat := 0;
      ret := 0;
      while true
        invariant Valid() && !m.sending && ret == 0
        invariant RunBurst(m, send, count) == RunBurst(old(m), send, 0)
        decreases |m.out|
      {
        ghost var s := m;
        RunBurstStep(s, send, count);
        var next := TakeNext();
        match next {
          case Nothing =>
            break;
          case Blocked =>
            ret := EAGAIN;
            break;
          case Found(o) =>
            ret := send(count);
            SendDone(o, ret);
            if ret != 0 {
              break;
            }
            count := count + 1;
        }
      }
      if ret == 0 {
        ret := count;
      }
    }

    // ---- the outside ----

    /** The hardware starts on its `k`-th submission and writes the page. */
    method HardwareConsumes(k: nat, ts: u32)
      requires Enabled(m, HwConsume(k)) && ts == Wrap32(m.inflight[k])
      requires Valid()
      modifies this`sop, this`m
      ensures Valid() && m == Apply(old(m), HwConsume(k)) && sop == ts
    {
      hide Inv;
      HwConsumeKeepsInv(m, k);
      sop := ts;
      m := m.(consumed := m.inflight[k]);
    }

    /** The hardware finishes its oldest submission and writes the page. */
    method HardwareRetires(ts: u32)
      requires Enabled(m, HwRetire) && ts == Wrap32(m.inflight[0])
      requires Valid()
      modifies this`eop, this`m
      ensures Valid() && m == Apply(old(m), HwRetire) && eop == ts
    {
      hide Inv;
      HwRetireKeepsInv(m);
      eop := ts;
      m := m.(inflight := m.inflight[1..], retired := m.inflight[0]);
    }

    /** An event of a sync object clears its pending bit. */
    method EventFires(id: nat, event: nat)
      requires Valid() && Enabled(m, Fire(id, event))
      modifies this`pending, this`m
      ensures Valid() && m == Apply(old(m), Fire(id, event))
      ensures id in old(pending) && pending == old(pending)[id := old(pending)[id] - {event}]
    {
      hide Inv;
      FireKeepsInv(m, id, event);
      pending := pending[id := pending[id] - {event}];
      m := m.(pending := pending);
    }

    /** The drain loop of `hgsl_ctxt_detach_drawobjs`. */
    method DrainSlots(ghost f: seq<DrawObj>) returns (list: seq<DrawObj>)
      requires Ring(f)
      modifies this`head
      ensures Ring([]) && |list| == |f| && forall k :: 0 <= k < |f| ==> list[k] == Stored(f[k])
    {
      list := [];
      while head != tail
        invariant |list| <= |f| && Ring(f[|list|..])
        invariant forall k :: 0 <= k < |list| ==> list[k] == Stored(f[k])
        decreases |f| - |list|
      {
        ghost var rest := f[|list|..];
        SlotAfter(head, |rest|);
        list := list + [drawq[head]];
        head := NextSlot(head);
        assert rest[1..] == f[|list|..];
      }
      assert |f[|list|..]| == 0;
    }

    /** `hgsl_ctxt_detach_drawobjs` takes every queued object; `queued` is left alone. */
    method Detach() returns (list: seq<DrawObj>)
      requires Enabled(m, Action.Detach) && Valid()
      modifies this`head, this`inDestroy, this`m
      ensures Valid() && m == Apply(old(m), Action.Detach) && queued == old(queued)
      ensures inDestroy && head == tail && m.drained == old(m.Fifo())
      ensures |list| == |m.drained| && forall k :: 0 <= k < |list| ==> list[k] == Stored(m.drained[k])
    {
      hide Inv, Detached, Apply;
      InvBasics(m);
      DetachedShape(m);
      inDestroy := true;
      list := DrainSlots(m.Fifo());
      DetachKeepsInv(m);
      m := Detached(m);
    }
  }

  lemma FreshHead(s: State, batch: seq<Request>)
    requires FreshIds(s, batch) && batch != []
    ensures batch[0].id !in s.accepted
  {}

  lemma EnqueueLoopStep(s: State, batch: seq<Request>, given: u32)
    ensures batch == [] ==> EnqueueLoop(s, batch, given) == Outcome(s, 0)
    ensures batch != [] ==>
              var r, u := NextTimestamp(s.mode, Wrap32(s.queued), given), QueueOne(s, batch[0], TimeGiven(s, given));
              && (r.Ok? ==> TimeGiven(s, given) == Lift(s.queued, r.value))
              && EnqueueLoop(s, batch, given) ==
                 if batch[0].Stamped() && r.Err? then Outcome(s, r.code)
                 else if batch[0].MarkerReq? && FastPath(s) then Outcome(u, 0)
                 else EnqueueLoop(u, batch[1..], given)
  {
    hide QueueOne, NextTimestamp;
  }

  lemma OneIsIoctlShape(batch: seq<Request>)
    ensures LoneSync(batch) ==> IoctlShape(batch)
  {}

  lemma RefusalCode(s: State, given: u32)
    ensures var r := NextTimestamp(s.mode, Wrap32(s.queued), given); r.Err? ==> r.code == ERANGE
  {}

  lemma SleepIsEnabled(s: State, n: nat)
    requires Inv(s) && Enabled(s, Sleep(n))
    ensures Inv(s.(waiting := s.waiting + multiset{n}))
  {
    hide Inv;
    StepKeepsInv(s, Sleep(n));
  }

  lemma AwakeKeepsInv(s: State, n: nat)
    requires Inv(s) && n in s.waiting
    ensures Inv(Awake(s, n))
  {
    hide Inv;
    StepKeepsInv(s, GiveUp(n));
  }

  lemma PutBackShape(s: State)
    requires s.sending && s.out != []
    ensures var t := PutBack(s);
            && t.Fifo() == (if |s.Fifo()| == 127 then [] else [s.out[0]] + s.Fifo())
            && t.Count() == s.Count() + 1
            && t.queued == s.queued && t.consumed == s.consumed && t.retired == s.retired
            && t.pending == s.pending && t.inDestroy == s.inDestroy && t.shadow == s.shadow && t.mode == s.mode
  {
    assert s.out == [s.out[0]] + s.out[1..];
  }

  lemma DetachedShape(s: State)
    requires Enabled(s, Action.Detach) && s.drained == []
    ensures var t := Detached(s);
            && Apply(s, Action.Detach) == t && t.Fifo() == [] && t.drained == s.Fifo() && t.Count() == s.Count()
            && t.queued == s.queued && t.consumed == s.consumed && t.retired == s.retired
            && t.pending == s.pending && t.inDestroy && t.shadow == s.shadow && t.mode == s.mode
  {}

  lemma SendFailShape(s: State)
    requires s.sending
    ensures Apply(s, SendFail) == PutBack(s) && PutBack(s).inflight == s.inflight
  {}

  lemma ReadyHasOne(s: State)
    ensures HeadIsReady(s) ==> s.out != []
  {}

  lemma PopShape(s: State)
    requires !s.sending && HeadIsReady(s)
    ensures s.out != [] && s.out[0].Stamped() && Apply(s, Pop) == s.(sending := true)
    ensures s.(sending := true).Fifo() == s.out[1..]
  {}

  lemma SendDoneShape(s: State, a: Action)
    requires Enabled(s, a) && s.sending && (a.SendOk? || a.SendGone?)
    ensures var t := Apply(s, a);
            && t.Fifo() == s.Fifo() && t.Count() == s.Count()
            && t.queued == s.queued && t.consumed == s.consumed && t.retired == s.retired
            && t.pending == s.pending && t.inDestroy == s.inDestroy && t.shadow == s.shadow && t.mode == s.mode
            && !t.sending && t.inflight == s.inflight + if a.SendOk? then [s.out[0].time] else []
  {}

  lemma FifoOfAppend(s: State, o: DrawObj)
    requires (s.sending ==> s.out != []) && |s.Fifo()| <= 127
    ensures var t := Append(s, o);
            && t.Fifo() == (if |s.Fifo()| == 127 then [] else s.Fifo() + [o])
            && t.Count() == s.Count() + 1
            && t.queued == s.queued && t.consumed == s.consumed && t.retired == s.retired
            && t.pending == s.pending && t.inDestroy == s.inDestroy && t.shadow == s.shadow && t.mode == s.mode
  {
    AppendShape(s, o);
  }

  lemma QueueSyncShape(s: State, id: nat, events: set<nat>)
    requires (s.sending ==> s.out != []) && |s.Fifo()| <= 127
    ensures var t := QueueSync(s, id, events);
            && t.Fifo() == (if |s.Fifo()| == 127 then [] else s.Fifo() + [Sync(id)])
            && t.Count() == s.Count() + 1 && t.pending == s.pending[id := events]
            && t.queued == s.queued && t.consumed == s.consumed && t.retired == s.retired
            && t.inDestroy == s.inDestroy && t.shadow == s.shadow && t.mode == s.mode
  {
    FifoOfAppend(s.(pending := s.pending[id := events]), Sync(id));
  }

  lemma StoredCmd(id: nat, time: int)
    ensures Stored(Cmd(id, time)) == Cmd(id, Wrap32(time))
  {}

  lemma QueueCmdShape(s: State, id: nat, time: int)
    requires (s.sending ==> s.out != []) && |s.Fifo()| <= 127
    ensures var t, f := QueueCmd(s, id, time), ForceMarkers(s.Fifo());
            && |f| == |s.Fifo()| && t.Fifo() == (if |f| == 127 then [] else f + [Cmd(id, time)])
            && t.Count() == s.Count() + 1 && t.pending == s.pending
            && t.queued == time && t.consumed == s.consumed && t.retired == s.retired
            && t.inDestroy == s.inDestroy && t.shadow == s.shadow && t.mode == s.mode
  {
    var u := s.(out := ForceMarkers(s.out), queued := time);
    assert u.Fifo() == ForceMarkers(s.Fifo());
    FifoOfAppend(u, Cmd(id, time));
  }

  /** The stamped object at the front of a batch stays within half a turn if the whole
      batch does. */
  lemma StampInWindow(s: State, batch: seq<Request>, given: u32)
    requires s.mode != Unchecked && batch != [] && batch[0].Stamped()
    requires InWindow(EnqueueLoop(s, batch, given).state)
    requires s.sending ==> s.out != []
    ensures var r := NextTimestamp(s.mode, Wrap32(s.queued), given);
            r.Ok? && !(batch[0].MarkerReq? && FastPath(s)) ==> Lift(s.queued, r.value) - s.retired <= TWO31
  {
    hide NextTimestamp, QueueOne, FastPath;
    var r := NextTimestamp(s.mode, Wrap32(s.queued), given);
    if r.Ok? && !(batch[0].MarkerReq? && FastPath(s)) {
      QueueOneShape(s, batch[0], TimeGiven(s, given));
      TimeIsLater(s, given);
      EnqueueLoopAdvances(QueueOne(s, batch[0], TimeGiven(s, given)), batch[1..], given);
    }
  }
}
