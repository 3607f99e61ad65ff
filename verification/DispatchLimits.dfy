/** Where the draw queue comes to its limits: batches enqueued without room, and batches
    enqueued after their context was detached. Both come from producers whose sleep for room
    has timed out. */
module DispatchLimits {
  import opened Timestamps
  import opened DispatchModel
  import opened DispatchRuns
  import opened DispatchBatches

  // ---- what is hidden ----

  /** A step hides objects exactly if it enqueues beyond 127 objects in the ring, or puts one
      back before 127. */
  lemma StepHidesExactly(s: State, a: Action)
    requires Inv(s) && Enabled(s, a)
    ensures var t := Apply(s, a);
            && s.hidden <= t.hidden
            && (t.hidden != s.hidden <==>
                  || (a.Enqueues() && |s.Fifo()| + (|t.accepted| - |s.accepted|) > 127)
                  || (a.SendFail? && |s.Fifo()| == 127))
  {
    hide Inv, FreshIds, InWindow, Enqueue;
    InvBasics(s);
    if a.Enqueues() {
      EnqueueHidesExactly(Found(s, a), a.batch, a.given);
    }
  }

  /** Nothing is hidden, and the object being sent can be put back without hiding any. */
  predicate Whole(s: State) { s.hidden == [] && |s.out| <= 127 }

  /** In every run in which each late batch found room all the same, the ring shows the whole
      queue and the object being sent can always be put back. */
  lemma {:induction false} RoomKeepsQueueWhole(ss: seq<State>, acts: seq<Action>, i: nat)
    requires Run(ss, acts) && i < |ss|
    requires forall j :: 0 <= j < i && acts[j].LateQueue? ==> ss[j].HasRoom(|acts[j].batch|)
    ensures Whole(ss[i])
    ensures ss[i].sending ==> |ss[i].Fifo()| <= 126
  {
    hide Inv, Enabled, Apply, Whole;
    RunKeepsInv(ss, acts, i);
    if i == 0 {
      EmptyIsWhole(ss[0]);
    } else {
      RoomKeepsQueueWhole(ss, acts, i - 1);
      RunKeepsInv(ss, acts, i - 1);
      RoomStep(ss[i - 1], acts[i - 1]);
    }
    PutBackFits(ss[i]);
  }

  lemma EmptyIsWhole(s: State)
    requires Init(s)
    ensures Whole(s)
  {}

  lemma PutBackFits(s: State)
    requires Inv(s) && Whole(s)
    ensures s.sending ==> |s.Fifo()| <= 126
  {
    hide Inv;
    InvBasics(s);
  }

  lemma RoomStep(s: State, a: Action)
    requires Inv(s) && Enabled(s, a) && Whole(s)
    requires a.LateQueue? ==> s.HasRoom(|a.batch|)
    ensures Whole(Apply(s, a))
  {
    hide Inv, FreshIds, InWindow, Enqueue;
    InvBasics(s);
    if a.Enqueues() {
      EnqueueHidesExactly(Found(s, a), a.batch, a.given);
    }
  }

  /** Once objects are hidden the counter stays at 128 or more: no batch finds room again, and
      no marker is retired on the fast path. */
  lemma NoRoomAfterHiding(ss: seq<State>, acts: seq<Action>, i: nat, j: nat, n: nat)
    requires Run(ss, acts) && i <= j < |ss| && ss[i].hidden != [] && n > 0
    ensures ss[i].hidden <= ss[j].hidden && !ss[j].HasRoom(n) && !FastPath(ss[j])
  {
    hide Enabled, Apply;
    RetiredNeverMovesBack(ss, acts, i, j);
    RunKeepsInv(ss, acts, j);
    hide Sound;
  }

  /** A late batch: the ring still shows the whole queue exactly if ring and batch are at most
      127, and exactly 126 if an object is being sent and comes back. */
  lemma TimedOutBatchFitsExactly(s: State, batch: seq<Request>, given: u32)
    requires IoctlShape(batch) && batch != [] && (s.sending ==> s.out != []) && |s.Fifo()| <= 127
    requires Enqueue(s, batch, given).code == 0 && !(|batch| == 1 && batch[0].MarkerReq? && FastPath(s))
    ensures var t := Enqueue(s, batch, given).state;
            && (t.hidden == s.hidden <==> |s.Fifo()| + |batch| <= 127)
            && (s.sending ==> (PutBack(t).hidden == s.hidden <==> |s.Fifo()| + |batch| <= 126))
  {
    hide AppendedSome, Enqueue;
    BatchIsAllOrNothing(s, batch, given);
    var t := Enqueue(s, batch, given).state;
    StockLength(s, t, batch, |batch|);
    EnqueueHidesExactly(s, batch, given);
  }

  // ---- batches of timeline objects ----

  function Timelines(from: nat, n: nat): (r: seq<Request>)
    ensures |r| == n && forall k :: 0 <= k < n ==> r[k] == TimelineReq(from + k)
  {
    seq(n, k requires 0 <= k < n => TimelineReq(from + k))
  }

  function Numbers(from: nat, n: nat): (r: seq<nat>)
    ensures |r| == n && forall k :: 0 <= k < n ==> r[k] == from + k
  {
    seq(n, k => from + k)
  }

  function TimelineObjs(from: nat, n: nat): (r: seq<DrawObj>)
    ensures |r| == n && forall k :: 0 <= k < n ==> r[k] == Timeline(from + k)
  {
    seq(n, k requires 0 <= k < n => Timeline(from + k))
  }

  /** The state after `n` timeline objects that find free slots. */
  function TimelinesQueued(s: State, from: nat, n: nat): State {
    s.(out := s.out + TimelineObjs(from, n), accepted := s.accepted + Numbers(from, n),
       clear := if s.Aside() == [] then |s.accepted| + n else s.clear)
  }

  /** Enqueueing timeline objects changes nothing but the queue. */
  lemma {:induction false} EnqueueTimelines(s: State, from: nat, n: nat, given: u32)
    requires |s.Fifo()| + n <= 127 && (s.sending ==> s.out != []) && (s.Aside() == [] ==> s.clear == |s.accepted|)
    ensures EnqueueLoop(s, Timelines(from, n), given) == Outcome(TimelinesQueued(s, from, n), 0)
    decreases n
  {
    hide Append, TimelinesQueued, NextTimestamp, TimeGiven;
    if n == 0 {
      NoTimelines(s, from);
    } else {
      assert Timelines(from, n)[1..] == Timelines(from + 1, n - 1);
      OneTimeline(s, from, n);
      EnqueueTimelines(Append(s, Timeline(from)), from + 1, n - 1, given);
    }
  }

  lemma NoTimelines(s: State, from: nat)
    requires s.Aside() == [] ==> s.clear == |s.accepted|
    ensures TimelinesQueued(s, from, 0) == s
  {
    assert s.out + TimelineObjs(from, 0) == s.out && s.accepted + Numbers(from, 0) == s.accepted;
  }

  lemma OneTimeline(s: State, from: nat, n: nat)
    requires 0 < n && |s.Fifo()| + n <= 127 && (s.sending ==> s.out != [])
    ensures var u := Append(s, Timeline(from));
            && |u.Fifo()| + n - 1 <= 127 && (u.sending ==> u.out != []) && (u.Aside() == [] ==> u.clear == |u.accepted|)
            && TimelinesQueued(u, from + 1, n - 1) == TimelinesQueued(s, from, n)
  {
    var u := Append(s, Timeline(from));
    assert u == Accept(s, from).(out := s.out + [Timeline(from)]);
    assert s.out + [Timeline(from)] + TimelineObjs(from + 1, n - 1) == s.out + TimelineObjs(from, n);
    assert s.accepted + [from] + Numbers(from + 1, n - 1) == s.accepted + Numbers(from, n);
  }

  lemma {:induction false} UnstampedKeepsTimes(s: State, batch: seq<Request>, given: u32)
    requires (forall r <- batch :: !r.Stamped()) && (s.sending ==> s.out != [])
    ensures var t := EnqueueLoop(s, batch, given).state;
            && t.queued == s.queued && t.retired == s.retired
            && |t.accepted| == |s.accepted| + |batch|
    decreases |batch|
  {
    hide NextTimestamp, TimeGiven, QueueOne;
    if batch != [] {
      var u := QueueOne(s, batch[0], TimeGiven(s, given));
      QueueOneShape(s, batch[0], TimeGiven(s, given));
      UnstampedKeepsTimes(u, batch[1..], given);
    }
  }

  lemma FreshFrom(acc: seq<nat>) returns (from: nat)
    ensures forall x <- acc :: x < from
  {
    if acc == [] {
      from := 0;
    } else {
      from := FreshFrom(acc[1..]);
      from := if from <= acc[0] then acc[0] + 1 else from;
      assert forall x <- acc :: x == acc[0] || x in acc[1..];
    }
  }

  /** Some late batch can always be enqueued, whatever the context. */
  lemma LateBatchEnabled(s: State, n: nat) returns (a: Action)
    requires Inv(s) && n in s.waiting
    ensures a.LateQueue? && Enabled(s, a) && |Apply(s, a).accepted| == |s.accepted| + n && n > 0
  {
    var from := FreshFrom(s.accepted);
    var given := Wrap32(s.queued + 1);
    a := LateQueue(Timelines(from, n), given);
    var u := Awake(s, n);
    hide Sound, Enqueue, Timelines;
    SoundWindow(s);
    NextIsNotStale(s.queued);
    UnstampedKeepsTimes(u, Timelines(from, n), given);
    EnqueueIfNotStale(u, Timelines(from, n), given);
    TimelinesAreFresh(u, from, n);
  }

  lemma SoundWindow(s: State)
    requires Sound(s)
    ensures InWindow(s) && (s.sending ==> s.out != [])
  {}

  lemma NextIsNotStale(queued: int)
    ensures !Ts32Ge(Wrap32(queued), Wrap32(queued + 1))
  {
    Ts32GeAgreesWithOrder(queued, queued + 1);
  }

  lemma EnqueueIfNotStale(s: State, batch: seq<Request>, given: u32)
    requires !Ts32Ge(Wrap32(s.queued), given)
    ensures Enqueue(s, batch, given) == EnqueueLoop(s, batch, given)
  {}

  lemma TimelinesAreFresh(s: State, from: nat, n: nat)
    requires forall x <- s.accepted :: x < from
    ensures FreshIds(s, Timelines(from, n)) && forall r <- Timelines(from, n) :: !r.Stamped()
    ensures |Timelines(from, n)| == n
  {}

  // ---- after detach ----

  predicate Leaves(a: Action) { a.SendOk? || a.SendGone? || a.RetireHead? }

  ghost predicate NoneLeaves(acts: seq<Action>, i: nat, j: nat)
    requires j <= |acts|
  {
    forall k :: i < k < j ==> !Leaves(acts[k])
  }

  /** After detach, as long as no late batch comes, at most the object being sent then is left,
      exactly until it has been sent, lost with its context, or retired: a send that fails puts
      it back. */
  lemma {:induction false} LeftAfterDetachExactly(ss: seq<State>, acts: seq<Action>, i: nat, j: nat)
    requires Run(ss, acts) && i < j < |ss| && acts[i].Detach?
    requires forall k :: i < k < j ==> !acts[k].LateQueue?
    ensures ss[j].inDestroy
    ensures ss[j].out == if NoneLeaves(acts, i, j) then ss[i].BeingSent() else []
    decreases j
  {
    hide Inv, Enabled, Apply;
    if j == i + 1 {
      DetachedAtOnce(ss[i]);
    } else {
      LeftAfterDetachExactly(ss, acts, i, j - 1);
      DetachedStep(ss[j - 1], acts[j - 1]);
    }
  }

  lemma DetachedAtOnce(s: State)
    requires Enabled(s, Detach)
    ensures Apply(s, Detach).inDestroy && Apply(s, Detach).out == s.BeingSent()
    ensures Apply(s, Detach).accepted == s.accepted && Apply(s, Detach).waiting == s.waiting
  {}

  lemma DetachedStep(s: State, a: Action)
    requires s.inDestroy && Enabled(s, a) && |s.out| <= 1 && !a.LateQueue?
    ensures Apply(s, a).inDestroy
    ensures Apply(s, a).out == if Leaves(a) then [] else s.out
  {}

  /** What is left is what was being sent at detach, and what came later. */
  ghost predicate LeftOver(s: State, sent: seq<DrawObj>, n: nat) {
    s.inDestroy && n <= |s.accepted| && forall o <- s.out :: o.id in Ids(sent) || o.id in s.accepted[n..]
  }

  lemma LeftOverMore(s: State, out: seq<DrawObj>, id: nat, sent: seq<DrawObj>, n: nat)
    requires LeftOver(s, sent, n) && forall o <- out :: o.id == id || exists x <- s.out :: x.id == o.id
    ensures forall o <- out :: o.id in Ids(sent) || o.id in (s.accepted + [id])[n..]
  {
    assert (s.accepted + [id])[n..] == s.accepted[n..] + [id];
  }

  lemma LeftOverOne(s: State, r: Request, t: int, sent: seq<DrawObj>, n: nat)
    requires LeftOver(s, sent, n)
    ensures LeftOver(QueueOne(s, r, t), sent, n)
  {
    var u := QueueOne(s, r, t);
    assert u.accepted == s.accepted + [r.id] && u.inDestroy;
    forall o | o in u.out ensures o.id == r.id || exists x <- s.out :: x.id == o.id {
      OutOfOne(s, r, t, o);
    }
    LeftOverMore(s, u.out, r.id, sent, n);
  }

  lemma OutOfOne(s: State, r: Request, t: int, o: DrawObj)
    requires o in QueueOne(s, r, t).out
    ensures o.id == r.id || exists x <- s.out :: x.id == o.id
  {
    var f := ForceMarkers(s.out);
    if o.id != r.id {
      assert o in s.out || o in f;
      if o in f {
        var k :| 0 <= k < |f| && f[k] == o;
        assert s.out[k].id == o.id && s.out[k] in s.out;
      }
    }
  }

  lemma {:induction false} LeftOverLoop(s: State, batch: seq<Request>, given: u32, sent: seq<DrawObj>, n: nat)
    requires LeftOver(s, sent, n)
    ensures LeftOver(EnqueueLoop(s, batch, given).state, sent, n)
    decreases |batch|
  {
    hide NextTimestamp, TimeGiven, QueueOne, LeftOver;
    if batch != [] {
      LeftOverOne(s, batch[0], TimeGiven(s, given), sent, n);
      LeftOverLoop(QueueOne(s, batch[0], TimeGiven(s, given)), batch[1..], given, sent, n);
    }
  }

  lemma LeftOverStep(s: State, a: Action, sent: seq<DrawObj>, n: nat)
    requires LeftOver(s, sent, n) && Enabled(s, a)
    ensures LeftOver(Apply(s, a), sent, n)
    ensures !a.LateQueue? ==> |Apply(s, a).waiting| <= |s.waiting| && Apply(s, a).accepted == s.accepted
    ensures a.LateQueue? ==> |Apply(s, a).waiting| == |s.waiting| - 1
  {
    hide EnqueueLoop;
    if a.LateQueue? {
      LeftOverLoop(Found(s, a), a.batch, a.given, sent, n);
      LoopKeepsWaiting(Found(s, a), a.batch, a.given);
    }
  }

  lemma {:induction false} LoopKeepsWaiting(s: State, batch: seq<Request>, given: u32)
    ensures EnqueueLoop(s, batch, given).state.waiting == s.waiting
    decreases |batch|
  {
    hide NextTimestamp, TimeGiven;
    if batch != [] {
      LoopKeepsWaiting(QueueOne(s, batch[0], TimeGiven(s, given)), batch[1..], given);
    }
  }

  /** Late batches among the steps from `i` up to `j`. */
  function LateCount(acts: seq<Action>, i: nat, j: nat): nat
    requires i <= j <= |acts|
  {
    if i == j then 0 else LateCount(acts, i, j - 1) + if acts[j - 1].LateQueue? then 1 else 0
  }

  /** In every run: what is in the queue after detach was being sent at detach or came with a
      late batch, of which there are at most as many as producers slept then. */
  lemma {:induction false} OnlySleepersAppend(ss: seq<State>, acts: seq<Action>, i: nat, j: nat)
    requires Run(ss, acts) && i < j < |ss| && acts[i].Detach?
    ensures LeftOver(ss[j], ss[i].BeingSent(), |ss[i].accepted|)
    ensures |ss[j].waiting| + LateCount(acts, i, j) <= |ss[i].waiting|
    ensures LateCount(acts, i, j) == 0 ==> ss[j].accepted == ss[i].accepted
    decreases j
  {
    hide Inv, Enabled, Apply, LeftOver;
    if j == i + 1 {
      DetachedAtOnce(ss[i]);
      LeftOverStart(ss[i + 1], ss[i].BeingSent());
    } else {
      OnlySleepersAppend(ss, acts, i, j - 1);
      LeftOverStep(ss[j - 1], acts[j - 1], ss[i].BeingSent(), |ss[i].accepted|);
    }
  }

  lemma LeftOverStart(s: State, sent: seq<DrawObj>)
    requires s.inDestroy && s.out == sent
    ensures LeftOver(s, sent, |s.accepted|)
  {
    forall o | o in s.out ensures o.id in Ids(sent) {
      IdIn(sent, o);
    }
  }

  lemma IdIn(os: seq<DrawObj>, o: DrawObj)
    requires o in os
    ensures o.id in Ids(os)
  {
    var k :| 0 <= k < |os| && os[k] == o;
    assert Ids(os)[k] == o.id;
  }

  lemma {:induction false} NobodyAppends(s: State, acts: seq<Action>, t: State)
    requires s.inDestroy && s.waiting == multiset{} && Leads(s, acts, t)
    ensures t.accepted == s.accepted
    decreases |acts|
  {
    hide Enabled, Apply;
    if acts != [] {
      NobodyAppendsNow(s, acts[0]);
      NobodyAppends(Apply(s, acts[0]), acts[1..], t);
    }
  }

  lemma NobodyAppendsNow(s: State, a: Action)
    requires s.inDestroy && s.waiting == multiset{} && Enabled(s, a)
    ensures var t := Apply(s, a); t.inDestroy && t.waiting == multiset{} && t.accepted == s.accepted
  {}

  /** Whatever happens from here on, nothing more is appended to a detached context exactly if
      no producer is past the door. */
  lemma NothingAppendedExactly(s: State)
    requires Inv(s) && s.inDestroy
    ensures s.waiting == multiset{} <==>
              forall acts: seq<Action>, t: State :: Leads(s, acts, t) ==> t.accepted == s.accepted
  {
    hide Inv, Enabled, Apply, Leads;
    if s.waiting == multiset{} {
      forall acts: seq<Action>, t: State | Leads(s, acts, t) ensures t.accepted == s.accepted {
        NobodyAppends(s, acts, t);
      }
    } else {
      var n :| n in s.waiting;
      var a := LateBatchEnabled(s, n);
      LeadsOne(s, a);
    }
  }

  // ---- runs that get there ----

  function Empty(): State {
    State(true, Driver, [], false, [], 0, 0, 0, map[], [], [], [], [], 0, multiset{}, false)
  }

  /** A sync object with a pending event is in the queue of a new context. */
  function Blocked(): State {
    Empty().(out := [Sync(0)], pending := map[0 := {0}], accepted := [0], clear := 1)
  }

  /** 125 timeline objects are behind it. */
  function Filled(): State { TimelinesQueued(Blocked(), 1, 125) }

  lemma FilledShape()
    ensures var s := Filled();
            && |s.out| == 126 && s.out[0] == Sync(0) && s.Fifo() == s.out && s.Aside() == []
            && s.accepted == [0] + Numbers(1, 125) && s.clear == 126 && s.waiting == multiset{}
            && s.pending == map[0 := {0}] && !s.sending && !s.inDestroy && s.mode == Driver && s.shadow
            && s.queued == s.retired == s.consumed == 0 && s.inflight == [] && s.left == []
    ensures forall x <- Filled().accepted :: x < 126
  {}

  lemma BlockedFirst()
    ensures var a := Queue([SyncReq(0, {0})], 0);
            Enabled(Empty(), a) && Apply(Empty(), a) == Blocked() && Enqueue(Empty(), a.batch, 0).code == 0
  {
    assert [SyncReq(0, {0})][1..] == [];
  }

  lemma FilledThen()
    ensures var a := Queue(Timelines(1, 125), 0);
            Enabled(Blocked(), a) && Apply(Blocked(), a) == Filled() && Enqueue(Blocked(), a.batch, 0).code == 0
  {
    hide EnqueueLoop, Timelines, TimelineObjs, Numbers, FreshIds;
    TimelinesAreFresh(Blocked(), 1, 125);
    EnqueueTimelines(Blocked(), 1, 125, 0);
  }

  lemma FilledRun() returns (ss: seq<State>, acts: seq<Action>)
    ensures Run(ss, acts) && |acts| == 2 && ss[2] == Filled()
    ensures forall i :: 0 <= i < 2 ==> acts[i].Queue?
  {
    hide Enabled, Apply, Filled, Timelines;
    BlockedFirst();
    FilledThen();
    var a, b := Queue([SyncReq(0, {0})], 0), Queue(Timelines(1, 125), 0);
    ss, acts := [Empty()], [];
    ss, acts := RunThen(ss, acts, Empty(), a, Blocked());
    ss, acts := RunThen(ss, acts, Blocked(), b, Filled());
  }

  /** The next two steps of a run. */
  lemma SleepThenLate(ss: seq<State>, acts: seq<Action>, s: State, n: nat, a: Action, t: State)
    returns (ss': seq<State>, acts': seq<Action>)
    requires Run(ss, acts) && s == ss[|acts|] && a.LateQueue? && |a.batch| == n && Enabled(s, Sleep(n))
    requires s.waiting == multiset{}
    requires CanTake(s, a.batch, a.given) && t == Enqueue(s, a.batch, a.given).state
    ensures Run(ss', acts') && acts' == acts + [Sleep(n), a] && |ss'| == |acts'| + 1 && ss'[|acts'|] == t
  {
    var u := s.(waiting := multiset{n});
    hide Run, Enqueue, CanTake;
    assert Apply(s, Sleep(n)) == u by {
      assert s.waiting + multiset{n} == multiset{n};
    }
    ss', acts' := RunThen(ss, acts, s, Sleep(n), u);
    assert Awake(u, n) == s by {
      assert multiset{n} - multiset{n} == multiset{};
    }
    ss', acts' := RunThen(ss', acts', u, a, t);
  }

  /** What is left when two more objects have come late: none of the 128 can be reached. */
  function Hidden(): State {
    var s := Filled();
    s.(out := [], hidden := s.out + TimelineObjs(126, 2), accepted := s.accepted + Numbers(126, 2), clear := 128)
  }

  /** Two objects where there is one slot. */
  lemma SecondHides(s: State, from: nat, given: u32)
    requires |s.out| == 126 && !s.sending && s.Aside() == [] && s.clear == |s.accepted|
    ensures EnqueueLoop(s, Timelines(from, 2), given) ==
            Outcome(s.(out := [], hidden := s.out + TimelineObjs(from, 2), accepted := s.accepted + Numbers(from, 2),
                       clear := |s.accepted| + 2), 0)
  {
    var a, b := Timeline(from), Timeline(from + 1);
    var u := TimelinesQueued(s, from, 1);
    var batch := Timelines(from, 2);
    assert u == Append(s, a) by {
      assert TimelineObjs(from, 1) == [a] && Numbers(from, 1) == [from];
    }
    var t := Append(u, b);
    assert t.hidden == s.out + TimelineObjs(from, 2) by {
      assert u.out + [b] == s.out + TimelineObjs(from, 2);
    }
    assert t.accepted == s.accepted + Numbers(from, 2);
    assert batch[0] == TimelineReq(from) && batch[1..][0] == TimelineReq(from + 1) && batch[1..][1..] == [];
    assert EnqueueLoop(u, batch[1..], given) == Outcome(t, 0);
    assert EnqueueLoop(s, batch, given) == Outcome(t, 0);
    assert u.Aside() == [] && t.out == [] && t.clear == |s.accepted| + 2;
  }

  lemma HiddenNext()
    ensures CanTake(Filled(), Timelines(126, 2), 0) && Enqueue(Filled(), Timelines(126, 2), 0) == Outcome(Hidden(), 0)
  {
    FilledShape();
    hide Filled, EnqueueLoop, Timelines, TimelineObjs, Numbers;
    SecondHides(Filled(), 126, 0);
    TimelinesAreFresh(Filled(), 126, 2);
  }

  /** A sync object with a pending event holds up the queue, timeline objects fill it, and two
      more are enqueued when the sleep for room times out: then 128 objects are queued, none
      can leave, and the ring shows none of them. */
  lemma TimedOutBatchCanHideQueue() returns (ss: seq<State>, acts: seq<Action>)
    ensures Run(ss, acts) && |acts| == 4 && acts[3] == LateQueue(Timelines(126, 2), 0) && ss[4] == Hidden()
    ensures |ss[4].hidden| == 128 && ss[4].Fifo() == [] && ss[4].hidden[0] == Sync(0)
    ensures ss[4].pending == map[0 := {0}]
  {
    hide Enabled, Apply, CanTake, Enqueue, Filled, Timelines, Run;
    ss, acts := FilledRun();
    FilledShape();
    HiddenNext();
    NoRoomForTwo();
    ss, acts := SleepThenLate(ss, acts, Filled(), 2, LateQueue(Timelines(126, 2), 0), Hidden());
  }

  lemma NoRoomForTwo()
    ensures Enabled(Filled(), Sleep(2)) && Enabled(Filled(), Sleep(1)) && |Timelines(126, 2)| == 2
  {
    FilledShape();
    hide Filled;
  }

  /** A command enqueued into such a ring is found at its head, sent, and overtakes the sync
      object and everything else. */
  lemma CommandCanOvertakePendingSync() returns (ss: seq<State>, acts: seq<Action>)
    ensures Run(ss, acts) && |acts| == 8 && acts[7] == SendOk
    ensures var s := ss[8];
            && s.left == [Exit(Cmd(500, 1), Submitted)] && s.inflight == [1]
            && |s.accepted| == 129 && s.accepted[0] == 0 && s.accepted[128] == 500
            && |s.hidden| == 128 && s.hidden[0] == Sync(0) && s.pending == map[0 := {0}]
  {
    hide Enabled, Apply, CanTake, Enqueue, Filled, Run;
    ss, acts := TimedOutBatchCanHideQueue();
    FilledShape();
    OvertakingNext();
    var t := Apply(Overtaking(), Pop);
    ss, acts := SleepThenLate(ss, acts, Hidden(), 1, LateQueue([CmdReq(500)], 0), Overtaking());
    ss, acts := RunThen(ss, acts, Overtaking(), Pop, t);
    ss, acts := RunThen(ss, acts, t, SendOk, Apply(t, SendOk));
  }

  function Overtaking(): State {
    Hidden().(out := [Cmd(500, 1)], accepted := Hidden().accepted + [500], queued := 1)
  }

  lemma OvertakingNext()
    ensures CanTake(Hidden(), [CmdReq(500)], 0) && Enqueue(Hidden(), [CmdReq(500)], 0).state == Overtaking()
    ensures Enabled(Hidden(), Sleep(1)) && Enabled(Overtaking(), Pop) && Enabled(Apply(Overtaking(), Pop), SendOk)
    ensures var t := Apply(Apply(Overtaking(), Pop), SendOk);
            && t.left == [Exit(Cmd(500, 1), Submitted)] && t.inflight == [1] && t.accepted == Overtaking().accepted
            && t.hidden == Hidden().hidden && t.pending == Hidden().pending
  {
    FilledShape();
    hide Filled;
    assert [CmdReq(500)][1..] == [] && ForceMarkers([]) == [];
    assert NextTimestamp(Driver, 0, 0) == Ok(1) && Lift(0, 1) == 1;
  }

  /** A producer sleeps for room while the context is detached, and enqueues when its sleep
      times out: its object is left in the ring of the detached context. */
  lemma LateBatchCanStayAfterDetach() returns (ss: seq<State>, acts: seq<Action>)
    ensures Run(ss, acts) && |acts| == 5 && acts[3] == Detach && acts[4] == LateQueue(Timelines(126, 1), 0)
    ensures ss[5].inDestroy && !ss[3].sending && ss[5].out == [Timeline(126)] && |ss[5].drained| == 126
  {
    hide Enabled, Apply, Filled, Timelines, Run;
    ss, acts := FilledRun();
    StaysNext();
    FilledShape();
    var s1 := Apply(Filled(), Sleep(1));
    var s2 := Apply(s1, Detach);
    var a := LateQueue(Timelines(126, 1), 0);
    ss, acts := RunThen(ss, acts, Filled(), Sleep(1), s1);
    ss, acts := RunThen(ss, acts, s1, Detach, s2);
    ss, acts := RunThen(ss, acts, s2, a, Apply(s2, a));
  }

  lemma StaysNext()
    ensures Enabled(Filled(), Sleep(1)) && Enabled(Apply(Filled(), Sleep(1)), Detach)
    ensures !Apply(Filled(), Sleep(1)).sending
    ensures var s, a := Apply(Apply(Filled(), Sleep(1)), Detach), LateQueue(Timelines(126, 1), 0);
            Enabled(s, a) && Apply(s, a).inDestroy && Apply(s, a).out == [Timeline(126)] && |Apply(s, a).drained| == 126
  {
    FilledShape();
    NoRoomForTwo();
    hide Filled, EnqueueLoop, Timelines, Numbers;
    LateStays(Filled(), 126);
  }

  lemma LateStays(s: State, from: nat)
    requires |s.out| == 126 && !s.sending && s.Aside() == [] && s.clear == |s.accepted| && s.waiting == multiset{}
    requires s.mode == Driver && InWindow(s) && forall x <- s.accepted :: x < from
    ensures var u := Detached(s.(waiting := s.waiting + multiset{1}));
            var a := LateQueue(Timelines(from, 1), 0);
            && Enabled(u, a) && Apply(u, a).inDestroy
            && Apply(u, a).out == [Timeline(from)] && Apply(u, a).drained == s.out
  {
    var u := Detached(s.(waiting := s.waiting + multiset{1}));
    assert 1 in u.waiting;
    TimelinesAreFresh(u, from, 1);
    EnqueueTimelines(Awake(u, 1), from, 1, 0);
    assert u.out + TimelineObjs(from, 1) == [Timeline(from)];
  }
}
