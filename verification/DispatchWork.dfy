/** The draw queue and the scheduling of the dispatcher together (hgsl_dispatch.c): that an
    object in the queue of a context always has a job that will look at it. */
module DispatchWork {
  import opened Timestamps
  import Q = DispatchModel
  import R = DispatchRuns
  import B = DispatchBatches
  import L = DispatchLimits
  import J = DispatchJobs

  /** How far `hgsl_dispatch_sendcmds` has come with the first of the jobs in hand: still at
      it; broken off after an empty queue, a blocked one, a failed sending, or ENOENT. */
  datatype Burst = Going(sent: nat) | Emptied(sent: nat) | Blocked | Failed | Gone

  datatype World = World(
    queue: Q.State,
    jobs: J.State,
    owing: nat,      // producers that have enqueued and have not taken a reference yet
    burst: Burst,
    gone: bool)      // a sending has found the context destroyed

  datatype Step =
    | Enqueue(action: Q.Action)
    | Get(owed: bool)              // by a producer, or by an event that makes the context run
    | Job(step: J.Step)
    | Dispatch(action: Q.Action)
    | FindEmpty
    | FindBlocked
    | Return
    | Outside(action: Q.Action)

  /** The worker is in `hgsl_dispatch_sendcmds`. */
  predicate Sending(j: J.State) { j.worker.Issuing? && j.worker.first && j.worker.left > 0 }

  predicate Bursting(w: World) { Sending(w.jobs) && w.burst.Going? }

  predicate IsJobStep(a: J.Step) { a !in {J.Get, J.SendAndDrop, J.SendAndKeep} }

  /** Steps of others: producers that lie down to sleep or give up, hardware, events, detach. */
  predicate IsOutside(a: Q.Action) {
    a.Sleep? || a.GiveUp? || a.HwConsume? || a.HwRetire? || a.Fire? || a.Detach?
  }

  predicate Enabled(w: World, a: Step) {
    match a
    case Enqueue(action) => action.Enqueues() && Q.Enabled(w.queue, action) && B.IoctlShape(action.batch)
    case Get(owed) => owed ==> w.owing > 0
    case Job(step) => IsJobStep(step) && J.Enabled(w.jobs, step)
    case Dispatch(action) => Bursting(w) && !action.Enqueues() && !IsOutside(action) && Q.Enabled(w.queue, action)
    case FindEmpty => Bursting(w) && !w.queue.sending && w.queue.out == []
    case FindBlocked =>
      && Bursting(w) && !w.queue.sending && w.queue.out != []
      && !Q.HeadRetires(w.queue) && !Q.HeadIsReady(w.queue)
    case Return => Sending(w.jobs) && !w.burst.Going?
    case Outside(action) => IsOutside(action) && Q.Enabled(w.queue, action)
  }

  /** A producer whose batch went into the queue has a job to announce; one that got an error
      or retired its marker at once has not. */
  function Announces(s: Q.State, a: Q.Action): nat
    requires a.Enqueues()
  {
    var u := Q.Found(s, a);
    if Q.Enqueue(u, a.batch, a.given).code != 0 || (|a.batch| == 1 && a.batch[0].MarkerReq? && Q.FastPath(u)) then 0
    else 1
  }

  function After(b: Burst, a: Q.Action): Burst {
    match b
    case Going(sent) =>
      if a.SendOk? then Going(sent + 1) else if a.SendFail? then Failed else if a.SendGone? then Gone else b
    case _ => b
  }

  function Apply(w: World, a: Step): World
    requires Enabled(w, a)
  {
    match a
    case Enqueue(action) =>
      w.(queue := Q.Apply(w.queue, action), owing := w.owing + Announces(w.queue, action))
    case Get(owed) => w.(jobs := J.Apply(w.jobs, J.Get), owing := if owed then w.owing - 1 else w.owing)
    case Job(step) => w.(jobs := J.Apply(w.jobs, step), burst := if step == J.Take then Going(0) else w.burst)
    case Dispatch(action) =>
      w.(queue := Q.Apply(w.queue, action), burst := After(w.burst, action), gone := w.gone || action.SendGone?)
    case FindEmpty => w.(burst := Emptied(w.burst.sent))
    case FindBlocked => w.(burst := Blocked)
    case Return =>
      w.(jobs := J.Apply(w.jobs, if w.burst in {Gone, Emptied(0)} then J.SendAndDrop else J.SendAndKeep))
    case Outside(action) => w.(queue := Q.Apply(w.queue, action))
  }

  ghost predicate Init(w: World) {
    Q.Init(w.queue) && w.jobs == J.Init() && w.owing == 0 && w.burst == Going(0) && !w.gone
  }

  /** Objects in the queue of a context that is not gone have a job counted, a job in hand
      that has not been found to have nothing to do, or a producer about to count one. */
  predicate Attended(w: World) {
    w.queue.out != [] && !w.gone ==>
      w.owing > 0 || w.jobs.holding > 0 || w.jobs.count > 0 || (Sending(w.jobs) && w.burst != Emptied(0))
  }

  ghost predicate Inv(w: World) {
    && Q.Inv(w.queue) && J.Inv(w.jobs) && Attended(w)
    && (w.burst.Gone? ==> w.gone)
    && (w.queue.sending ==> Bursting(w))
  }

  // ---- one step ----

  /** The queue grows only if its producer then announces a job. */
  lemma EnqueueAnnounces(s: Q.State, a: Q.Action)
    requires Q.Inv(s) && a.Enqueues() && a.batch != [] && B.IoctlShape(a.batch)
    ensures var o := Q.Enqueue(Q.Found(s, a), a.batch, a.given).state;
            o.sending == s.sending && (Announces(s, a) == 0 ==> o.out == s.out)
  {
    hide Q.Inv, Q.EnqueueLoop, B.AppendedSome;
    R.InvBasics(s);
    var u := Q.Found(s, a);
    B.LoopKeepsSending(u, a.batch, a.given);
    B.BatchIsAllOrNothing(u, a.batch, a.given);
    if Announces(s, a) == 0 && Q.Enqueue(u, a.batch, a.given).code == 0 {
      B.LoneFastMarker(u, a.batch, a.given);
    }
  }

  lemma EnqueueKeepsInv(w: World, a: Step)
    requires Inv(w) && Enabled(w, a) && a.Enqueue?
    ensures Inv(Apply(w, a))
  {
    hide Q.Inv, J.Inv, Q.Enqueue;
    R.StepKeepsInv(w.queue, a.action);
    EnqueueAnnounces(w.queue, a.action);
  }

  lemma JobStepKeepsInv(w: World, a: Step)
    requires Inv(w) && Enabled(w, a) && (a.Get? || a.Job? || a.Return?)
    ensures Inv(Apply(w, a))
  {
    hide Q.Inv, J.Inv;
    J.StepKeepsInv(w.jobs, match a
      case Job(step) => step
      case Return => if w.burst in {Gone, Emptied(0)} then J.SendAndDrop else J.SendAndKeep
      case _ => J.Get);
  }

  /** What a step of the dispatcher or from outside does to the queue: it never grows. */
  lemma QueueStepShape(s: Q.State, a: Q.Action)
    requires Q.Inv(s) && Q.Enabled(s, a) && !a.Enqueues()
    ensures Q.Apply(s, a).out != [] ==> s.out != []
    ensures IsOutside(a) ==> Q.Apply(s, a).sending == s.sending
    ensures a.SendOk? || a.SendFail? || a.SendGone? ==> !Q.Apply(s, a).sending
  {
  }

  lemma QueueStepKeepsInv(w: World, a: Step)
    requires Inv(w) && Enabled(w, a) && (a.Dispatch? || a.Outside?)
    ensures Inv(Apply(w, a))
  {
    hide Q.Inv, J.Inv, Q.Apply, Q.Enabled;
    R.StepKeepsInv(w.queue, a.action);
    QueueStepShape(w.queue, a.action);
  }

  lemma FindKeepsInv(w: World, a: Step)
    requires Inv(w) && Enabled(w, a) && (a.FindEmpty? || a.FindBlocked?)
    ensures Inv(Apply(w, a))
  {
    hide Q.Inv, J.Inv;
  }

  /** Every step of producers, worker, events, hardware and detach keeps the invariant. */
  lemma StepKeepsInv(w: World, a: Step)
    requires Inv(w) && Enabled(w, a)
    ensures Inv(Apply(w, a))
  {
    hide Inv, Enabled, Apply;
    match a
    case Enqueue(_) => EnqueueKeepsInv(w, a);
    case Dispatch(_) => QueueStepKeepsInv(w, a);
    case Outside(_) => QueueStepKeepsInv(w, a);
    case FindEmpty => FindKeepsInv(w, a);
    case FindBlocked => FindKeepsInv(w, a);
    case _ => JobStepKeepsInv(w, a);
  }

  lemma InitIsSound(w: World)
    requires Init(w)
    ensures Inv(w)
  {
    hide Q.Inv, J.Inv, Q.Init;
    R.InitIsSound(w.queue);
    J.InitIsSound();
    NothingToAttend(w.queue);
  }

  lemma NothingToAttend(s: Q.State)
    requires Q.Init(s)
    ensures s.out == [] && !s.sending
  {
  }

  // ---- runs ----

  ghost predicate Run(ws: seq<World>, steps: seq<Step>) {
    && |ws| == |steps| + 1 && Init(ws[0])
    && forall i :: 0 <= i < |steps| ==> Enabled(ws[i], steps[i]) && ws[i + 1] == Apply(ws[i], steps[i])
  }

  /** In every interleaving of producers, worker, events, hardware and detach, what is in the
      ring is attended to, and the job that does it has a pass of the worker coming. */
  lemma {:induction false} QueuedWorkIsAttended(ws: seq<World>, steps: seq<Step>, i: nat)
    requires Run(ws, steps) && i < |ws|
    ensures Inv(ws[i]) && Attended(ws[i]) && J.NoneLost(ws[i].jobs)
  {
    hide Q.Inv, Enabled, Apply, Init;
    if i == 0 {
      InitIsSound(ws[0]);
    } else {
      QueuedWorkIsAttended(ws, steps, i - 1);
      StepKeepsInv(ws[i - 1], steps[i - 1]);
    }
  }

  /** Nobody is under way: no producer, no worker, no work item. */
  predicate AtRest(w: World) {
    && w.owing == 0 && w.jobs.holding == 0 && w.jobs.counted == 0
    && !w.jobs.queued && w.jobs.worker.Resting?
  }

  /** So when all has come to rest nothing is left in the ring of a live context, no job is
      counted and no reference is held: every accepted object has left, but for those hidden
      in the ring and those taken off at detach. */
  lemma NothingQueuedAtRest(ws: seq<World>, steps: seq<Step>, i: nat)
    requires Run(ws, steps) && i < |ws| && AtRest(ws[i])
    ensures ws[i].jobs.count == 0 && ws[i].jobs.refs == 0
    ensures !ws[i].gone ==>
              && ws[i].queue.out == []
              && (ws[i].queue.Aside() == [] <==> Q.LeftIds(ws[i].queue.left) == ws[i].queue.accepted)
  {
    QueuedWorkIsAttended(ws, steps, i);
    if !ws[i].gone {
      LeftOrAside(ws[i].queue);
    }
  }

  lemma LeftOrAside(s: Q.State)
    requires Q.Inv(s) && s.out == []
    ensures s.Aside() == [] <==> Q.LeftIds(s.left) == s.accepted
  {
    assert Q.Ids([]) == [] && Q.Line(s) == Q.LeftIds(s.left);
    if s.Aside() == [] {
      R.WholeLine(s);
    } else {
      var id := s.Aside()[0].id;
      R.InAccepted(s.accepted, Q.Line(s), Q.Ids(s.Aside()));
      assert Q.Ids(s.Aside())[0] == id && id in Q.Ids(s.Aside());
    }
  }

  predicate IsWorkerStep(a: Step) {
    match a
    case Job(step) => J.IsWorkerStep(step)
    case Dispatch(_) => true
    case FindEmpty => true
    case FindBlocked => true
    case Return => true
    case _ => false
  }

  /** As long as anything is in the ring of a live context somebody has a step to take: a
      producer announcing its job, or the worker. */
  lemma SomeoneGoesOn(w: World) returns (a: Step)
    requires Inv(w) && w.queue.out != [] && !w.gone
    ensures Enabled(w, a) && (IsWorkerStep(a) || a == Get(true) || a in {Job(J.Count), Job(J.Schedule)})
  {
    hide Q.Inv;
    if w.owing > 0 {
      a := Get(true);
    } else if w.jobs.holding > 0 {
      a := Job(J.Count);
    } else if w.jobs.counted > 0 {
      a := Job(J.Schedule);
    } else if w.jobs.worker.Resting? {
      a := Job(J.Start);
    } else if w.jobs.worker.Started? {
      a := Job(J.Take);
    } else if w.jobs.worker.PutBack? {
      a := Job(J.Reschedule);
    } else if w.jobs.worker.left == 0 {
      a := Job(J.Finish);
    } else if !w.jobs.worker.first {
      a := Job(J.DropExtra);
    } else if !w.burst.Going? {
      a := Return;
    } else if w.queue.sending {
      a := Dispatch(Q.SendFail);
    } else if Q.HeadRetires(w.queue) {
      a := Dispatch(Q.RetireHead);
    } else if Q.HeadIsReady(w.queue) {
      a := Dispatch(Q.Pop);
    } else {
      a := FindBlocked;
    }
  }

  // ---- a batch that went in without room ----

  ghost predicate Reached(w: World) { exists ws, steps :: Run(ws, steps) && ws[|steps|] == w }

  lemma StartIsReached(w: World)
    requires Init(w)
    ensures Reached(w)
  {
    var ws, steps: seq<Step> := [w], [];
    assert Run(ws, steps) && ws[|steps|] == w;
  }

  lemma ReachedThen(w: World, a: Step) returns (w': World)
    requires Reached(w) && Enabled(w, a)
    ensures w' == Apply(w, a) && Reached(w')
  {
    hide Apply, Enabled, Init;
    var ws, steps :| Run(ws, steps) && ws[|steps|] == w;
    w' := Apply(w, a);
    var us, more := ws + [w'], steps + [a];
    assert Run(us, more) && us[|more|] == w';
  }

  lemma GetThen(w: World, j: J.State) returns (w': World)
    requires Reached(w) && w.owing > 0 && j == J.Apply(w.jobs, J.Get)
    ensures Reached(w') && w' == w.(owing := w.owing - 1, jobs := j)
  {
    hide Reached;
    w' := ReachedThen(w, Get(true));
  }

  lemma JobThen(w: World, step: J.Step, j: J.State) returns (w': World)
    requires Reached(w) && IsJobStep(step) && J.Enabled(w.jobs, step) && j == J.Apply(w.jobs, step)
    ensures Reached(w') && w' == w.(jobs := j, burst := if step == J.Take then Going(0) else w.burst)
  {
    hide Reached;
    w' := ReachedThen(w, Job(step));
  }

  /** A producer that has enqueued announces its job. */
  lemma AnnouncedOne(w0: World, n: nat) returns (w: World)
    requires Reached(w0) && w0.owing > 0 && w0.jobs == J.State(n, n, n > 0, 0, 0, J.Resting, 0)
    ensures Reached(w) && w == w0.(owing := w0.owing - 1, jobs := J.State(n + 1, n + 1, true, 0, 0, J.Resting, 0))
  {
    hide Reached;
    w := GetThen(w0, J.State(n + 1, n, n > 0, 1, 0, J.Resting, 0));
    w := JobThen(w, J.Count, J.State(n + 1, n + 1, n > 0, 0, 1, J.Resting, 0));
    w := JobThen(w, J.Schedule, J.State(n + 1, n + 1, true, 0, 0, J.Resting, 0));
  }

  /** The worker takes three jobs, finds a ring that looks empty, and drops the first. */
  lemma FoundNothing(w0: World) returns (w: World)
    requires Reached(w0) && w0.jobs == J.State(3, 3, true, 0, 0, J.Resting, 0)
    requires !w0.queue.sending && w0.queue.out == []
    ensures Reached(w) && w == w0.(jobs := J.State(2, 0, false, 0, 0, J.Issuing(2, false), 1), burst := Emptied(0))
  {
    hide Reached;
    w := JobThen(w0, J.Start, J.State(3, 3, false, 0, 0, J.Started, 0));
    w := JobThen(w, J.Take, J.State(3, 0, false, 0, 0, J.Issuing(3, true), 0));
    w := ReachedThen(w, FindEmpty);
    w := ReachedThen(w, Return);
  }

  lemma DroppedRest(w0: World) returns (w: World)
    requires Reached(w0) && w0.jobs == J.State(2, 0, false, 0, 0, J.Issuing(2, false), 1)
    ensures Reached(w) && w == w0.(jobs := J.State(0, 0, false, 0, 0, J.Resting, 1))
  {
    hide Reached;
    w := JobThen(w0, J.DropExtra, J.State(1, 0, false, 0, 0, J.Issuing(1, false), 1));
    w := JobThen(w, J.DropExtra, J.State(0, 0, false, 0, 0, J.Issuing(0, false), 1));
    w := JobThen(w, J.Finish, J.State(0, 0, false, 0, 0, J.Resting, 1));
  }

  lemma EnqueueThen(w: World, a: Q.Action, s: Q.State) returns (w': World)
    requires Reached(w) && a.Enqueues() && B.IoctlShape(a.batch) && a.batch != [] && !a.batch[0].Stamped()
    requires Q.Enabled(w.queue, a) && s == Q.Apply(w.queue, a)
    requires Q.Enqueue(Q.Found(w.queue, a), a.batch, a.given).code == 0
    ensures Reached(w') && w' == w.(queue := s, owing := w.owing + 1)
  {
    hide Reached, Q.Enqueue;
    w' := ReachedThen(w, Enqueue(a));
  }

  lemma SleepThen(w: World, n: nat, s: Q.State) returns (w': World)
    requires Reached(w) && Q.Enabled(w.queue, Q.Sleep(n)) && s == Q.Apply(w.queue, Q.Sleep(n))
    ensures Reached(w') && w' == w.(queue := s)
  {
    hide Reached;
    w' := ReachedThen(w, Outside(Q.Sleep(n)));
  }

  /** All is at rest, and 128 objects are left in the ring of a live context, none of which is
      between head and tail. */
  lemma QueueCanBeLeftBehind() returns (w: World)
    ensures Reached(w) && AtRest(w) && !w.gone && w.jobs.count == 0 && |w.queue.hidden| == 128 && !w.queue.inDestroy
  {
    hide Q.Enabled, Q.Apply, Q.Enqueue, Q.Init, L.Filled, L.Timelines, Reached;
    EmptyWorld();
    L.BlockedFirst();
    L.FilledThen();
    L.NoRoomForTwo();
    L.FilledShape();
    SleeperNext();
    w := World(L.Empty(), J.Init(), 0, Going(0), false);
    w := EnqueueThen(w, Q.Queue([Q.SyncReq(0, {0})], 0), L.Blocked());
    TimelinesShape(1, 125);
    w := EnqueueThen(w, Q.Queue(L.Timelines(1, 125), 0), L.Filled());
    w := SleepThen(w, 2, Sleeper());
    TimelinesShape(126, 2);
    w := EnqueueThen(w, Q.LateQueue(L.Timelines(126, 2), 0), L.Hidden());
    w := AnnouncedOne(w, 0);
    w := AnnouncedOne(w, 1);
    w := AnnouncedOne(w, 2);
    w := FoundNothing(w);
    w := DroppedRest(w);
  }

  function Sleeper(): Q.State { L.Filled().(waiting := multiset{2}) }

  lemma EmptyWorld()
    ensures Reached(World(L.Empty(), J.Init(), 0, Going(0), false))
  {
    StartIsReached(World(L.Empty(), J.Init(), 0, Going(0), false));
  }

  lemma TimelinesShape(from: nat, n: nat)
    requires n > 0
    ensures var batch := L.Timelines(from, n);
            B.IoctlShape(batch) && batch != [] && |batch| == n && !batch[0].Stamped()
  {
  }

  lemma SleeperNext()
    ensures Q.Enabled(L.Filled(), Q.Sleep(2)) && Q.Apply(L.Filled(), Q.Sleep(2)) == Sleeper()
    ensures var a := Q.LateQueue(L.Timelines(126, 2), 0);
            && Q.Enabled(Sleeper(), a) && Q.Apply(Sleeper(), a) == L.Hidden()
            && Q.Enqueue(Q.Found(Sleeper(), a), a.batch, 0).code == 0
  {
    L.FilledShape();
    L.NoRoomForTwo();
    L.HiddenNext();
    TimelinesShape(126, 2);
    hide L.Filled, L.Timelines, L.Hidden, Q.Enqueue, Q.CanTake;
    assert L.Filled().waiting + multiset{2} == multiset{2};
    assert Q.Awake(Sleeper(), 2) == L.Filled() by {
      assert multiset{2} - multiset{2} == multiset{};
    }
  }
}
