/** Scheduling of the dispatcher (hgsl_dispatch.c): a counter of jobs, one work item, one
    worker, and any number of producers. A producer takes a context reference, counts the
    job and queues the work item, in three separate steps that may interleave with all the
    others; so do the steps of the worker. */
module DispatchJobs {

  /** What the worker is doing: nothing; started, count not yet taken; `left` jobs in hand;
      or one of its jobs put back on the counter, work item not yet queued. */
  datatype Worker = Resting | Started | Issuing(left: nat, first: bool) | PutBack(left: nat)

  datatype State = State(
    refs: nat,      // context references held for jobs
    count: nat,
    queued: bool,   // the work item waits to be run
    holding: nat,   // producers that have a reference and have not counted yet
    counted: nat,   // producers that have counted and not queued the work item yet
    worker: Worker,
    attempts: nat)  // send attempts made

  /** `Kick` queues the work item without a job, as detaching a context does. */
  datatype Step =
    | Get | Count | Schedule | Kick
    | Start | Take | SendAndDrop | SendAndKeep | DropExtra | Reschedule | Finish

  predicate Enabled(s: State, a: Step) {
    match a
    case Get => true
    case Count => s.holding > 0
    case Schedule => s.counted > 0
    case Kick => true
    case Start => s.queued && s.worker.Resting?
    case Take => s.worker.Started?
    case SendAndDrop => s.worker.Issuing? && s.worker.first && s.worker.left > 0
    case SendAndKeep => s.worker.Issuing? && s.worker.first && s.worker.left > 0
    case DropExtra => s.worker.Issuing? && !s.worker.first && s.worker.left > 0
    case Reschedule => s.worker.PutBack?
    case Finish => s.worker.Issuing? && s.worker.left == 0
  }

  /** Dropping a job gives its reference back; a reference that is not there would be taken
      off all the same, which the counter of references cannot show below zero. */
  function Put(refs: nat): nat { if refs == 0 then 0 else refs - 1 }

  function Apply(s: State, a: Step): State
    requires Enabled(s, a)
  {
    match a
    case Get => s.(refs := s.refs + 1, holding := s.holding + 1)
    case Count => s.(holding := s.holding - 1, counted := s.counted + 1, count := s.count + 1)
    case Schedule => s.(counted := s.counted - 1, queued := true)
    case Kick => s.(queued := true)
    case Start => s.(queued := false, worker := Started)
    case Take => s.(count := 0, worker := Issuing(s.count, true))
    case SendAndDrop =>
      s.(refs := Put(s.refs), worker := Issuing(s.worker.left - 1, false), attempts := s.attempts + 1)
    case SendAndKeep => s.(count := s.count + 1, worker := PutBack(s.worker.left - 1), attempts := s.attempts + 1)
    case DropExtra => s.(refs := Put(s.refs), worker := Issuing(s.worker.left - 1, false))
    case Reschedule => s.(queued := true, worker := Issuing(s.worker.left, false))
    case Finish => s.(worker := Resting)
  }

  function InHand(w: Worker): nat {
    match w
    case Resting => 0
    case Started => 0
    case Issuing(left, _) => left
    case PutBack(left) => left
  }

  /** References are exactly those of counted jobs, of the jobs in the worker's hand and of
      producers about to count. */
  predicate RefsBalance(s: State) { s.refs == s.count + s.holding + InHand(s.worker) }

  /** A counted job will be seen: the work item is queued, the worker has yet to take the
      count, or someone is about to queue it. */
  predicate NoneLost(s: State) {
    s.count > 0 ==> s.queued || s.worker.Started? || s.counted > 0 || s.worker.PutBack?
  }

  predicate Inv(s: State) { RefsBalance(s) && NoneLost(s) }

  function Init(): State { State(0, 0, false, 0, 0, Resting, 0) }

  lemma StepKeepsInv(s: State, a: Step)
    requires Inv(s) && Enabled(s, a)
    ensures Inv(Apply(s, a))
    ensures a in {SendAndDrop, DropExtra} ==> s.refs > 0
  {
  }

  ghost predicate IsRun(ss: seq<State>, steps: seq<Step>) {
    && |ss| == |steps| + 1
    && ss[0] == Init()
    && forall i :: 0 <= i < |steps| ==> Enabled(ss[i], steps[i]) && ss[i + 1] == Apply(ss[i], steps[i])
  }

  lemma {:induction false} RunKeepsInv(ss: seq<State>, steps: seq<Step>)
    requires IsRun(ss, steps)
    ensures Inv(ss[|steps|])
  {
    if steps != [] {
      var n := |steps| - 1;
      RunKeepsInv(ss[..n + 1], steps[..n]);
      StepKeepsInv(ss[n], steps[n]);
    }
  }

  /** When nobody is under way, nothing is outstanding: every job was taken and every
      reference has been given back. */
  lemma NothingOutstandingAtRest(ss: seq<State>, steps: seq<Step>)
    requires IsRun(ss, steps)
    requires var s := ss[|steps|]; !s.queued && s.worker.Resting? && s.holding == 0 && s.counted == 0
    ensures ss[|steps|].count == 0 && ss[|steps|].refs == 0
  {
    RunKeepsInv(ss, steps);
  }

  predicate IsWorkerStep(a: Step) { a !in {Get, Count, Schedule, Kick} }

  /** Until it is at rest the worker always has a step to take, whatever producers do. */
  lemma WorkerIsNeverStuck(s: State)
    requires Inv(s) && (s.queued || !s.worker.Resting? || (s.count > 0 && s.counted == 0))
    ensures exists a :: IsWorkerStep(a) && Enabled(s, a)
  {
    if s.worker.Resting? {
      assert Enabled(s, Start) && IsWorkerStep(Start);
    } else if s.worker.Started? {
      assert Enabled(s, Take) && IsWorkerStep(Take);
    } else if s.worker.PutBack? {
      assert Enabled(s, Reschedule) && IsWorkerStep(Reschedule);
    } else if s.worker.left == 0 {
      assert Enabled(s, Finish) && IsWorkerStep(Finish);
    } else if s.worker.first {
      assert Enabled(s, SendAndDrop) && IsWorkerStep(SendAndDrop);
    } else {
      assert Enabled(s, DropExtra) && IsWorkerStep(DropExtra);
    }
  }

  /** Steps of the worker that remain until rest if no job is kept and no producer moves. */
  function Rank(s: State): nat {
    (if s.queued then 3 + s.count else 0) +
    match s.worker
    case Resting => 0
    case Started => 2 + s.count
    case Issuing(left, _) => 1 + left
    case PutBack(left) => 5 + s.count + left
  }

  /** Every worker step that keeps no job brings it nearer to rest. */
  lemma WorkerComesToRest(s: State, a: Step)
    requires Inv(s) && Enabled(s, a) && IsWorkerStep(a) && a != SendAndKeep
    ensures Rank(Apply(s, a)) < Rank(s)
  {
  }

  /** Of the jobs taken together the first makes the one send attempt, the others are
      dropped: between a take and the next the worker sends exactly once if it took any. */
  ghost predicate AttemptsMatch(s: State, before: nat, taken: nat) {
    match s.worker
    case Issuing(left, first) =>
      left <= taken && (if first then left == taken && s.attempts == before else taken > 0 && s.attempts == before + 1)
    case PutBack(left) => taken > left && s.attempts == before + 1
    case _ => false
  }

  lemma OneAttemptPerTake(s: State, a: Step, before: nat, taken: nat)
    requires Enabled(s, a) && AttemptsMatch(s, before, taken)
    ensures a != Finish ==> AttemptsMatch(Apply(s, a), before, taken)
    ensures a == Finish ==> s.attempts == before + if taken > 0 then 1 else 0
  {
  }

  lemma TakeStartsAttempts(s: State)
    requires Enabled(s, Take)
    ensures AttemptsMatch(Apply(s, Take), s.attempts, s.count)
  {
  }

  // ---- the functions as they are written ----

  /** `steps` lead from `s` to `t`. */
  ghost predicate Leads(s: State, steps: seq<Step>, t: State)
    decreases |steps|
  {
    if steps == [] then s == t
    else Enabled(s, steps[0]) && Leads(Apply(s, steps[0]), steps[1..], t)
  }

  lemma {:induction false} LeadsThen(s: State, steps: seq<Step>, t: State, a: Step)
    requires Leads(s, steps, t) && Enabled(t, a)
    ensures Leads(s, steps + [a], Apply(t, a))
    decreases |steps|
  {
    hide Apply, Enabled;
    if steps == [] {
      assert [a][1..] == [];
    } else {
      LeadsThen(Apply(s, steps[0]), steps[1..], t, a);
      assert (steps + [a])[1..] == steps[1..] + [a];
    }
  }

  /** They do, and all are steps of the worker. */
  ghost predicate WorkerRun(s: State, steps: seq<Step>, t: State) {
    Leads(s, steps, t) && forall a <- steps :: IsWorkerStep(a)
  }

  lemma WorkerRunThen(s: State, steps: seq<Step>, t: State, a: Step)
    requires WorkerRun(s, steps, t) && Enabled(t, a) && a !in {Get, Count, Schedule, Kick}
    ensures WorkerRun(s, steps + [a], Apply(t, a))
  {
    LeadsThen(s, steps, t, a);
  }

  /** Outcome of `hgsl_dispatch_sendcmds` as its caller tells it apart. */
  datatype Sent = Nothing | Gone | Other

  /** The driver's fields; `m` is the state of the model, moved by its steps alone. */
  class Dispatch {
    var count: nat
    var refs: nat
    var queued: bool
    ghost var m: State

    ghost predicate Valid()
      reads this
    {
      Inv(m) && count == m.count && refs == m.refs && queued == m.queued
    }

    constructor ()
      ensures Valid() && m == Init()
    {
      hide Inv;
      InitIsSound();
      count, refs, queued := 0, 0, false;
      m := Init();
    }

    // The pieces between which other threads may run.

    method GetContext()
      requires Valid()
      modifies this`refs, this`m
      ensures Valid() && m == Apply(old(m), Get)
      ensures refs == old(refs) + 1
    {
      refs := refs + 1;
      m := Apply(m, Get);
    }

    method CountJob()
      requires Valid() && Enabled(m, Count)
      modifies this`count, this`m
      ensures Valid() && m == Apply(old(m), Count)
      ensures count == old(count) + 1
    {
      count := count + 1;
      m := Apply(m, Count);
    }

    /** `hgsl_dispatch_ctxt_schedule`, by a producer, by the worker, or by a thread that
        detaches the context. */
    method ScheduleWork(a: Step)
      requires Valid() && Enabled(m, a) && a in {Schedule, Reschedule, Kick}
      modifies this`queued, this`m
      ensures Valid() && m == Apply(old(m), a)
      ensures queued
    {
      queued := true;
      m := Apply(m, a);
    }

    method StartWork()
      requires Valid() && Enabled(m, Start)
      modifies this`queued, this`m
      ensures Valid() && m == Apply(old(m), Start)
      ensures !queued && m.worker == Started
    {
      queued := false;
      m := Apply(m, Start);
    }

    method TakeJobs() returns (taken: nat)
      requires Valid() && Enabled(m, Take)
      modifies this`count, this`m
      ensures Valid() && m == Apply(old(m), Take)
      ensures taken == old(count) && count == 0
    {
      taken := count;
      count := 0;
      m := Apply(m, Take);
    }

    method PutContext(a: Step)
      requires Valid() && Enabled(m, a) && a in {SendAndDrop, DropExtra}
      modifies this`refs, this`m
      ensures Valid() && m == Apply(old(m), a)
      ensures refs == old(refs) - 1
    {
      refs := refs - 1;
      m := Apply(m, a);
    }

    method KeepJob()
      requires Valid() && Enabled(m, SendAndKeep)
      modifies this`count, this`m
      ensures Valid() && m == Apply(old(m), SendAndKeep)
      ensures count == old(count) + 1
    {
      count := count + 1;
      m := Apply(m, SendAndKeep);
    }

    /** `hgsl_dispatch_queue_context`: nothing is counted for a context that is going away. */
    method QueueContext(alive: bool)
      requires Valid()
      modifies this
      ensures Valid()
      ensures alive ==> m == Apply(Apply(Apply(old(m), Get), Count), Schedule)
      ensures !alive ==> m == old(m)
      ensures refs == old(refs) + (if alive then 1 else 0) && count == old(count) + (if alive then 1 else 0)
      ensures queued == (alive || old(queued))
    {
      if !alive {
        return;
      }
      GetContext();
      CountJob();
      ScheduleWork(Schedule);
    }

    /** `hgsl_dispatch_ctxt_issuecmds`, from the start of the worker to its end: takes all
        jobs, sends once if there were any, and leaves one job and the work item behind
        exactly when something was left to send. It is a run of worker steps. */
    method IssueCmds(sent: Sent) returns (ghost steps: seq<Step>)
      requires Valid() && m.worker.Started?
      modifies this
      ensures Valid() && WorkerRun(old(m), steps, m)
      ensures var keep := old(count) > 0 && sent == Other;
              m == old(m).(worker := Resting,
                           attempts := old(m).attempts + (if old(count) > 0 then 1 else 0),
                           count := if keep then 1 else 0,
                           refs := old(m).refs - old(count) + (if keep then 1 else 0),
                           queued := old(m).queued || keep)
      ensures count == if old(count) > 0 && sent == Other then 1 else 0
      ensures queued == (old(queued) || (old(count) > 0 && sent == Other))
      ensures refs == old(refs) - old(count) + count
    {
      hide WorkerRun, IsWorkerStep, Inv;
      ghost var s := m;
      JobsHoldRefs(s);
      var taken := TakeJobs();
      steps := [Take];
      TakeLeads(s);
      var i := 0;
      while i < taken
        invariant 0 <= i <= taken == s.count && Valid() && WorkerRun(s, steps, m)
        invariant i == 0 ==> m == Apply(s, Take)
        invariant i > 0 ==> m == s.(worker := Issuing(taken - i, false), attempts := s.attempts + 1,
                                    count := if sent == Other then 1 else 0,
                                    refs := s.refs - i + (if sent == Other then 1 else 0),
                                    queued := s.queued || sent == Other)
      {
        if i > 0 {
          WorkerRunThen(s, steps, m, DropExtra);
          PutContext(DropExtra);
          steps := steps + [DropExtra];
        } else if sent == Nothing || sent == Gone {
          WorkerRunThen(s, steps, m, SendAndDrop);
          PutContext(SendAndDrop);
          steps := steps + [SendAndDrop];
        } else {
          WorkerRunThen(s, steps, m, SendAndKeep);
          KeepJob();
          steps := steps + [SendAndKeep];
          WorkerRunThen(s, steps, m, Reschedule);
          ScheduleWork(Reschedule);
          steps := steps + [Reschedule];
        }
        i := i + 1;
      }
      WorkerRunThen(s, steps, m, Finish);
      StepKeepsInv(m, Finish);
      m := Apply(m, Finish);
      steps := steps + [Finish];
    }
  }

  lemma JobsHoldRefs(s: State)
    requires Inv(s)
    ensures s.count <= s.refs
  {
  }

  lemma InitIsSound()
    ensures Inv(Init())
  {
  }

  lemma TakeLeads(s: State)
    requires Enabled(s, Take)
    ensures WorkerRun(s, [Take], Apply(s, Take))
  {
    assert [Take][1..] == [];
  }
}
