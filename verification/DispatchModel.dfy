/** The draw queue and dispatcher of one context as a state machine over its atomic
    steps (`hgsl_dispatch.c`, detach in `hgsl_drawobj.c`).

    Times here are unbounded and compared with `>=`; `DispatchContext` carries the
    32-bit registers and shows that they take the same decisions. */
module DispatchModel {
  import opened Sequences
  import opened Timestamps
  import opened Units

  const QUEUE_SIZE: int := 128   // CONTEXT_DRAWQUEUE_SIZE

  /** `id` is the identity of the object, `markerTime` the last time queued before a
      marker, `flagged` whether HGSL_DRAWOBJ_MARKER is set, `skip` CMDOBJ_SKIP. */
  datatype DrawObj =
    | Cmd(id: nat, time: int)
    | Marker(id: nat, time: int, markerTime: int, skip: bool, flagged: bool)
    | Sync(id: nat)
    | Timeline(id: nat)
  {
    predicate Stamped() { Cmd? || Marker? }
  }

  /** A draw object as a caller hands it in. */
  datatype Request =
    | CmdReq(id: nat)
    | MarkerReq(id: nat, flagged: bool)
    | SyncReq(id: nat, events: set<nat>)
    | TimelineReq(id: nat)
  {
    predicate Stamped() { CmdReq? || MarkerReq? }
  }

  datatype Fate = Submitted | CpuRetired | SyncDone | Signalled | Lost

  datatype Exit = Exit(obj: DrawObj, fate: Fate)

  datatype State = State(
    shadow: bool,                  // the context has a shadow timestamp page
    mode: Mode,
    out: seq<DrawObj>,             // the object being sent and those in the ring, oldest first
    sending: bool,                 // out[0] is popped and being sent, the lock dropped
    inflight: seq<int>,            // submitted and not yet retired by hardware
    queued: int,                   // time of the last accepted object
    consumed: int,                 // shadow_ts->sop
    retired: int,                  // shadow_ts->eop
    pending: map<nat, set<nat>>,   // pending events of each sync object
    accepted: seq<nat>,            // ids in enqueue order
    left: seq<Exit>,               // objects that left the queue, in order
    hidden: seq<DrawObj>,          // objects in slots no longer between head and tail
    drained: seq<DrawObj>,         // objects taken off at detach
    clear: nat,                    // how many were accepted before any was hidden or drained
    waiting: multiset<nat>,        // batch sizes of producers that sleep until there is room
    inDestroy: bool)
  {
    /** The object being sent, if there is one. */
    function BeingSent(): seq<DrawObj> { if sending && out != [] then [out[0]] else [] }

    /** The queue slots from head to tail. */
    function Fifo(): seq<DrawObj> { if sending && out != [] then out[1..] else out }

    /** The driver's counter of queued objects, which is not lowered for objects that were
        hidden or taken off at detach. */
    function Count(): nat { |Fifo()| + |hidden| + |drained| }

    /** The room test made before a batch of `n` objects is enqueued. */
    predicate HasRoom(n: nat) { Count() + n <= QUEUE_SIZE - 2 }

    /** Accepted objects that will not leave the queue any more. */
    function Aside(): seq<DrawObj> { hidden + drained }
  }

  // ---- enqueue ----

  /** CMDOBJ_SKIP on every marker; one that is being sent has it already. */
  function ForceMarkers(os: seq<DrawObj>): (r: seq<DrawObj>)
    ensures |r| == |os|
    ensures forall k :: 0 <= k < |r| ==>
              r[k] == if os[k].Marker? then os[k].(skip := true) else os[k]
  {
    seq(|os|, k requires 0 <= k < |os| => if os[k].Marker? then os[k].(skip := true) else os[k])
  }

  function Accept(s: State, id: nat): State {
    s.(accepted := s.accepted + [id], clear := if s.Aside() == [] then |s.accepted| + 1 else s.clear)
  }

  /** Into the slot at the tail. With 127 objects between head and tail the tail catches up
      with the head, and from then on no slot of the ring is seen as taken. */
  function Append(s: State, o: DrawObj): State {
    var t := Accept(s, o.id);
    if |s.Fifo()| == QUEUE_SIZE - 1 then t.(out := s.BeingSent(), hidden := s.hidden + s.Fifo() + [o])
    else t.(out := s.out + [o])
  }

  function QueueCmd(s: State, id: nat, t: int): State {
    Append(s.(out := ForceMarkers(s.out), queued := t), Cmd(id, t))
  }

  /** A marker needs no GPU work when nothing is counted as queued and everything has
      retired. */
  predicate FastPath(s: State) {
    s.shadow && s.Count() == 0 && s.retired >= s.queued
  }

  function QueueMarker(s: State, id: nat, flagged: bool, t: int): State {
    var m := Marker(id, t, s.queued, !s.shadow, flagged);
    if FastPath(s) then
      Accept(s, id).(queued := t, consumed := t, retired := t, left := s.left + [Exit(m, CpuRetired)])
    else
      Append(s.(queued := t), m)
  }

  function QueueSync(s: State, id: nat, events: set<nat>): State {
    Append(s.(pending := s.pending[id := events]), Sync(id))
  }

  datatype Outcome = Outcome(state: State, code: int)

  /** The time a stamped object gets, if it gets one. */
  function TimeGiven(s: State, given: u32): int {
    var r := NextTimestamp(s.mode, Wrap32(s.queued), given);
    if r.Ok? then Lift(s.queued, r.value) else s.queued
  }

  /** One turn of the enqueue loop, `t` being the time of a stamped object. */
  function QueueOne(s: State, r: Request, t: int): State {
    match r
    case SyncReq(id, events) => QueueSync(s, id, events)
    case TimelineReq(id) => Append(s, Timeline(id))
    case CmdReq(id) => QueueCmd(s, id, t)
    case MarkerReq(id, flagged) => QueueMarker(s, id, flagged, t)
  }

  /** The enqueue loop: stops at the first error and after a fast-path marker. */
  function EnqueueLoop(s: State, batch: seq<Request>, given: u32): Outcome
    decreases |batch|
  {
    if batch == [] then Outcome(s, 0)
    else
      var r := NextTimestamp(s.mode, Wrap32(s.queued), given);
      if batch[0].Stamped() && r.Err? then Outcome(s, r.code)
      else
        var u := QueueOne(s, batch[0], TimeGiven(s, given));
        if batch[0].MarkerReq? && FastPath(s) then Outcome(u, 0) else EnqueueLoop(u, batch[1..], given)
  }

  /** The early timestamp check is skipped for a lone sync object. */
  predicate StaleClientTime(s: State, batch: seq<Request>, given: u32) {
    !(|batch| == 1 && batch[0].SyncReq?) && s.mode == Client && Ts32Ge(Wrap32(s.queued), given)
  }

  function Enqueue(s: State, batch: seq<Request>, given: u32): Outcome {
    if StaleClientTime(s, batch, given) then Outcome(s, ERANGE) else EnqueueLoop(s, batch, given)
  }

  // ---- the steps ----

  predicate Expired(s: State, m: DrawObj)
    requires m.Marker?
  {
    m.flagged && s.shadow && s.retired >= m.markerTime
  }

  /** The scan takes the first object off the queue. */
  predicate HeadRetires(s: State) {
    s.out != [] && match s.out[0]
      case Sync(id) => id in s.pending && s.pending[id] == {}
      case Timeline(_) => true
      case Marker(_, _, _, _, _) => Expired(s, s.out[0])
      case Cmd(_, _) => false
  }

  /** The scan returns the first object to be sent. */
  predicate HeadIsReady(s: State) {
    s.out != [] && (s.out[0].Cmd? || (s.out[0].Marker? && !Expired(s, s.out[0]) && s.out[0].skip))
  }

  /** A producer passes the test at the door and either enqueues at once (`Queue`) or drops
      the lock to sleep until there is room (`Sleep`). A sleep that times out goes on to
      enqueue whatever has become of the context (`LateQueue`); one that is interrupted or
      finds room ends the call (`GiveUp`). */
  datatype Action =
    | Queue(batch: seq<Request>, given: u32)
    | Sleep(size: nat)
    | LateQueue(batch: seq<Request>, given: u32)
    | GiveUp(size: nat)
    | RetireHead
    | Pop
    | SendOk
    | SendFail
    | SendGone
    | HwConsume(index: nat)
    | HwRetire
    | Fire(id: nat, event: nat)
    | Detach
  {
    predicate Enqueues() { Queue? || LateQueue? }
  }

  predicate FreshIds(s: State, batch: seq<Request>) {
    && (forall k :: 0 <= k < |batch| ==> batch[k].id !in s.accepted)
    && (forall j, k :: 0 <= j < k < |batch| ==> batch[j].id != batch[k].id)
  }

  predicate InWindow(s: State) { s.queued - s.retired <= TWO31 }

  /** The objects are new, and their times stay within half a turn. */
  predicate CanTake(s: State, batch: seq<Request>, given: u32) {
    batch != [] && FreshIds(s, batch) && InWindow(Enqueue(s, batch, given).state)
  }

  /** The test at the door. */
  predicate Admits(s: State, n: nat) { !s.inDestroy && 0 < n <= QUEUE_SIZE - 2 }

  /** A producer whose batch has `n` objects is awake again. */
  function Awake(s: State, n: nat): State { s.(waiting := s.waiting - multiset{n}) }

  /** The state in which an enqueue finds the context. */
  function Found(s: State, a: Action): State
    requires a.Enqueues()
  {
    if a.Queue? then s else Awake(s, |a.batch|)
  }

  predicate Enabled(s: State, a: Action) {
    match a
    case Queue(batch, given) => Admits(s, |batch|) && s.HasRoom(|batch|) && CanTake(s, batch, given)
    case Sleep(n) => Admits(s, n) && !s.HasRoom(n)
    case LateQueue(batch, given) => |batch| in s.waiting && CanTake(Awake(s, |batch|), batch, given)
    case GiveUp(n) => n in s.waiting
    case RetireHead => !s.sending && HeadRetires(s)
    case Pop => !s.sending && HeadIsReady(s)
    case SendOk => s.sending && s.out != [] && s.out[0].Stamped()
    case SendFail => s.sending
    case SendGone => s.sending && s.out != []
    case HwConsume(k) => k < |s.inflight| && s.consumed < s.inflight[k] && (k > 0 ==> s.inflight[k - 1] <= s.consumed)
    case HwRetire => s.inflight != [] && s.inflight[0] <= s.consumed
    case Fire(id, event) => id in s.pending && event in s.pending[id]
    case Detach => !s.inDestroy
  }

  function Apply(s: State, a: Action): State
    requires Enabled(s, a)
  {
    match a
    case Queue(batch, given) => Enqueue(s, batch, given).state
    case Sleep(n) => s.(waiting := s.waiting + multiset{n})
    case LateQueue(batch, given) => Enqueue(Awake(s, |batch|), batch, given).state
    case GiveUp(n) => Awake(s, n)
    case RetireHead => RetireFirst(s)
    case Pop => s.(sending := true)
    case SendOk =>
      s.(sending := false, out := s.out[1..],
         inflight := s.inflight + [s.out[0].time], left := s.left + [Exit(s.out[0], Submitted)])
    case SendFail => PutBack(s)
    case SendGone => s.(sending := false, out := s.out[1..], left := s.left + [Exit(s.out[0], Lost)])
    case HwConsume(k) => s.(consumed := s.inflight[k])
    case HwRetire => s.(inflight := s.inflight[1..], retired := s.inflight[0])
    case Fire(id, event) => s.(pending := s.pending[id := s.pending[id] - {event}])
    case Detach => Detached(s)
  }

  /** The object being sent goes back into the slot before the head. With 127 objects in the
      ring the head meets the tail. */
  function PutBack(s: State): State {
    if |s.Fifo()| == QUEUE_SIZE - 1 then s.(sending := false, out := [], hidden := s.hidden + s.out)
    else s.(sending := false)
  }

  /** The flag that closes the door is set before the ring is drained; nothing that comes in
      between could not have come before, so the two are one step. */
  function Detached(s: State): State {
    s.(out := s.BeingSent(), drained := s.drained + s.Fifo(), inDestroy := true)
  }

  /** One iteration of the scan in `_process_drawqueue_get_next_drawobj`. */
  function RetireFirst(s: State): State
    requires s.out != []
  {
    var o := s.out[0];
    var t := s.(out := s.out[1..]);
    match o
    case Sync(_) => t.(left := s.left + [Exit(o, SyncDone)])
    case Timeline(_) => t.(left := s.left + [Exit(o, Signalled)])
    case Marker(_, time, _, _, _) =>
      t.(left := s.left + [Exit(o, CpuRetired)], consumed := time, retired := time)
    case Cmd(_, _) => s
  }

  // ---- the invariant ----

  function Ids(os: seq<DrawObj>): (r: seq<nat>)
    ensures |r| == |os|
    ensures forall k :: 0 <= k < |r| ==> r[k] == os[k].id
  {
    seq(|os|, k requires 0 <= k < |os| => os[k].id)
  }

  function LeftIds(es: seq<Exit>): (r: seq<nat>)
    ensures |r| == |es|
    ensures forall k :: 0 <= k < |r| ==> r[k] == es[k].obj.id
  {
    seq(|es|, k requires 0 <= k < |es| => es[k].obj.id)
  }

  /** Objects that have left and objects in the queue, in this order. */
  function Line(s: State): seq<nat> { LeftIds(s.left) + Ids(s.out) }

  /** The ids `accepted` are those in the line and those set aside, each once, and those in
      the line stand in the order of acceptance. */
  ghost predicate Partitioned(accepted: seq<nat>, line: seq<nat>, aside: seq<nat>) {
    && Distinct(accepted)
    && multiset(accepted) == multiset(line) + multiset(aside)
    && Subsequence(line, accepted)
  }

  /** What is queued and was among the first `clear` to be accepted is older than all that was
      set aside; something set aside is among them too. */
  ghost predicate OlderThan(accepted: seq<nat>, clear: nat, queue: seq<nat>, aside: seq<nat>) {
    && clear <= |accepted|
    && (aside == [] ==> clear == |accepted|)
    && (aside != [] ==> exists j :: 0 <= j < clear && accepted[j] in aside)
    && (forall x <- queue, y <- aside :: x in accepted[..clear] ==> Before(accepted, x, y))
  }

  /** Every accepted object has left, is queued, is hidden, or was taken off at detach, one
      of these and once; and what has left and is queued stands in the order of acceptance. */
  ghost predicate Conserved(s: State) { Partitioned(s.accepted, Line(s), Ids(s.Aside())) }

  /** Objects accepted before anything was hidden or drained are older than all that is. */
  ghost predicate Cleared(s: State) { OlderThan(s.accepted, s.clear, Ids(s.out), Ids(s.Aside())) }

  /** The stamped objects of `os` have increasing times in (lo, hi], and a marker waits
      for everything timestamped before it. */
  ghost predicate Times(lo: int, os: seq<DrawObj>, hi: int) {
    && (forall k :: 0 <= k < |os| && os[k].Stamped() ==> lo < os[k].time <= hi)
    && (forall k :: 0 <= k < |os| && os[k].Marker? ==> lo <= os[k].markerTime < os[k].time)
    && (forall j, k :: 0 <= j < k < |os| && os[j].Stamped() && os[k].Stamped() ==> os[j].time < os[k].time)
    && (forall j, k :: 0 <= j < k < |os| && os[j].Stamped() && os[k].Marker? ==> os[j].time <= os[k].markerTime)
  }

  function LeftObjs(es: seq<Exit>): (r: seq<DrawObj>)
    ensures |r| == |es|
    ensures forall k :: 0 <= k < |r| ==> r[k] == es[k].obj
  {
    seq(|es|, k requires 0 <= k < |es| => es[k].obj)
  }

  /** The objects of the line. */
  function Row(s: State): seq<DrawObj> { LeftObjs(s.left) + s.out }

  /** Times rise from each stamped object to the next and end at `hi`. */
  ghost predicate Rising(os: seq<DrawObj>, hi: int) {
    && (forall k :: 0 <= k < |os| && os[k].Stamped() ==> os[k].time <= hi)
    && (forall j, k :: 0 <= j < k < |os| && os[j].Stamped() && os[k].Stamped() ==> os[j].time < os[k].time)
  }

  /** The last time handed to the hardware that it has not retired. */
  function LastInflight(s: State): int {
    if s.inflight == [] then s.retired else s.inflight[|s.inflight| - 1]
  }

  ghost predicate Ordered(s: State) {
    && (forall j, k :: 0 <= j < k < |s.inflight| ==> s.inflight[j] < s.inflight[k])
    && (forall k :: 0 <= k < |s.inflight| ==> s.retired < s.inflight[k] <= s.queued)
    && s.retired <= s.consumed <= LastInflight(s)
    && s.retired <= s.queued
    && Times(LastInflight(s), s.out, s.queued)
  }

  /** What became of a departed object fits its kind. The times of markers the CPU retired
      have retired; those of submitted objects have, or are in flight. */
  predicate FateOk(e: Exit, inflight: seq<int>, retired: int) {
    match e.fate
    case Submitted => e.obj.Stamped() && (e.obj.time <= retired || e.obj.time in inflight)
    case CpuRetired => e.obj.Marker? && e.obj.time <= retired
    case SyncDone => e.obj.Sync?
    case Signalled => e.obj.Timeline?
    case Lost => e.obj.Stamped()
  }

  predicate IsSubmission(e: Exit, t: int) { e.fate == Submitted && e.obj.Stamped() && e.obj.time == t }

  /** All fates are right, and what is in flight was submitted. */
  ghost predicate Fated(left: seq<Exit>, inflight: seq<int>, retired: int) {
    && (forall e <- left :: FateOk(e, inflight, retired))
    && (forall t <- inflight :: exists e <- left :: IsSubmission(e, t))
  }

  /** Every sync object that left the queue had, and has, no pending event. */
  ghost predicate SyncsPassed(s: State) {
    && (forall k :: 0 <= k < |s.left| && s.left[k].obj.Sync? ==>
          && s.left[k].fate == SyncDone
          && s.left[k].obj.id in s.pending && s.pending[s.left[k].obj.id] == {})
    && (forall k :: 0 <= k < |s.out| && s.out[k].Sync? ==> s.out[k].id in s.pending)
  }

  /** No marker in front of a command can block the queue. */
  ghost predicate MarkersForced(s: State) {
    && (s.sending ==> s.out != [] && s.out[0].Stamped() && (s.out[0].Marker? ==> s.out[0].skip))
    && (forall j, k :: 0 <= j < k < |s.out| && s.out[j].Marker? && s.out[k].Cmd? ==> s.out[j].skip)
  }

  ghost predicate Sound(s: State) {
    && s.mode != Unchecked
    && InWindow(s)
    && Conserved(s) && Cleared(s) && Ordered(s) && Rising(Row(s), s.queued)
    && Fated(s.left, s.inflight, s.retired)
    && SyncsPassed(s) && MarkersForced(s)
  }

  ghost predicate Inv(s: State) {
    && Sound(s)
    && |s.Fifo()| < QUEUE_SIZE
    && (!s.inDestroy ==> s.drained == [])
    && (forall n :: n in s.waiting ==> 0 < n <= QUEUE_SIZE - 2)
    && (s.hidden != [] ==> |s.hidden| >= QUEUE_SIZE)
  }

  ghost predicate Init(s: State) {
    && s.mode != Unchecked
    && s.out == [] && !s.sending && s.inflight == [] && s.left == [] && s.hidden == [] && s.drained == []
    && s.accepted == [] && s.clear == 0 && s.waiting == multiset{} && !s.inDestroy
    && s.queued == s.retired == s.consumed == 0
  }
}
