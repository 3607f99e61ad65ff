/** Every run of the dispatcher keeps the invariant; what that means for retirement and for
    the order in which objects leave the queue. */
module DispatchRuns {
  import opened Sequences
  import opened Timestamps
  import opened DispatchModel
  import opened Units

  // ---- enqueue keeps the invariant ----

  /** `o` may follow the objects `os`: it is later than all of them, and if it is a
      marker it waits for all of them. */
  ghost predicate Follows(lo: int, os: seq<DrawObj>, hi: int, o: DrawObj) {
    && (o.Stamped() ==> lo < o.time <= hi)
    && (o.Marker? ==> lo <= o.markerTime < o.time)
    && (forall k :: 0 <= k < |os| && os[k].Stamped() ==>
          && (o.Stamped() ==> os[k].time < o.time)
          && (o.Marker? ==> os[k].time <= o.markerTime))
  }

  lemma TimesAppend(lo: int, os: seq<DrawObj>, hi: int, o: DrawObj)
    requires Times(lo, os, hi) && Follows(lo, os, hi, o)
    ensures Times(lo, os + [o], hi)
  {}

  lemma TimesForced(lo: int, os: seq<DrawObj>, hi: int)
    requires Times(lo, os, hi)
    ensures Times(lo, ForceMarkers(os), hi)
  {
    var fs := ForceMarkers(os);
    assert forall k :: 0 <= k < |os| ==>
        && fs[k].Stamped() == os[k].Stamped() && fs[k].Marker? == os[k].Marker?
        && (os[k].Stamped() ==> fs[k].time == os[k].time)
        && (os[k].Marker? ==> fs[k].markerTime == os[k].markerTime);
  }

  lemma TimesLater(lo: int, os: seq<DrawObj>, hi: int, hi': int)
    requires Times(lo, os, hi) && hi <= hi'
    ensures Times(lo, os, hi')
  {}

  /** Without its first object the sequence starts at that object's time. */
  lemma TimesTail(lo: int, os: seq<DrawObj>, hi: int)
    requires os != [] && Times(lo, os, hi)
    ensures Times(if os[0].Stamped() then os[0].time else lo, os[1..], hi)
    ensures Times(lo, os[1..], hi)
  {
    assert forall k :: 0 <= k < |os[1..]| ==> os[1..][k] == os[k + 1];
  }

  ghost predicate Below(os: seq<DrawObj>, t: int) {
    forall k :: 0 <= k < |os| && os[k].Stamped() ==> os[k].time < t
  }

  lemma RisingAppend(os: seq<DrawObj>, hi: int, o: DrawObj, hi': int)
    requires Rising(os, hi) && hi <= hi' && (o.Stamped() ==> Below(os, o.time) && o.time <= hi')
    ensures Rising(os + [o], hi')
  {}

  lemma RisingPrefix(a: seq<DrawObj>, b: seq<DrawObj>, hi: int, n: nat)
    requires Rising(a + b, hi) && n <= |b|
    ensures Rising(a + b[..n], hi)
  {
    var c := a + b[..n];
    assert forall k :: 0 <= k < |c| ==> c[k] == (a + b)[k];
  }

  lemma RisingForced(a: seq<DrawObj>, b: seq<DrawObj>, hi: int, t: int)
    requires Rising(a + b, hi) && hi < t
    ensures Rising(a + ForceMarkers(b), t) && Below(a + ForceMarkers(b), t)
  {
    var c := a + ForceMarkers(b);
    assert forall k :: 0 <= k < |c| ==>
        c[k].Stamped() == (a + b)[k].Stamped() && (c[k].Stamped() ==> c[k].time == (a + b)[k].time);
  }

  lemma RisingIsBelow(os: seq<DrawObj>, hi: int, t: int)
    requires Rising(os, hi) && hi < t
    ensures Below(os, t) && Rising(os, t)
  {}

  lemma RowMoves(left: seq<Exit>, out: seq<DrawObj>, e: Exit)
    requires out != [] && e.obj == out[0]
    ensures LeftObjs(left + [e]) + out[1..] == LeftObjs(left) + out
  {
    assert LeftObjs(left + [e]) == LeftObjs(left) + [out[0]];
    assert out == [out[0]] + out[1..];
  }

  // What becomes of departed objects.

  lemma FatedLater(left: seq<Exit>, inflight: seq<int>, retired: int, retired': int)
    requires Fated(left, inflight, retired) && retired <= retired'
    ensures Fated(left, inflight, retired')
  {}

  lemma FatedAppend(left: seq<Exit>, inflight: seq<int>, retired: int, e: Exit)
    requires Fated(left, inflight, retired) && FateOk(e, inflight, retired)
    ensures Fated(left + [e], inflight, retired)
  {
    forall t | t in inflight ensures exists x <- left + [e] :: IsSubmission(x, t) {
      var x :| x in left && IsSubmission(x, t);
      assert x in left + [e];
    }
  }

  lemma FatedSend(left: seq<Exit>, inflight: seq<int>, retired: int, e: Exit)
    requires Fated(left, inflight, retired) && e.fate == Submitted && e.obj.Stamped()
    ensures Fated(left + [e], inflight + [e.obj.time], retired)
  {
    assert e in left + [e] && IsSubmission(e, e.obj.time);
    forall t | t in inflight + [e.obj.time] ensures exists x <- left + [e] :: IsSubmission(x, t) {
      if t in inflight {
        var x :| x in left && IsSubmission(x, t);
        assert x in left + [e];
      }
    }
  }

  lemma FatedRetire(left: seq<Exit>, inflight: seq<int>, retired: int)
    requires Fated(left, inflight, retired) && inflight != [] && retired <= inflight[0]
    ensures Fated(left, inflight[1..], inflight[0])
  {
    var rest := inflight[1..];
    assert inflight == [inflight[0]] + rest;
    forall t | t in rest ensures exists e <- left :: IsSubmission(e, t) {
      assert t in inflight;
    }
    forall e | e in left ensures FateOk(e, rest, inflight[0]) {
      assert FateOk(e, inflight, retired);
    }
  }

  // The order of ids.

  lemma AcceptedPartitions(acc: seq<nat>, line: seq<nat>, aside: seq<nat>, id: nat)
    requires Partitioned(acc, line, aside) && id !in acc
    ensures Partitioned(acc + [id], line + [id], aside)
  {
    SubsequenceAppend(line, acc, id);
  }

  lemma AcceptedIsYounger(acc: seq<nat>, clear: nat, queue: seq<nat>, aside: seq<nat>, id: nat, queue': seq<nat>)
    requires OlderThan(acc, clear, queue, aside) && id !in acc && (forall x <- queue' :: x in queue || x == id)
    ensures OlderThan(acc + [id], if aside == [] then |acc| + 1 else clear, queue', aside)
  {
    if aside != [] {
      var j :| 0 <= j < clear && acc[j] in aside;
      assert (acc + [id])[j] in aside && (acc + [id])[..clear] == acc[..clear];
      forall x, y | x in queue' && y in aside && x in acc[..clear] ensures Before(acc + [id], x, y) {
        assert Before(acc, x, y);
      }
    }
  }

  lemma InAccepted(acc: seq<nat>, line: seq<nat>, aside: seq<nat>)
    requires Partitioned(acc, line, aside)
    ensures (forall x <- line :: x in acc && x !in aside) && (forall x <- aside :: x in acc)
  {
    forall x | x in line || x in aside ensures x in acc && !(x in line && x in aside) {
      assert x in multiset(line) + multiset(aside);
      assert x in multiset(acc);
      if x in line && x in aside {
        assert multiset(acc)[x] >= 2;
        DistinctOnce(acc, x);
      }
    }
  }

  lemma DistinctOnce(acc: seq<nat>, x: nat)
    requires Distinct(acc)
    ensures multiset(acc)[x] <= 1
  {
    if x in acc {
      var k :| 0 <= k < |acc| && acc[k] == x;
      assert acc == acc[..k] + [x] + acc[k + 1..];
      assert multiset(acc) == multiset(acc[..k]) + multiset{x} + multiset(acc[k + 1..]);
      assert x !in acc[..k] && x !in acc[k + 1..];
    }
  }

  /** The line from place `n` on is set aside. */
  lemma AsidePartitions(acc: seq<nat>, line: seq<nat>, n: nat, a: seq<nat>, b: seq<nat>)
    requires Partitioned(acc, line, a + b) && n <= |line|
    ensures Partitioned(acc, line[..n], a + line[n..] + b)
  {
    assert line == line[..n] + line[n..];
    SubsequencePrefix(line, acc, n);
  }

  lemma AsideIsYounger(acc: seq<nat>, clear: nat, done: seq<nat>, queue: seq<nat>, n: nat, a: seq<nat>, b: seq<nat>)
    requires OlderThan(acc, clear, queue, a + b) && Partitioned(acc, done + queue, a + b) && n <= |queue|
    ensures OlderThan(acc, clear, queue[..n], a + queue[n..] + b)
  {
    var aside := a + queue[n..] + b;
    InAccepted(acc, done + queue, a + b);
    if a + b != [] {
      var j :| 0 <= j < clear && acc[j] in a + b;
      assert acc[j] in aside;
    } else if aside != [] {
      assert queue[n] in done + queue && queue[n] in aside;
    }
    forall x, y | x in queue[..n] && y in aside && x in acc[..clear] ensures Before(acc, x, y) {
      if y !in a + b {
        PlacesBefore(acc, done, queue, n, x, y);
      }
    }
  }

  lemma PlacesBefore(acc: seq<nat>, done: seq<nat>, queue: seq<nat>, n: nat, x: nat, y: nat)
    requires Distinct(acc) && Subsequence(done + queue, acc) && n <= |queue| && x in queue[..n] && y in queue[n..]
    ensures Before(acc, x, y)
  {
    var p :| 0 <= p < n && queue[p] == x;
    var q :| n <= q < |queue| && queue[q] == y;
    SubsequenceBefore(done + queue, acc, |done| + p, |done| + q);
  }

  /** A new object in the line. */
  lemma AcceptedConserves(s: State, id: nat, t: State)
    requires Conserved(s) && Cleared(s) && id !in s.accepted
    requires t.accepted == s.accepted + [id] && t.clear == Accept(s, id).clear
    requires Line(t) == Line(s) + [id] && t.Aside() == s.Aside()
    requires Ids(t.out) == Ids(s.out) + [id] || t.out == s.out
    ensures Conserved(t) && Cleared(t)
  {
    hide Partitioned, OlderThan, Line;
    AcceptedPartitions(s.accepted, Line(s), Ids(s.Aside()), id);
    AcceptedIsYounger(s.accepted, s.clear, Ids(s.out), Ids(s.Aside()), id, Ids(t.out));
  }

  /** The objects of the queue from place `n` on are no longer to be reached. */
  ghost predicate SetAside(s: State, t: State, n: nat, a: seq<DrawObj>, b: seq<DrawObj>) {
    && n <= |s.out| && t.out == s.out[..n]
    && s.Aside() == a + b && t.Aside() == a + s.out[n..] + b
    && t.accepted == s.accepted && t.left == s.left && t.clear == s.clear
  }

  lemma SetAsideConserves(s: State, t: State, n: nat, a: seq<DrawObj>, b: seq<DrawObj>)
    requires Conserved(s) && Cleared(s) && SetAside(s, t, n, a, b)
    ensures Conserved(t) && Cleared(t)
  {
    hide Partitioned, OlderThan;
    var m := |s.left| + n;
    IdsConcat(a, b);
    IdsConcat(a, s.out[n..]);
    IdsConcat(a + s.out[n..], b);
    assert Line(s)[..m] == Line(t) && Line(s)[m..] == Ids(s.out[n..]);
    assert Ids(s.out)[..n] == Ids(t.out) && Ids(s.out)[n..] == Ids(s.out[n..]);
    AsidePartitions(s.accepted, Line(s), m, Ids(a), Ids(b));
    AsideIsYounger(s.accepted, s.clear, LeftIds(s.left), Ids(s.out), n, Ids(a), Ids(b));
  }

  lemma SetAsideKeepsSound(s: State, t: State, n: nat, a: seq<DrawObj>, b: seq<DrawObj>)
    requires Sound(s) && SetAside(s, t, n, a, b)
    requires t.mode == s.mode && t.queued == s.queued && t.consumed == s.consumed && t.retired == s.retired
    requires t.inflight == s.inflight && t.pending == s.pending
    requires t.sending ==> s.sending && n > 0
    ensures Sound(t)
  {
    hide Partitioned, OlderThan, Times, Rising, Fated;
    SetAsideConserves(s, t, n, a, b);
    TimesPrefix(LastInflight(s), s.out, s.queued, n);
    RisingPrefix(LeftObjs(s.left), s.out, s.queued, n);
  }

  /** The object is in the line before it is seen whether its slot can be reached. */
  function InLine(s: State, o: DrawObj): State { Accept(s, o.id).(out := s.out + [o]) }

  lemma InLineIsSound(s: State, o: DrawObj)
    requires Sound(s) && o.id !in s.accepted
    requires Follows(LastInflight(s), s.out, s.queued, o)
    requires o.Cmd? ==> forall k :: 0 <= k < |s.out| && s.out[k].Marker? ==> s.out[k].skip
    requires o.Sync? ==> o.id in s.pending
    requires o.Stamped() ==> Below(Row(s), o.time) && o.time <= s.queued
    ensures Sound(InLine(s, o))
  {
    hide Partitioned, OlderThan, Times, Follows, Rising, Below, Fated;
    InLineConserves(s, o);
    InLineRises(s, o);
    TimesAppend(LastInflight(s), s.out, s.queued, o);
  }

  lemma InLineRises(s: State, o: DrawObj)
    requires Rising(Row(s), s.queued) && (o.Stamped() ==> Below(Row(s), o.time) && o.time <= s.queued)
    ensures Rising(Row(InLine(s, o)), s.queued)
  {
    assert Row(InLine(s, o)) == Row(s) + [o];
    RisingAppend(Row(s), s.queued, o, s.queued);
  }

  lemma InLineConserves(s: State, o: DrawObj)
    requires Conserved(s) && Cleared(s) && o.id !in s.accepted
    ensures Conserved(InLine(s, o)) && Cleared(InLine(s, o))
  {
    hide Conserved, Cleared;
    assert Ids(s.out + [o]) == Ids(s.out) + [o.id];
    assert Line(InLine(s, o)) == Line(s) + [o.id];
    AcceptedConserves(s, o.id, InLine(s, o));
  }

  lemma AppendKeepsInv(s: State, o: DrawObj)
    requires Inv(s) && o.id !in s.accepted
    requires Follows(LastInflight(s), s.out, s.queued, o)
    requires o.Cmd? ==> forall k :: 0 <= k < |s.out| && s.out[k].Marker? ==> s.out[k].skip
    requires o.Sync? ==> o.id in s.pending
    requires o.Stamped() ==> Below(Row(s), o.time)
    ensures Inv(Append(s, o))
  {
    hide Sound, SetAside;
    InLineIsSound(s, o);
    SoundBasics(s);
    if |s.Fifo()| == QUEUE_SIZE - 1 {
      FullRingAside(s, o);
      SetAsideKeepsSound(InLine(s, o), Append(s, o), |s.BeingSent()|, s.hidden, s.drained);
    }
  }

  lemma FullRingAside(s: State, o: DrawObj)
    requires |s.Fifo()| == QUEUE_SIZE - 1 && (s.sending ==> s.out != [])
    ensures SetAside(InLine(s, o), Append(s, o), |s.BeingSent()|, s.hidden, s.drained)
  {
    var u, n := InLine(s, o), |s.BeingSent()|;
    assert u.out[n..] == s.Fifo() + [o] && u.out[..n] == s.BeingSent();
    assert Append(s, o).Aside() == s.hidden + u.out[n..] + s.drained;
  }

  lemma SoundBasics(s: State)
    requires Sound(s)
    ensures s.mode != Unchecked && (s.sending ==> s.out != [] && s.out[0].Stamped())
  {}

  lemma QueueSyncKeepsInv(s: State, id: nat, events: set<nat>)
    requires Inv(s) && id !in s.accepted
    ensures Inv(QueueSync(s, id, events))
  {
    var u := s.(pending := s.pending[id := events]);
    InAccepted(s.accepted, Line(s), Ids(s.Aside()));
    forall k | 0 <= k < |s.left| ensures s.left[k].obj.id != id {
      assert Line(s)[k] == s.left[k].obj.id;
    }
    assert Line(u) == Line(s);
    AppendKeepsInv(u, Sync(id));
  }

  lemma QueueTimelineKeepsInv(s: State, id: nat)
    requires Inv(s) && id !in s.accepted
    ensures Inv(Append(s, Timeline(id)))
  {
    AppendKeepsInv(s, Timeline(id));
  }

  /** Setting skip bits changes neither the order nor the times. */
  lemma ForcedKeepsInv(s: State, t: int)
    requires Inv(s) && s.queued < t <= s.retired + TWO31
    ensures var u := s.(out := ForceMarkers(s.out), queued := t); Inv(u) && Below(Row(u), t)
  {
    hide Partitioned, OlderThan, Rising, Below, Times, Fated;
    assert Ids(ForceMarkers(s.out)) == Ids(s.out);
    TimesForced(LastInflight(s), s.out, s.queued);
    TimesLater(LastInflight(s), ForceMarkers(s.out), s.queued, t);
    RisingForced(LeftObjs(s.left), s.out, s.queued, t);
  }

  lemma QueueCmdKeepsInv(s: State, id: nat, t: int)
    requires Inv(s) && id !in s.accepted
    requires s.queued < t <= s.retired + TWO31
    ensures Inv(QueueCmd(s, id, t))
  {
    hide Cleared, Conserved, SyncsPassed, Rising, Below, Fated;
    ForcedKeepsInv(s, t);
    AppendKeepsInv(s.(out := ForceMarkers(s.out), queued := t), Cmd(id, t));
  }

  /** A fast-path marker finds the hardware and the dispatcher idle, and nothing that was
      hidden or drained. */
  lemma FastPathIsIdle(s: State)
    requires Inv(s) && FastPath(s)
    ensures s.inflight == [] && s.out == [] && !s.sending && s.retired == s.queued
    ensures s.Aside() == []
  {}

  lemma FastMarkerKeepsInv(s: State, id: nat, flagged: bool, t: int)
    requires Inv(s) && FastPath(s) && s.queued < t && id !in s.accepted
    ensures Inv(QueueMarker(s, id, flagged, t))
  {
    hide Conserved, Cleared, Rising, Row, Ordered, SyncsPassed, NextTimestamp, Fated;
    FastPathIsIdle(s);
    FatedLater(s.left, s.inflight, s.retired, t);
    FatedAppend(s.left, s.inflight, t, Exit(Marker(id, t, s.queued, !s.shadow, flagged), CpuRetired));
    FastMarkerConserves(s, id, flagged, t);
    FastMarkerIsOrdered(s, id, flagged, t);
  }

  lemma FastMarkerIsOrdered(s: State, id: nat, flagged: bool, t: int)
    requires Ordered(s) && SyncsPassed(s) && FastPath(s) && s.queued < t && s.out == [] && s.inflight == []
    ensures var u := QueueMarker(s, id, flagged, t); Ordered(u) && SyncsPassed(u)
  {}

  lemma FastMarkerConserves(s: State, id: nat, flagged: bool, t: int)
    requires Conserved(s) && Cleared(s) && Rising(Row(s), s.queued)
    requires FastPath(s) && s.queued < t && id !in s.accepted && s.out == []
    ensures var u := QueueMarker(s, id, flagged, t);
            Conserved(u) && Cleared(u) && Rising(Row(u), t)
  {
    hide Conserved, Cleared, Rising;
    var u := QueueMarker(s, id, flagged, t);
    var m := u.left[|s.left|].obj;
    LeftIdsAppend(s.left, u.left[|s.left|]);
    assert Line(u) == Line(s) + [id] && Row(u) == Row(s) + [m];
    AcceptedConserves(s, id, u);
    RisingIsBelow(Row(s), s.queued, t);
    RisingAppend(Row(s), s.queued, m, t);
  }

  lemma QueueMarkerKeepsInv(s: State, id: nat, flagged: bool, t: int)
    requires Inv(s) && id !in s.accepted
    requires s.queued < t && !FastPath(s)
    requires t <= s.retired + TWO31
    ensures Inv(QueueMarker(s, id, flagged, t))
  {
    var u := s.(queued := t);
    assert Line(u) == Line(s) && Row(u) == Row(s);
    RisingIsBelow(Row(s), s.queued, t);
    AppendKeepsInv(u, Marker(id, t, s.queued, !s.shadow, flagged));
  }

  /** Enqueueing never moves `queued` back, and retires nothing once something is queued. */
  lemma {:induction false} EnqueueLoopAdvances(s: State, batch: seq<Request>, given: u32)
    requires s.mode != Unchecked && (s.sending ==> s.out != [])
    ensures var r := EnqueueLoop(s, batch, given).state;
            s.queued <= r.queued && (s.Count() > 0 ==> r.retired == s.retired)
    decreases |batch|
  {
    if batch != [] {
      hide NextTimestamp, TimeGiven, QueueOne;
      var r := NextTimestamp(s.mode, Wrap32(s.queued), given);
      if !batch[0].Stamped() || r.Ok? {
        TimeIsLater(s, given);
        QueueOneShape(s, batch[0], TimeGiven(s, given));
        if !(batch[0].MarkerReq? && FastPath(s)) {
          EnqueueLoopAdvances(QueueOne(s, batch[0], TimeGiven(s, given)), batch[1..], given);
        }
      }
    }
  }

  lemma TimeIsLater(s: State, given: u32)
    requires s.mode != Unchecked
    ensures NextTimestamp(s.mode, Wrap32(s.queued), given).Ok? ==> s.queued < TimeGiven(s, given)
    ensures s.queued <= TimeGiven(s, given)
  {
    NextTimestampIsLater(s.mode, s.queued, given);
  }

  lemma AppendShape(s: State, o: DrawObj)
    requires s.sending ==> s.out != []
    ensures var u := Append(s, o);
            && u.accepted == s.accepted + [o.id] && u.mode == s.mode && u.sending == s.sending
            && (u.sending ==> u.out != []) && u.queued == s.queued && u.Count() == s.Count() + 1
            && u.retired == s.retired && u.consumed == s.consumed && u.left == s.left
            && u.drained == s.drained && s.hidden <= u.hidden && u.inDestroy == s.inDestroy
            && u.hidden + u.Fifo() == s.hidden + s.Fifo() + [o]
            && (|s.Fifo()| <= 127 ==> |u.Fifo()| == (|s.Fifo()| + 1) % QUEUE_SIZE)
  {
    if |s.Fifo()| < 127 {
      assert Append(s, o).Fifo() == s.Fifo() + [o];
    }
  }

  /** What one turn of the loop does, whether or not the object finds a free slot. */
  lemma QueueOneShape(s: State, r: Request, t: int)
    requires s.sending ==> s.out != []
    ensures var u := QueueOne(s, r, t);
            && u.accepted == s.accepted + [r.id] && u.mode == s.mode && u.sending == s.sending
            && (u.sending ==> u.out != [])
            && u.queued == (if r.Stamped() then t else s.queued)
            && (!(r.MarkerReq? && FastPath(s)) ==>
                  && u.Count() == s.Count() + 1
                  && u.retired == s.retired && u.consumed == s.consumed && u.left == s.left)
            && u.drained == s.drained && s.hidden <= u.hidden && u.inDestroy == s.inDestroy
  {
    hide Append;
    match r
    case SyncReq(id, events) => AppendShape(s.(pending := s.pending[id := events]), Sync(id));
    case TimelineReq(id) => AppendShape(s, Timeline(id));
    case CmdReq(id) => AppendShape(s.(out := ForceMarkers(s.out), queued := t), Cmd(id, t));
    case MarkerReq(id, flagged) => AppendShape(s.(queued := t), Marker(id, t, s.queued, !s.shadow, flagged));
  }

  lemma FreshTail(s: State, s': State, batch: seq<Request>)
    requires batch != [] && FreshIds(s, batch) && s'.accepted == s.accepted + [batch[0].id]
    ensures FreshIds(s', batch[1..])
  {
    var rest := batch[1..];
    assert forall k :: 0 <= k < |rest| ==> rest[k] == batch[k + 1];
  }

  lemma QueueOneKeepsInv(s: State, r: Request, t: int)
    requires Inv(s) && r.id !in s.accepted
    requires r.Stamped() ==> s.queued < t && (t <= s.retired + TWO31 || (r.MarkerReq? && FastPath(s)))
    ensures Inv(QueueOne(s, r, t))
  {
    hide Inv;
    match r
    case SyncReq(id, events) => QueueSyncKeepsInv(s, id, events);
    case TimelineReq(id) => QueueTimelineKeepsInv(s, id);
    case CmdReq(id) => QueueCmdKeepsInv(s, id, t);
    case MarkerReq(id, flagged) =>
      if FastPath(s) {
        FastMarkerKeepsInv(s, id, flagged, t);
      } else {
        QueueMarkerKeepsInv(s, id, flagged, t);
      }
  }

  lemma {:induction false} EnqueueLoopKeepsInv(s: State, batch: seq<Request>, given: u32)
    requires Inv(s)
    requires FreshIds(s, batch)
    requires InWindow(EnqueueLoop(s, batch, given).state)
    ensures Inv(EnqueueLoop(s, batch, given).state)
    decreases |batch|
  {
    if batch != [] {
      hide Inv, NextTimestamp, TimeGiven, QueueOne, FastPath;
      InvBasics(s);
      var r := NextTimestamp(s.mode, Wrap32(s.queued), given);
      if !batch[0].Stamped() || r.Ok? {
        var u := QueueOne(s, batch[0], TimeGiven(s, given));
        TimeIsLater(s, given);
        QueueOneShape(s, batch[0], TimeGiven(s, given));
        if !(batch[0].MarkerReq? && FastPath(s)) {
          EnqueueLoopAdvances(u, batch[1..], given);
        }
        QueueOneKeepsInv(s, batch[0], TimeGiven(s, given));
        FreshTail(s, u, batch);
        if !(batch[0].MarkerReq? && FastPath(s)) {
          EnqueueLoopKeepsInv(u, batch[1..], given);
        }
      }
    }
  }

  lemma InvBasics(s: State)
    requires Inv(s)
    ensures s.mode != Unchecked && (s.sending ==> s.out != [] && s.out[0].Stamped())
    ensures |s.Fifo()| <= 127 && (!s.inDestroy ==> s.drained == [])
    ensures s.retired <= s.consumed <= s.queued
  {}

  // ---- the other steps keep the invariant ----

  /** A marker the CPU may retire is the oldest object not yet retired: everything
      timestamped before it has retired and nothing after it was submitted. */
  lemma CpuRetireIsInOrder(s: State)
    requires Ordered(s) && s.out != [] && s.out[0].Marker? && Expired(s, s.out[0])
    ensures s.inflight == []
    ensures s.retired == s.consumed == s.out[0].markerTime < s.out[0].time
    ensures forall k :: 0 < k < |s.out| && s.out[k].Stamped() ==> s.out[0].time < s.out[k].time
  {}

  lemma IdsHead(os: seq<DrawObj>)
    requires os != []
    ensures Ids(os) == [os[0].id] + Ids(os[1..])
  {}

  lemma LeftIdsAppend(es: seq<Exit>, e: Exit)
    ensures LeftIds(es + [e]) == LeftIds(es) + [e.obj.id]
  {}

  lemma MoveAcross<T>(a: seq<T>, x: T, b: seq<T>)
    ensures a + ([x] + b) == (a + [x]) + b
  {}

  /** `t` is `s` with its oldest object gone. */
  ghost predicate Departed(s: State, t: State, e: Exit) {
    && s.out != [] && t.out == s.out[1..] && !t.sending
    && t.left == s.left + [e] && e.obj == s.out[0]
    && t.accepted == s.accepted && t.hidden == s.hidden && t.drained == s.drained && t.clear == s.clear
    && t.pending == s.pending
  }

  lemma DepartureConserves(s: State, t: State, e: Exit)
    requires Conserved(s) && Cleared(s) && Departed(s, t, e)
    ensures Conserved(t) && Cleared(t)
  {
    IdsHead(s.out);
    LeftIdsAppend(s.left, e);
    MoveAcross(LeftIds(s.left), s.out[0].id, Ids(s.out[1..]));
    assert Line(t) == Line(s);
  }

  lemma DeparturePassesSyncs(s: State, t: State, e: Exit)
    requires SyncsPassed(s) && Departed(s, t, e)
    requires e.obj.Sync? ==> e.fate == SyncDone && e.obj.id in s.pending && s.pending[e.obj.id] == {}
    ensures SyncsPassed(t)
  {}

  lemma DepartureRises(s: State, t: State, e: Exit)
    requires Departed(s, t, e)
    ensures Row(t) == Row(s)
  {
    RowMoves(s.left, s.out, e);
  }

  lemma DepartureForces(s: State, t: State, e: Exit)
    requires MarkersForced(s) && Departed(s, t, e)
    ensures MarkersForced(t)
  {}

  lemma RetireMarkerKeepsOrder(s: State)
    requires Ordered(s) && s.out != [] && s.out[0].Marker? && Expired(s, s.out[0])
    ensures Ordered(RetireFirst(s))
  {
    CpuRetireIsInOrder(s);
    TimesTail(LastInflight(s), s.out, s.queued);
  }

  lemma RetireHeadKeepsOrder(s: State)
    requires Ordered(s) && HeadRetires(s)
    ensures Ordered(RetireFirst(s))
  {
    if s.out[0].Marker? {
      RetireMarkerKeepsOrder(s);
    } else {
      TimesTail(LastInflight(s), s.out, s.queued);
    }
  }

  lemma RetireHeadKeepsInv(s: State)
    requires Inv(s) && !s.sending && HeadRetires(s)
    ensures Inv(RetireFirst(s))
  {
    hide Conserved, Cleared, Rising, Row, Times, Fated;
    var t := RetireFirst(s);
    var e := t.left[|s.left|];
    RetireHeadKeepsOrder(s);
    if s.out[0].Marker? {
      CpuRetireIsInOrder(s);
      FatedLater(s.left, s.inflight, s.retired, s.out[0].time);
    }
    FatedAppend(s.left, s.inflight, t.retired, e);
    DepartureConserves(s, t, e);
    DepartureRises(s, t, e);
    DeparturePassesSyncs(s, t, e);
    DepartureForces(s, t, e);
  }

  lemma SendDoneKeepsOrder(s: State, t: State)
    requires Ordered(s) && s.out != [] && s.out[0].Stamped() && t.out == s.out[1..]
    requires t.queued == s.queued && t.retired == s.retired && t.consumed == s.consumed
    requires t.inflight == s.inflight || t.inflight == s.inflight + [s.out[0].time]
    ensures Ordered(t)
  {
    TimesTail(LastInflight(s), s.out, s.queued);
  }

  /** The object being sent leaves, to the hardware or lost with its context. */
  lemma SendDoneKeepsInv(s: State, a: Action)
    requires Inv(s) && Enabled(s, a) && (a.SendOk? || a.SendGone?)
    ensures Inv(Apply(s, a))
  {
    var t := Apply(s, a);
    var e := t.left[|s.left|];
    if a.SendOk? {
      FatedSend(s.left, s.inflight, s.retired, e);
    } else {
      FatedAppend(s.left, s.inflight, s.retired, e);
    }
    SendDoneKeepsOrder(s, t);
    DepartureConserves(s, t, e);
    DepartureRises(s, t, e);
    DeparturePassesSyncs(s, t, e);
    DepartureForces(s, t, e);
  }

  lemma HwConsumeKeepsInv(s: State, k: nat)
    requires Inv(s) && k < |s.inflight| && s.consumed < s.inflight[k]
    ensures Inv(s.(consumed := s.inflight[k]))
  {
    hide Partitioned, OlderThan, Times, Rising, Fated;
    assert LastInflight(s.(consumed := s.inflight[k])) == LastInflight(s);
  }

  lemma HwRetireKeepsInv(s: State)
    requires Inv(s) && s.inflight != [] && s.inflight[0] <= s.consumed
    ensures Inv(s.(inflight := s.inflight[1..], retired := s.inflight[0]))
  {
    hide Partitioned, OlderThan, Times, Rising, Fated;
    FatedRetire(s.left, s.inflight, s.retired);
    assert LastInflight(s.(inflight := s.inflight[1..], retired := s.inflight[0])) == LastInflight(s);
  }

  lemma DetachKeepsInv(s: State)
    requires Inv(s) && !s.inDestroy
    ensures Inv(Detached(s))
  {
    hide Sound, SetAside;
    SoundBasics(s);
    DetachedAside(s);
    SetAsideKeepsSound(s, Detached(s), |s.BeingSent()|, s.Aside(), []);
  }

  lemma DetachedAside(s: State)
    requires s.sending ==> s.out != []
    ensures SetAside(s, Detached(s), |s.BeingSent()|, s.Aside(), [])
  {
    var n := |s.BeingSent()|;
    assert s.out[..n] == s.BeingSent() && s.out[n..] == s.Fifo();
    assert Detached(s).Aside() == s.Aside() + s.out[n..] + [];
    assert s.Aside() == s.Aside() + [];
  }

  lemma IdsConcat(a: seq<DrawObj>, b: seq<DrawObj>)
    ensures Ids(a + b) == Ids(a) + Ids(b)
  {}

  lemma TimesPrefix(lo: int, os: seq<DrawObj>, hi: int, n: nat)
    requires Times(lo, os, hi) && n <= |os|
    ensures Times(lo, os[..n], hi)
  {
    assert forall k :: 0 <= k < n ==> os[..n][k] == os[k];
  }

  lemma PopKeepsInv(s: State)
    requires Inv(s) && HeadIsReady(s)
    ensures Inv(s.(sending := true))
  {
    hide Partitioned, OlderThan, Times, Rising, Fated, Ids, LeftIds, LeftObjs, Expired;
    var t := s.(sending := true);
    assert t.Aside() == s.Aside() && Line(t) == Line(s) && Row(t) == Row(s) && LastInflight(t) == LastInflight(s);
    assert Conserved(t) && Cleared(t) && Ordered(t) && SyncsPassed(t);
    assert MarkersForced(t);
  }

  lemma SendFailKeepsInv(s: State)
    requires Inv(s) && s.sending
    ensures Inv(PutBack(s))
  {
    hide Partitioned, OlderThan, Times, Fated;
    if |s.Fifo()| == QUEUE_SIZE - 1 {
      hide Sound;
      SoundBasics(s);
      assert s.out[..0] == [] && s.out[0..] == s.out;
      assert SetAside(s, PutBack(s), 0, s.hidden, s.drained) by {
        assert PutBack(s).Aside() == s.hidden + s.out[0..] + s.drained;
      }
      SetAsideKeepsSound(s, PutBack(s), 0, s.hidden, s.drained);
    }
  }

  lemma WaitingIsApart(s: State, w: multiset<nat>)
    requires Inv(s) && forall n :: n in w ==> 0 < n <= QUEUE_SIZE - 2
    ensures Inv(s.(waiting := w))
  {
    hide Partitioned, OlderThan, Times, Rising, Fated;
    assert Line(s.(waiting := w)) == Line(s);
  }

  lemma FireKeepsInv(s: State, id: nat, event: nat)
    requires Inv(s) && id in s.pending
    ensures Inv(s.(pending := s.pending[id := s.pending[id] - {event}]))
  {
    hide Partitioned, OlderThan, Times, Rising, Fated;
  }

  lemma DispatcherStepKeepsInv(s: State, a: Action)
    requires Inv(s) && Enabled(s, a) && (a.RetireHead? || a.Pop? || a.SendOk? || a.SendFail? || a.SendGone?)
    ensures Inv(Apply(s, a))
  {
    match a
    case RetireHead => RetireHeadKeepsInv(s);
    case Pop => PopKeepsInv(s);
    case SendFail => SendFailKeepsInv(s);
    case SendOk => SendDoneKeepsInv(s, a);
    case SendGone => SendDoneKeepsInv(s, a);
  }

  lemma OutsideStepKeepsInv(s: State, a: Action)
    requires Inv(s) && Enabled(s, a) && (a.HwConsume? || a.HwRetire? || a.Fire? || a.Detach?)
    ensures Inv(Apply(s, a))
  {
    match a
    case HwConsume(k) => HwConsumeKeepsInv(s, k);
    case HwRetire => HwRetireKeepsInv(s);
    case Fire(id, event) => FireKeepsInv(s, id, event);
    case Detach => DetachKeepsInv(s);
  }

  lemma SleepersAreSmall(s: State, a: Action)
    requires Inv(s) && Enabled(s, a) && (a.Enqueues() || a.Sleep? || a.GiveUp?)
    ensures var w := if a.Enqueues() then Found(s, a).waiting else Apply(s, a).waiting;
            forall n :: n in w ==> 0 < n <= QUEUE_SIZE - 2
  {
    hide Sound;
  }

  lemma ProducerStepKeepsInv(s: State, a: Action)
    requires Inv(s) && Enabled(s, a) && (a.Enqueues() || a.Sleep? || a.GiveUp?)
    ensures Inv(Apply(s, a))
  {
    hide Inv, FreshIds, InWindow;
    SleepersAreSmall(s, a);
    if a.Enqueues() {
      var u := Found(s, a);
      WaitingIsApart(s, u.waiting);
      if !StaleClientTime(u, a.batch, a.given) {
        EnqueueLoopKeepsInv(u, a.batch, a.given);
      }
    } else {
      WaitingIsApart(s, Apply(s, a).waiting);
    }
  }

  /** The invariant is kept by every step. */
  lemma StepKeepsInv(s: State, a: Action)
    requires Inv(s) && Enabled(s, a)
    ensures Inv(Apply(s, a))
  {
    if a.Enqueues() || a.Sleep? || a.GiveUp? {
      ProducerStepKeepsInv(s, a);
    } else if a.HwConsume? || a.HwRetire? || a.Fire? || a.Detach? {
      OutsideStepKeepsInv(s, a);
    } else {
      DispatcherStepKeepsInv(s, a);
    }
  }

  // ---- retirement and history over a step ----

  /** Retirement only moves forward and history only grows from `s` to `t`; what is hidden or
      drained stays so. */
  ghost predicate Grown(s: State, t: State) {
    && s.retired <= t.retired && s.consumed <= t.consumed
    && s.accepted <= t.accepted && s.left <= t.left
    && s.hidden <= t.hidden && s.drained <= t.drained
  }

  lemma GrownOn(s: State, t: State, u: State)
    requires Grown(s, t) && Grown(t, u)
    ensures Grown(s, u)
  {}

  lemma QueueOneGrows(s: State, r: Request, t: int)
    requires s.consumed <= s.queued && s.retired <= s.queued && (r.Stamped() ==> s.queued < t)
    requires s.sending ==> s.out != []
    ensures Grown(s, QueueOne(s, r, t))
    ensures var u := QueueOne(s, r, t); u.consumed <= u.queued && u.retired <= u.queued
  {
    QueueOneShape(s, r, t);
    if r.MarkerReq? && FastPath(s) {
    } else {
      hide QueueOne;
    }
  }

  lemma {:induction false} EnqueueLoopGrows(s: State, batch: seq<Request>, given: u32)
    requires s.mode != Unchecked && s.consumed <= s.queued && s.retired <= s.queued && (s.sending ==> s.out != [])
    ensures Grown(s, EnqueueLoop(s, batch, given).state)
    decreases |batch|
  {
    hide NextTimestamp, TimeGiven, QueueOne, Grown, FastPath;
    GrownSame(s);
    if batch != [] && (!batch[0].Stamped() || NextTimestamp(s.mode, Wrap32(s.queued), given).Ok?) {
      var t := TimeGiven(s, given);
      var u := QueueOne(s, batch[0], t);
      TimeIsLater(s, given);
      QueueOneGrows(s, batch[0], t);
      QueueOneShape(s, batch[0], t);
      if !(batch[0].MarkerReq? && FastPath(s)) {
        EnqueueLoopGrows(u, batch[1..], given);
        GrownOn(s, u, EnqueueLoop(u, batch[1..], given).state);
      }
    }
  }

  lemma GrownSame(s: State)
    ensures Grown(s, s)
  {}

  lemma StepGrows(s: State, a: Action)
    requires Inv(s) && Enabled(s, a)
    ensures Grown(s, Apply(s, a))
  {
    hide Inv, Enabled, Apply, Grown;
    if a.Enqueues() {
      EnqueueGrows(s, a);
    } else if a.RetireHead? {
      RetireGrows(s);
    } else {
      OtherStepGrows(s, a);
    }
  }

  lemma EnqueueGrows(s: State, a: Action)
    requires Inv(s) && a.Enqueues() && Enabled(s, a)
    ensures Grown(s, Apply(s, a))
  {
    hide Inv, FreshIds, InWindow, EnqueueLoop;
    InvBasics(s);
    EnqueueLoopGrows(Found(s, a), a.batch, a.given);
  }

  lemma RetireGrows(s: State)
    requires Inv(s) && Enabled(s, RetireHead)
    ensures Grown(s, Apply(s, RetireHead))
  {
    hide Inv;
    if s.out[0].Marker? {
      MarkerRetires(s);
    }
  }

  lemma OtherStepGrows(s: State, a: Action)
    requires Inv(s) && Enabled(s, a) && !a.Enqueues() && !a.RetireHead?
    ensures Grown(s, Apply(s, a))
  {
    hide Inv;
    if a.HwRetire? || a.HwConsume? {
      HardwareMovesOn(s, a);
    }
  }

  lemma MarkerRetires(s: State)
    requires Inv(s) && s.out != [] && s.out[0].Marker? && Expired(s, s.out[0])
    ensures s.retired < s.out[0].time && s.consumed < s.out[0].time
  {
    CpuRetireIsInOrder(s);
  }

  lemma HardwareMovesOn(s: State, a: Action)
    requires Inv(s) && Enabled(s, a) && (a.HwRetire? || a.HwConsume?)
    ensures s.retired <= Apply(s, a).retired && s.consumed <= Apply(s, a).consumed
  {
    hide Partitioned, OlderThan, Times, Rising, Fated;
  }

  // ---- runs ----

  /** The states `ss` are those of a run from an empty context taking `acts`. */
  ghost predicate Run(ss: seq<State>, acts: seq<Action>) {
    && |ss| == |acts| + 1 && Init(ss[0])
    && forall i :: 0 <= i < |acts| ==> Enabled(ss[i], acts[i]) && ss[i + 1] == Apply(ss[i], acts[i])
  }

  lemma {:induction false} RunKeepsInv(ss: seq<State>, acts: seq<Action>, i: nat)
    requires Run(ss, acts) && i < |ss|
    ensures Inv(ss[i])
  {
    hide Inv, Enabled, Apply;
    if i == 0 {
      InitIsSound(ss[0]);
    } else {
      RunKeepsInv(ss, acts, i - 1);
      StepKeepsInv(ss[i - 1], acts[i - 1]);
    }
  }

  lemma InitIsSound(s: State)
    requires Init(s)
    ensures Inv(s)
  {
    hide Conserved, Cleared, Ordered, Rising, Row, SyncsPassed, MarkersForced, Fated;
    NoneAccepted(s);
    NoneQueued(s);
  }

  lemma NoneAccepted(s: State)
    requires Init(s)
    ensures Conserved(s) && Cleared(s)
  {
    assert s.accepted == [] && Line(s) == [] && Ids(s.Aside()) == [] && Ids(s.out) == [];
  }

  lemma NoneQueued(s: State)
    requires Init(s)
    ensures Ordered(s) && Rising(Row(s), s.queued) && SyncsPassed(s) && MarkersForced(s)
    ensures Fated(s.left, s.inflight, s.retired)
  {
    hide Rising, Times, Fated;
    assert Row(s) == [];
    NoneYet();
  }

  lemma NoneYet()
    ensures Rising([], 0) && Times(0, [], 0) && Fated([], [], 0)
  {}

  /** A run goes on with any enabled step. */
  lemma RunThen(ss: seq<State>, acts: seq<Action>, s: State, a: Action, t: State)
    returns (ss': seq<State>, acts': seq<Action>)
    requires Run(ss, acts) && ss[|acts|] == s && Enabled(s, a) && t == Apply(s, a)
    ensures Run(ss', acts') && acts' == acts + [a] && |ss'| == |acts'| + 1
    ensures ss <= ss' && ss'[|acts'|] == t
  {
    hide Enabled, Apply, Init;
    ss', acts' := ss + [t], acts + [a];
  }

  /** `acts` lead from `s` to `t`. */
  ghost predicate Leads(s: State, acts: seq<Action>, t: State)
    decreases |acts|
  {
    if acts == [] then s == t
    else Enabled(s, acts[0]) && Leads(Apply(s, acts[0]), acts[1..], t)
  }

  lemma {:induction false} LeadsOn(s: State, a: seq<Action>, t: State, b: seq<Action>, u: State)
    requires Leads(s, a, t) && Leads(t, b, u)
    ensures Leads(s, a + b, u)
    decreases |a|
  {
    hide Apply, Enabled;
    if a == [] {
      assert a + b == b;
    } else {
      LeadsOn(Apply(s, a[0]), a[1..], t, b, u);
      assert (a + b)[1..] == a[1..] + b;
    }
  }

  lemma LeadsOne(s: State, a: Action)
    requires Enabled(s, a)
    ensures Leads(s, [a], Apply(s, a))
  {
    hide Apply, Enabled;
    assert [a][1..] == [];
  }

  lemma RunStepGrows(ss: seq<State>, acts: seq<Action>, i: nat)
    requires Run(ss, acts) && i < |acts|
    ensures Grown(ss[i], ss[i + 1])
  {
    hide Inv, Enabled, Apply;
    RunKeepsInv(ss, acts, i);
    StepGrows(ss[i], acts[i]);
  }

  /** Over any run the retired and consumed timestamps never move backward, the enqueue and
      departure histories only grow, and what is hidden or drained stays so. */
  lemma {:induction false} RetiredNeverMovesBack(ss: seq<State>, acts: seq<Action>, i: nat, j: nat)
    requires Run(ss, acts) && i <= j < |ss|
    ensures Grown(ss[i], ss[j])
    decreases j
  {
    hide Grown, Enabled, Apply;
    if i == j {
      GrownSame(ss[i]);
    } else {
      RetiredNeverMovesBack(ss, acts, i, j - 1);
      RunStepGrows(ss, acts, j - 1);
      GrownOn(ss[i], ss[j - 1], ss[j]);
    }
  }

  /** In every state of a run: a marker the CPU retired has its time shown as retired; what
      was submitted has retired or is in flight, and nothing else is; objects leave as their
      kind has it. */
  lemma DepartedAreAccountedFor(ss: seq<State>, acts: seq<Action>, i: nat)
    requires Run(ss, acts) && i < |ss|
    ensures forall e <- ss[i].left ::
              && (e.fate == CpuRetired ==> e.obj.Marker? && e.obj.time <= ss[i].retired)
              && (e.fate == Submitted ==>
                    e.obj.Stamped() && (e.obj.time <= ss[i].retired || e.obj.time in ss[i].inflight))
              && (e.obj.Sync? <==> e.fate == SyncDone) && (e.obj.Timeline? <==> e.fate == Signalled)
              && (e.obj.Cmd? ==> e.fate in {Submitted, Lost})
    ensures forall t <- ss[i].inflight ::
              exists e <- ss[i].left :: e.fate == Submitted && e.obj.Stamped() && e.obj.time == t
  {
    hide Enabled, Apply;
    RunKeepsInv(ss, acts, i);
    hide Conserved, Cleared, Ordered, Rising, SyncsPassed, MarkersForced;
    forall t | t in ss[i].inflight
      ensures exists e <- ss[i].left :: e.fate == Submitted && e.obj.Stamped() && e.obj.time == t
    {
      var e :| e in ss[i].left && IsSubmission(e, t);
    }
  }

  /** In every state of a run the registers stand in the order retired, consumed, queued,
      within half a turn, so the 32-bit comparisons of the dispatcher read them right. */
  lemma RegistersAreComparable(ss: seq<State>, acts: seq<Action>, i: nat)
    requires Run(ss, acts) && i < |ss|
    ensures ss[i].retired <= ss[i].consumed <= ss[i].queued <= ss[i].retired + TWO31
    ensures Ts32Ge(Wrap32(ss[i].retired), Wrap32(ss[i].queued)) <==> ss[i].retired == ss[i].queued
    ensures forall k :: 0 <= k < |ss[i].out| && ss[i].out[k].Marker? ==>
              (Ts32Ge(Wrap32(ss[i].retired), Wrap32(ss[i].out[k].markerTime))
               <==> ss[i].retired >= ss[i].out[k].markerTime)
  {
    RunKeepsInv(ss, acts, i);
    RegistersOf(ss[i]);
  }

  lemma RegistersOf(s: State)
    requires Inv(s)
    ensures s.retired <= s.consumed <= s.queued <= s.retired + TWO31
    ensures Ts32Ge(Wrap32(s.retired), Wrap32(s.queued)) <==> s.retired == s.queued
    ensures forall k :: 0 <= k < |s.out| && s.out[k].Marker? ==>
              (Ts32Ge(Wrap32(s.retired), Wrap32(s.out[k].markerTime)) <==> s.retired >= s.out[k].markerTime)
  {
    hide Conserved, Cleared;
    Ts32GeAgreesWithOrder(s.retired, s.queued);
    forall k | 0 <= k < |s.out| && s.out[k].Marker?
      ensures Ts32Ge(Wrap32(s.retired), Wrap32(s.out[k].markerTime)) <==> s.retired >= s.out[k].markerTime
    {
      Ts32GeAgreesWithOrder(s.retired, s.out[k].markerTime);
    }
  }

  // ---- the order of departures ----

  /** Whatever was accepted before a departed object has departed before it, or was hidden in
      the ring, or was taken off at detach. */
  ghost predicate NoneOvertakenButAside(s: State) {
    forall p, j, k :: 0 <= p < |s.left| && 0 <= j < k < |s.accepted| && s.accepted[k] == s.left[p].obj.id ==>
      s.accepted[j] in LeftIds(s.left)[..p] || s.accepted[j] in Ids(s.Aside())
  }

  /** Over any run, send failures, batches enqueued without room and detach included: objects
      leave in the order they were accepted, with rising times, each once; only objects that
      were hidden or drained are passed over; and every sync object that left had no pending
      event. While nothing has been hidden or drained the departures are the first of the
      accepted objects. */
  lemma HardwareSeesEnqueueOrder(ss: seq<State>, acts: seq<Action>, i: nat)
    requires Run(ss, acts) && i < |ss|
    ensures var s := ss[i];
            && (forall p, q :: 0 <= p < q < |s.left| ==> Before(s.accepted, s.left[p].obj.id, s.left[q].obj.id))
            && (forall p, q :: 0 <= p < q < |s.left| && s.left[p].obj.Stamped() && s.left[q].obj.Stamped() ==>
                  s.left[p].obj.time < s.left[q].obj.time)
            && (forall p :: 0 <= p < |s.left| && s.left[p].obj.Sync? ==>
                  && s.left[p].fate == SyncDone
                  && s.left[p].obj.id in s.pending && s.pending[s.left[p].obj.id] == {})
            && NoneOvertakenButAside(s)
            && (s.Aside() == [] ==> LeftIds(s.left) <= s.accepted)
  {
    hide Enabled, Apply;
    RunKeepsInv(ss, acts, i);
    var s := ss[i];
    OrderOfLine(s);
    LeftTimesRise(s);
    OvertakenIsAside(s);
    if s.Aside() == [] {
      WholeLine(s);
    }
  }

  lemma OrderOfLine(s: State)
    requires Conserved(s)
    ensures forall p, q :: 0 <= p < q < |s.left| ==> Before(s.accepted, s.left[p].obj.id, s.left[q].obj.id)
  {
    forall p, q | 0 <= p < q < |s.left| ensures Before(s.accepted, s.left[p].obj.id, s.left[q].obj.id) {
      assert Line(s)[p] == s.left[p].obj.id && Line(s)[q] == s.left[q].obj.id;
      SubsequenceBefore(Line(s), s.accepted, p, q);
    }
  }

  lemma LeftTimesRise(s: State)
    requires Rising(Row(s), s.queued)
    ensures forall p, q :: 0 <= p < q < |s.left| && s.left[p].obj.Stamped() && s.left[q].obj.Stamped() ==>
              s.left[p].obj.time < s.left[q].obj.time
  {
    assert forall p :: 0 <= p < |s.left| ==> Row(s)[p] == s.left[p].obj;
  }

  /** The place in the line of what was accepted before the `p`-th of it. */
  lemma EarlierInLine(s: State, p: nat, j: nat, k: nat)
    requires Conserved(s) && p < |Line(s)| && j < k < |s.accepted| && s.accepted[k] == Line(s)[p]
    ensures s.accepted[j] in Line(s)[..p] || s.accepted[j] in Ids(s.Aside())
  {
    var x := s.accepted[j];
    assert x in multiset(s.accepted);
    if x !in Ids(s.Aside()) {
      assert x in Line(s);
      var q :| 0 <= q < |Line(s)| && Line(s)[q] == x;
      if q > p {
        SubsequenceBefore(Line(s), s.accepted, p, q);
      }
      assert q < p;
      assert Line(s)[..p][q] == x;
    }
  }

  lemma OvertakenIsAside(s: State)
    requires Conserved(s)
    ensures NoneOvertakenButAside(s)
  {
    forall p, j, k | 0 <= p < |s.left| && 0 <= j < k < |s.accepted| && s.accepted[k] == s.left[p].obj.id
      ensures s.accepted[j] in LeftIds(s.left)[..p] || s.accepted[j] in Ids(s.Aside())
    {
      assert Line(s)[p] == s.left[p].obj.id && Line(s)[..p] == LeftIds(s.left)[..p];
      EarlierInLine(s, p, j, k);
    }
  }

  lemma WholeLine(s: State)
    requires Conserved(s) && s.Aside() == []
    ensures s.accepted == Line(s)
  {
    assert multiset(s.accepted) == multiset(Line(s));
    assert |multiset(s.accepted)| == |s.accepted| && |multiset(Line(s))| == |Line(s)|;
    SubsequenceWhole(Line(s), s.accepted);
  }

  /** What is handed to the hardware is later than anything in flight, and everything accepted
      before it has left, or was hidden, or was drained. With nothing hidden or drained it is
      the oldest accepted object that has not left. */
  lemma SubmissionIsNext(ss: seq<State>, acts: seq<Action>, i: nat)
    requires Run(ss, acts) && i < |acts| && acts[i].SendOk?
    ensures var s := ss[i];
            && s.out != [] && ss[i + 1].left == s.left + [Exit(s.out[0], Submitted)]
            && (s.inflight != [] ==> s.inflight[|s.inflight| - 1] < s.out[0].time)
            && (forall j, k :: 0 <= j < k < |s.accepted| && s.accepted[k] == s.out[0].id ==>
                  s.accepted[j] in LeftIds(s.left) || s.accepted[j] in Ids(s.Aside()))
            && (s.Aside() == [] ==> |s.left| < |s.accepted| && s.accepted[|s.left|] == s.out[0].id)
  {
    hide Inv, Apply, Enabled;
    RunKeepsInv(ss, acts, i);
    SubmissionLeaves(ss[i]);
    SubmissionOrder(ss[i]);
  }

  lemma SubmissionLeaves(s: State)
    requires Enabled(s, SendOk)
    ensures s.out != [] && s.out[0].Stamped() && Apply(s, SendOk).left == s.left + [Exit(s.out[0], Submitted)]
  {}

  lemma SubmissionOrder(s: State)
    requires Inv(s) && s.out != []
    ensures s.inflight != [] && s.out[0].Stamped() ==> s.inflight[|s.inflight| - 1] < s.out[0].time
    ensures forall j, k :: 0 <= j < k < |s.accepted| && s.accepted[k] == s.out[0].id ==>
              s.accepted[j] in LeftIds(s.left) || s.accepted[j] in Ids(s.Aside())
    ensures s.Aside() == [] ==> |s.left| < |s.accepted| && s.accepted[|s.left|] == s.out[0].id
  {
    hide Partitioned, OlderThan;
    assert Line(s)[|s.left|] == s.out[0].id && Line(s)[..|s.left|] == LeftIds(s.left);
    forall j, k | 0 <= j < k < |s.accepted| && s.accepted[k] == s.out[0].id
      ensures s.accepted[j] in LeftIds(s.left) || s.accepted[j] in Ids(s.Aside())
    {
      EarlierInLine(s, |s.left|, j, k);
    }
    if s.Aside() == [] {
      WholeLine(s);
    }
  }

  /** The object `id` has left; if it is a sync object none of its events is pending. */
  ghost predicate LeftCleared(s: State, id: nat) {
    exists p :: 0 <= p < |s.left| && s.left[p].obj.id == id
                && (s.left[p].obj.Sync? ==> id in s.pending && s.pending[id] == {})
  }

  /** The object at the head, or being sent, is the oldest not to have left exactly if it was
      accepted before anything was hidden or drained; then every earlier sync object has left
      and has no pending event. So in particular as long as nothing has been. */
  lemma HeadIsOldestExactly(s: State, k: nat)
    requires Inv(s) && s.out != [] && k < |s.accepted| && s.accepted[k] == s.out[0].id
    ensures (forall j :: 0 <= j < k ==> s.accepted[j] in LeftIds(s.left)) <==> k < s.clear
    ensures s.Aside() == [] ==> k < s.clear
    ensures k < s.clear ==>
              forall j :: 0 <= j < k ==> LeftCleared(s, s.accepted[j])
  {
    hide Ordered, Rising, MarkersForced;
    SubmissionOrder(s);
    InAccepted(s.accepted, Line(s), Ids(s.Aside()));
    if k < s.clear {
      assert s.out[0].id == Ids(s.out)[0] == s.accepted[..s.clear][k];
      forall j | 0 <= j < k ensures s.accepted[j] in LeftIds(s.left) {
        assert s.accepted[j] in Ids(s.Aside()) ==> Before(s.accepted, s.out[0].id, s.accepted[j]);
      }
      LeftSyncsAreDone(s, k);
    } else {
      var j :| 0 <= j < s.clear && s.accepted[j] in Ids(s.Aside());
      var x := s.accepted[j];
      assert x in LeftIds(s.left) ==> x in Line(s);
    }
  }

  lemma LeftSyncsAreDone(s: State, k: nat)
    requires SyncsPassed(s) && k <= |s.accepted| && forall j :: 0 <= j < k ==> s.accepted[j] in LeftIds(s.left)
    ensures forall j :: 0 <= j < k ==> LeftCleared(s, s.accepted[j])
  {
    forall j | 0 <= j < k ensures LeftCleared(s, s.accepted[j]) {
      var p :| 0 <= p < |s.left| && LeftIds(s.left)[p] == s.accepted[j];
      assert s.left[p].obj.id == s.accepted[j];
    }
  }

  /** A command in the queue is never kept waiting by a marker: unless a sync object is
      at the head, the dispatcher can take the next step. */
  lemma OnlySyncsHoldUpCommands(s: State, k: nat)
    requires Inv(s) && !s.sending && k < |s.out| && s.out[k].Cmd?
    ensures s.out[0].Sync? || HeadRetires(s) || HeadIsReady(s)
  {
    hide Conserved, Cleared, Ordered, Rising;
    assert k > 0 && s.out[0].Marker? ==> s.out[0].skip;
  }
}
