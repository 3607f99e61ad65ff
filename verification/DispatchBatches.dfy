/** What one call of the enqueue function does to a context, for any batch. */
module DispatchBatches {
  import opened Timestamps
  import opened Units
  import opened DispatchModel
  import opened DispatchRuns

  /** Everything enqueued and neither gone nor drained, but for the object being sent. */
  function Stock(s: State): seq<DrawObj> { s.hidden + s.Fifo() }

  function RequestIds(batch: seq<Request>): (r: seq<nat>)
    ensures |r| == |batch|
    ensures forall k :: 0 <= k < |r| ==> r[k] == batch[k].id
  {
    seq(|batch|, k requires 0 <= k < |batch| => batch[k].id)
  }

  /** `o` is the draw object made from `r`. */
  predicate Made(r: Request, o: DrawObj) {
    r.id == o.id && match r
      case CmdReq(_) => o.Cmd?
      case MarkerReq(_, flagged) => o.Marker? && o.flagged == flagged
      case SyncReq(_, _) => o.Sync?
      case TimelineReq(_) => o.Timeline?
  }

  /** `o` is `x`, but for the skip bit of a marker. */
  predicate Same(x: DrawObj, o: DrawObj) { o == x || (x.Marker? && o == x.(skip := true)) }

  /** `os` became `os'`: all of `batch` behind the objects already there, of which only skip
      bits of markers changed. */
  ghost predicate Extends(os: seq<DrawObj>, os': seq<DrawObj>, batch: seq<Request>) {
    && |os'| == |os| + |batch|
    && (forall k :: 0 <= k < |os| ==> Same(os[k], os'[k]))
    && (forall k :: |os| <= k < |os'| ==> Made(batch[k - |os|], os'[k]))
  }

  lemma ExtendsCons(f0: seq<DrawObj>, f1: seq<DrawObj>, f2: seq<DrawObj>, batch: seq<Request>)
    requires batch != [] && Extends(f0, f1, [batch[0]]) && Extends(f1, f2, batch[1..])
    ensures Extends(f0, f2, batch)
  {
    forall k | |f0| <= k < |f2| ensures Made(batch[k - |f0|], f2[k]) {
      if k > |f0| {
        assert batch[k - |f0|] == batch[1..][k - |f1|];
      } else {
        assert Made([batch[0]][0], f1[k]) && Same(f1[k], f2[k]);
      }
    }
  }

  lemma ExtendsNone(os: seq<DrawObj>)
    ensures Extends(os, os, [])
  {}

  // ---- one turn of the loop ----

  predicate StartsFast(s: State, batch: seq<Request>) {
    batch != [] && batch[0].MarkerReq? && FastPath(s)
  }

  lemma ForcedFifo(s: State, t: int)
    requires s.sending ==> s.out != []
    ensures s.(out := ForceMarkers(s.out), queued := t).Fifo() == ForceMarkers(s.Fifo())
  {}

  lemma QueueOneExtends(s: State, r: Request, t: int)
    requires s.sending ==> s.out != []
    requires !(r.MarkerReq? && FastPath(s))
    ensures Extends(Stock(s), Stock(QueueOne(s, r, t)), [r])
    ensures |s.Fifo()| <= 127 ==> |QueueOne(s, r, t).Fifo()| == (|s.Fifo()| + 1) % QUEUE_SIZE
  {
    hide Append, Extends, Stock, Made, Same;
    var u := QueueOne(s, r, t);
    match r
    case SyncReq(id, events) =>
      AppendShape(s.(pending := s.pending[id := events]), Sync(id));
      StockGrows(s, u, s.Fifo(), Sync(id), r);
    case TimelineReq(id) =>
      AppendShape(s, Timeline(id));
      StockGrows(s, u, s.Fifo(), Timeline(id), r);
    case CmdReq(id) =>
      AppendShape(s.(out := ForceMarkers(s.out), queued := t), Cmd(id, t));
      ForcedFifo(s, t);
      StockGrows(s, u, ForceMarkers(s.Fifo()), Cmd(id, t), r);
    case MarkerReq(id, flagged) =>
      var m := Marker(id, t, s.queued, !s.shadow, flagged);
      AppendShape(s.(queued := t), m);
      StockGrows(s, u, s.Fifo(), m, r);
  }

  lemma StockGrows(s: State, u: State, f: seq<DrawObj>, o: DrawObj, r: Request)
    requires f == s.Fifo() || f == ForceMarkers(s.Fifo())
    requires u.hidden + u.Fifo() == s.hidden + f + [o] && Made(r, o)
    ensures Extends(Stock(s), Stock(u), [r])
  {}

  // ---- the whole loop ----

  /** What the loop has done when it ends, on the first `n` objects of the batch: they went
      into the ring, where with each 128th the slots from head to tail are hidden. */
  ghost predicate AppendedSome(s: State, t: State, batch: seq<Request>, n: nat) {
    && n <= |batch| && t.accepted == s.accepted + RequestIds(batch[..n])
    && Extends(Stock(s), Stock(t), batch[..n])
    && s.hidden <= t.hidden && t.drained == s.drained
    && t.left == s.left && t.retired == s.retired && t.sending == s.sending
    && (|s.Fifo()| <= 127 ==> |t.Fifo()| == (|s.Fifo()| + n) % QUEUE_SIZE)
  }

  lemma AppendedNone(s: State, batch: seq<Request>)
    ensures AppendedSome(s, s, batch, 0)
  {
    ExtendsNone(Stock(s));
    assert batch[..0] == [] && RequestIds([]) == [] && s.accepted + [] == s.accepted;
  }

  lemma AppendedCons(s: State, u: State, t: State, batch: seq<Request>, n: nat)
    requires batch != [] && AppendedSome(u, t, batch[1..], n)
    requires Extends(Stock(s), Stock(u), [batch[0]]) && u.accepted == s.accepted + [batch[0].id]
    requires s.hidden <= u.hidden && u.drained == s.drained
    requires u.left == s.left && u.retired == s.retired && u.sending == s.sending
    requires |s.Fifo()| <= 127 ==> |u.Fifo()| == (|s.Fifo()| + 1) % QUEUE_SIZE
    ensures AppendedSome(s, t, batch, n + 1)
  {
    hide Extends, Stock, RequestIds;
    if |s.Fifo()| <= 127 {
      RoundRing(|s.Fifo()|, n);
    }
    var b := batch[..n + 1];
    assert b[1..] == batch[1..][..n];
    ExtendsCons(Stock(s), Stock(u), Stock(t), b);
    RequestIdsCons(b);
  }

  lemma RequestIdsCons(batch: seq<Request>)
    requires batch != []
    ensures RequestIds(batch) == [batch[0].id] + RequestIds(batch[1..])
  {}

  lemma RoundRing(a: nat, n: nat)
    ensures ((a + 1) % QUEUE_SIZE + n) % QUEUE_SIZE == (a + (n + 1)) % QUEUE_SIZE
  {
    assert a + 1 == (a + 1) / QUEUE_SIZE * QUEUE_SIZE + (a + 1) % QUEUE_SIZE;
  }

  /** How much of a batch the loop takes if it does not start with a marker retired at once:
      with client timestamps every stamped object gets the same time, so there is room for one
      that is later than the last queued time, and no other. */
  function Takes(s: State, batch: seq<Request>, given: u32): (n: nat)
    ensures n <= |batch|
  {
    if s.mode != Client then |batch|
    else if Ts32Ge(Wrap32(s.queued), given) then Unstamped(batch)
    else
      var n := Unstamped(batch);
      if n == |batch| then n else n + 1 + Unstamped(batch[n + 1..])
  }

  /** Length of the part of a batch before its first stamped object. */
  function Unstamped(batch: seq<Request>): (n: nat)
    ensures n <= |batch|
  {
    if batch == [] || batch[0].Stamped() then 0 else 1 + Unstamped(batch[1..])
  }

  lemma TakesNext(s: State, batch: seq<Request>, given: u32)
    requires batch != []
    ensures var r, u := NextTimestamp(s.mode, Wrap32(s.queued), given), QueueOne(s, batch[0], TimeGiven(s, given));
            if batch[0].Stamped() && r.Err? then Takes(s, batch, given) == 0
            else (s.sending ==> s.out != []) ==> Takes(s, batch, given) == 1 + Takes(u, batch[1..], given)
  {
    hide QueueOne, Ts32Ge, Wrap32;
    if s.sending ==> s.out != [] {
      QueueOneShape(s, batch[0], TimeGiven(s, given));
      LiftWraps(s.queued, given);
      SameIsReached(given);
    }
  }

  lemma SameIsReached(ts: u32)
    ensures Ts32Ge(ts, ts)
  {}

  lemma {:induction false} LoopTakes(s: State, batch: seq<Request>, given: u32)
    requires !StartsFast(s, batch) && (s.sending ==> s.out != [])
    ensures var o, n := EnqueueLoop(s, batch, given), Takes(s, batch, given);
            && AppendedSome(s, o.state, batch, n)
            && (o.code == 0 <==> n == |batch|)
    decreases |batch|
  {
    hide NextTimestamp, TimeGiven, QueueOne, Takes, AppendedSome, FastPath;
    if batch == [] {
      TakesNone(s, given);
      AppendedNone(s, batch);
    } else {
      TakesNext(s, batch, given);
      var r := NextTimestamp(s.mode, Wrap32(s.queued), given);
      if batch[0].Stamped() && r.Err? {
        AppendedNone(s, batch);
        RefusalIsAnError(s, given);
      } else {
        var t := TimeGiven(s, given);
        var u := QueueOne(s, batch[0], t);
        QueueOneShape(s, batch[0], t);
        QueueOneExtends(s, batch[0], t);
        NothingFastBehind(u, batch[1..]);
        LoopTakes(u, batch[1..], given);
        AppendedCons(s, u, EnqueueLoop(u, batch[1..], given).state, batch, Takes(u, batch[1..], given));
      }
    }
  }

  lemma TakesNone(s: State, given: u32)
    ensures Takes(s, [], given) == 0
  {}

  lemma RefusalIsAnError(s: State, given: u32)
    requires NextTimestamp(s.mode, Wrap32(s.queued), given).Err?
    ensures NextTimestamp(s.mode, Wrap32(s.queued), given).code != 0
  {}

  lemma NothingFastBehind(s: State, batch: seq<Request>)
    requires s.Count() > 0
    ensures !StartsFast(s, batch)
  {}

  // ---- batches ----

  /** What the two command ioctls build: syncs and timelines, then at most one command
      or marker. */
  predicate IoctlShape(batch: seq<Request>) {
    forall k :: 0 <= k < |batch| - 1 ==> !batch[k].Stamped()
  }

  function StampCount(batch: seq<Request>): nat {
    if batch == [] then 0 else (if batch[0].Stamped() then 1 else 0) + StampCount(batch[1..])
  }

  lemma {:induction false} UnstampedExactly(batch: seq<Request>)
    ensures Unstamped(batch) == |batch| <==> StampCount(batch) == 0
    ensures Unstamped(batch) < |batch| ==>
              batch[Unstamped(batch)].Stamped() && StampCount(batch) == 1 + StampCount(batch[Unstamped(batch) + 1..])
    ensures IoctlShape(batch) ==> Unstamped(batch) + 1 >= |batch|
  {
    if batch != [] && !batch[0].Stamped() {
      var rest := batch[1..];
      UnstampedExactly(rest);
      assert IoctlShape(batch) ==> IoctlShape(rest);
      assert rest[Unstamped(rest)..] == batch[Unstamped(batch)..];
      assert Unstamped(rest) < |rest| ==> rest[Unstamped(rest) + 1..] == batch[Unstamped(batch) + 1..];
    }
  }

  /** A batch that gets past the door is taken whole exactly if, with client timestamps, at
      most one of its objects is stamped. */
  lemma TakesAllExactly(s: State, batch: seq<Request>, given: u32)
    requires !StaleClientTime(s, batch, given)
    ensures Takes(s, batch, given) == |batch| <==> (s.mode == Client ==> StampCount(batch) <= 1)
    ensures batch != [] ==> Takes(s, batch, given) > 0
    ensures IoctlShape(batch) ==> Takes(s, batch, given) == |batch|
  {
    hide Ts32Ge;
    UnstampedExactly(batch);
    var n := Unstamped(batch);
    if n < |batch| {
      UnstampedExactly(batch[n + 1..]);
    }
  }

  /** For the shapes the ioctls build an error leaves the context as it was, and success
      puts the whole batch behind what is in stock, or retires a lone marker at once. */
  lemma BatchIsAllOrNothing(s: State, batch: seq<Request>, given: u32)
    requires IoctlShape(batch) && batch != [] && (s.sending ==> s.out != [])
    ensures var o := Enqueue(s, batch, given);
            var fast := |batch| == 1 && batch[0].MarkerReq? && FastPath(s);
            && (o.code != 0 <==> StaleClientTime(s, batch, given))
            && (o.code != 0 ==> o.state == s)
            && (o.code == 0 && !fast ==> AppendedSome(s, o.state, batch, |batch|))
            && (o.code == 0 && fast ==>
                  && o.state.Fifo() == s.Fifo() && o.state.hidden == s.hidden
                  && o.state.accepted == s.accepted + RequestIds(batch)
                  && o.state.retired == o.state.consumed == o.state.queued)
  {
    if !StaleClientTime(s, batch, given) {
      LoneIfStamped(batch);
      if StartsFast(s, batch) {
        LoneFastMarker(s, batch, given);
      } else {
        hide AppendedSome, Takes, EnqueueLoop;
        LoopTakes(s, batch, given);
        TakesAllExactly(s, batch, given);
      }
    }
  }

  lemma LoneIfStamped(batch: seq<Request>)
    requires IoctlShape(batch) && batch != []
    ensures batch[0].Stamped() ==> |batch| == 1
  {}

  lemma LoneFastMarker(s: State, batch: seq<Request>, given: u32)
    requires |batch| == 1 && StartsFast(s, batch) && !StaleClientTime(s, batch, given)
    ensures var o := EnqueueLoop(s, batch, given);
            && o.code == 0 && o.state.Fifo() == s.Fifo() && o.state.hidden == s.hidden && o.state.out == s.out
            && o.state.accepted == s.accepted + RequestIds(batch)
            && o.state.retired == o.state.consumed == o.state.queued
  {
    assert RequestIds(batch) == [batch[0].id];
  }

  /** A sync object alone is enqueued whatever timestamp comes with it. */
  lemma LoneSyncIsNeverRefused(s: State, id: nat, events: set<nat>, given: u32)
    ensures Enqueue(s, [SyncReq(id, events)], given) == Outcome(QueueSync(s, id, events), 0)
  {
    hide NextTimestamp, QueueSync;
    var batch := [SyncReq(id, events)];
    assert !batch[0].Stamped() && batch[1..] == [];
    assert EnqueueLoop(QueueSync(s, id, events), batch[1..], given) == Outcome(QueueSync(s, id, events), 0);
    assert Enqueue(s, batch, given) == EnqueueLoop(s, batch, given);
  }

  predicate LoneSync(batch: seq<Request>) { |batch| == 1 && batch[0].SyncReq? }

  /** Any other batch of an ioctl is refused exactly if the client's timestamp does not lie
      ahead of the last queued one by at most half a turn. */
  lemma IoctlBatchIsRefusedExactly(s: State, batch: seq<Request>, given: u32)
    requires IoctlShape(batch) && batch != [] && (s.sending ==> s.out != [])
    ensures var code := Enqueue(s, batch, given).code;
            && code in {0, -34}
            && (LoneSync(batch) ==> code == 0)
            && (!LoneSync(batch) ==>
                  (code == -34 <==> s.mode == Client && !(0 < Lift(s.queued, given) - s.queued <= TWO31)))
  {
    hide Enqueue, AppendedSome, Lift, Ts32Ge;
    BatchIsAllOrNothing(s, batch, given);
    NextTimestampIsLater(Client, s.queued, given);
    RefusalIs(s, batch, given);
  }

  lemma RefusalIs(s: State, batch: seq<Request>, given: u32)
    ensures StaleClientTime(s, batch, given) ==> Enqueue(s, batch, given).code == -34
  {}

  /** Outside the shapes of the ioctls it is not all or nothing. For any batch in any mode:
      it is taken whole exactly if it is not refused at the door, a marker that starts it and
      is retired at once is alone, and with client timestamps at most one of its objects is
      stamped. If only one of the last two fails, a part of it, not all, goes in; 0 is returned
      in the one case, an error in the other. */
  lemma BatchIsTakenWholeExactly(s: State, batch: seq<Request>, given: u32)
    requires batch != [] && (s.sending ==> s.out != [])
    ensures var o, stale, fast := Enqueue(s, batch, given), StaleClientTime(s, batch, given), StartsFast(s, batch);
            && (o.code == 0 && o.state.accepted == s.accepted + RequestIds(batch) <==>
                  !stale && (if fast then |batch| == 1 else s.mode == Client ==> StampCount(batch) <= 1))
            && (stale ==> o == Outcome(s, ERANGE))
            && (!stale && |o.state.accepted| != |s.accepted| + |batch| ==>
                  && |s.accepted| < |o.state.accepted| < |s.accepted| + |batch|
                  && (o.code == 0 <==> fast))
  {
    hide AppendedSome, Takes, Ts32Ge;
    if !StaleClientTime(s, batch, given) {
      if StartsFast(s, batch) {
        FastMarkerIsFirst(s, batch, given);
      } else {
        hide EnqueueLoop;
        LoopTakes(s, batch, given);
        TakesAllExactly(s, batch, given);
        LengthTaken(s, EnqueueLoop(s, batch, given).state, batch, Takes(s, batch, given));
      }
    }
  }

  lemma FastMarkerIsFirst(s: State, batch: seq<Request>, given: u32)
    requires StartsFast(s, batch) && !StaleClientTime(s, batch, given)
    ensures EnqueueLoop(s, batch, given).code == 0
    ensures EnqueueLoop(s, batch, given).state.accepted == s.accepted + [batch[0].id]
    ensures RequestIds(batch) == [batch[0].id] <==> |batch| == 1
    ensures |RequestIds(batch)| == |batch|
  {}

  lemma LengthTaken(s: State, t: State, batch: seq<Request>, n: nat)
    requires AppendedSome(s, t, batch, n)
    ensures |t.accepted| == |s.accepted| + n && |RequestIds(batch)| == |batch|
    ensures n == |batch| ==> t.accepted == s.accepted + RequestIds(batch)
  {
    assert n == |batch| ==> batch[..n] == batch;
  }

  /** A busy context with client timestamps, past the check at the door: an error comes after
      something has been accepted. */
  lemma SecondStampIsRefused(s: State, batch: seq<Request>, given: u32)
    requires s.mode == Client && s.Fifo() != [] && !Ts32Ge(Wrap32(s.queued), given)
    ensures var o := EnqueueLoop(s, batch, given);
            && (o.code == 0 <==> StampCount(batch) <= 1)
            && (o.code != 0 ==> |o.state.accepted| > |s.accepted|)
  {
    hide AppendedSome, Takes, EnqueueLoop, Ts32Ge;
    LoopTakes(s, batch, given);
    TakesAllExactly(s, batch, given);
    LengthTaken(s, EnqueueLoop(s, batch, given).state, batch, Takes(s, batch, given));
  }

  // ---- what an enqueue hides ----

  /** Of any batch, taken whole or in part: objects are hidden exactly if those in the ring and
      those taken are 128 or more. */
  lemma EnqueueHidesExactly(s: State, batch: seq<Request>, given: u32)
    requires |s.Fifo()| <= 127 && (s.sending ==> s.out != [])
    ensures var t := Enqueue(s, batch, given).state;
            && s.hidden <= t.hidden
            && |s.accepted| <= |t.accepted| <= |s.accepted| + |batch|
            && (t.hidden == s.hidden <==> |s.Fifo()| + (|t.accepted| - |s.accepted|) <= 127)
            && (t.hidden == s.hidden ==> |t.Fifo()| <= |s.Fifo()| + |batch|)
            && t.sending == s.sending && (t.sending ==> t.out != [])
  {
    hide Ts32Ge, EnqueueLoop, AppendedSome;
    if !StaleClientTime(s, batch, given) {
      if StartsFast(s, batch) {
        FastMarkerShape(s, batch, given);
      } else {
        LoopTakes(s, batch, given);
        LoopKeepsSending(s, batch, given);
        StockLength(s, EnqueueLoop(s, batch, given).state, batch, Takes(s, batch, given));
      }
    }
  }

  lemma FastMarkerShape(s: State, batch: seq<Request>, given: u32)
    requires StartsFast(s, batch) && (s.sending ==> s.out != [])
    ensures var t := EnqueueLoop(s, batch, given).state;
            && t.hidden == s.hidden && t.Fifo() == s.Fifo() == [] && t.sending == s.sending && t.out == s.out
            && |s.accepted| <= |t.accepted| <= |s.accepted| + 1
  {}

  lemma {:induction false} LoopKeepsSending(s: State, batch: seq<Request>, given: u32)
    requires s.sending ==> s.out != []
    ensures var t := EnqueueLoop(s, batch, given).state; t.sending == s.sending && (t.sending ==> t.out != [])
    decreases |batch|
  {
    hide NextTimestamp, TimeGiven, QueueOne;
    if batch != [] {
      QueueOneShape(s, batch[0], TimeGiven(s, given));
      LoopKeepsSending(QueueOne(s, batch[0], TimeGiven(s, given)), batch[1..], given);
    }
  }

  lemma StockLength(s: State, t: State, batch: seq<Request>, n: nat)
    requires AppendedSome(s, t, batch, n) && |s.Fifo()| <= 127
    ensures |t.accepted| == |s.accepted| + n && s.hidden <= t.hidden
    ensures t.hidden == s.hidden <==> |s.Fifo()| + n <= 127
    ensures t.hidden == s.hidden ==> |t.Fifo()| == |s.Fifo()| + n
  {}
}
