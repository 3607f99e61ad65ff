/** Timestamp events of a context (hgsl_events.c): a list ordered by arrival, a watermark
    of the last processed timestamp, and a worker that runs the callbacks. The retired
    timestamp is an unbounded time `now` whose low 32 bits the register shows. */
module EventGroups {
  import opened Timestamps
  import opened Units
  import opened Wrappers

  /** `func` and `priv` stand for the callback and its argument. */
  datatype Event = Event(id: nat, timestamp: u32, func: nat, priv: nat)

  datatype Verdict = Reached | Cancelled

  datatype Handed = Handed(event: Event, verdict: Verdict)

  datatype Outcome = Accepted | Invalid | NoMemory | NoContext

  /** Unbounded time meant by `ts` when `now` is the retired time. */
  function Meant(now: int, ts: u32): int {
    if Ts32Ge(Wrap32(now), ts) then now - Ahead32(ts, Wrap32(now)) else Lift(now, ts)
  }

  lemma MeantBasics(now: int, ts: u32)
    ensures Wrap32(Meant(now, ts)) == ts
    ensures Ts32Ge(Wrap32(now), ts) <==> Meant(now, ts) <= now
    ensures now - TWO31 < Meant(now, ts) <= now + TWO31
  {
    if Ts32Ge(Wrap32(now), ts) {
      WrapDifference32(now, Meant(now, ts));
      var q := now / TWO32;
      assert now == q * TWO32 + Wrap32(now);
    } else {
      LiftWraps(now, ts);
    }
  }

  // ---- what is to be done with a list of events ----

  /** A pass at time `now`, given the due times of all events; the scan the code makes with
      the register that shows `now`; or a cancellation. */
  datatype Rule =
    | Pass(due: seq<int>, now: int, flush: bool)
    | Scan(retired: u32, flush: bool)
    | Cancelling(timestamp: u32)

  /** Whether an event is handed over, and how: a pass takes what is due, a scan what the
      register test picks, and on a flush the rest too. */
  function VerdictOn(e: Event, rule: Rule): Option<Verdict> {
    match rule
    case Pass(due, now, flush) =>
      if e.id < |due| && due[e.id] <= now then Some(Reached)
      else if flush then Some(Cancelled)
      else None
    case Scan(retired, flush) =>
      if Ts32Ge(retired, e.timestamp) then Some(Reached) else if flush then Some(Cancelled) else None
    case Cancelling(ts) => if e.timestamp == ts then Some(Cancelled) else None
  }

  function Taken(es: seq<Event>, rule: Rule): seq<Handed> {
    if es == [] then []
    else
      match VerdictOn(es[0], rule)
      case None => Taken(es[1..], rule)
      case Some(v) => [Handed(es[0], v)] + Taken(es[1..], rule)
  }

  function Left(es: seq<Event>, rule: Rule): seq<Event> {
    if es == [] then []
    else if VerdictOn(es[0], rule).None? then [es[0]] + Left(es[1..], rule)
    else Left(es[1..], rule)
  }

  function Events(hs: seq<Handed>): seq<Event> {
    if hs == [] then [] else [hs[0].event] + Events(hs[1..])
  }

  /** Each event is either left or handed over, never both. */
  lemma {:induction false} SplitIsExact(es: seq<Event>, rule: Rule)
    ensures multiset(es) == multiset(Left(es, rule)) + multiset(Events(Taken(es, rule)))
    ensures |es| == |Left(es, rule)| + |Taken(es, rule)|
  {
    hide VerdictOn;
    if es != [] {
      var e, rest := es[0], es[1..];
      SplitIsExact(rest, rule);
      HeadOut(e, rest);
      assert es == [e] + rest;
      if VerdictOn(e, rule).Some? {
        EventsHead(Handed(e, VerdictOn(e, rule).value), Taken(rest, rule));
        HeadOut(e, Events(Taken(rest, rule)));
      } else {
        HeadOut(e, Left(rest, rule));
      }
    }
  }

  lemma HeadOut(e: Event, es: seq<Event>)
    ensures multiset([e] + es) == multiset{e} + multiset(es)
  {
  }

  lemma EventsHead(h: Handed, hs: seq<Handed>)
    ensures Events([h] + hs) == [h.event] + Events(hs)
  {
    assert ([h] + hs)[1..] == hs;
  }

  lemma {:induction false} SplitIsRight(es: seq<Event>, rule: Rule)
    ensures forall e <- Left(es, rule) :: e in es && VerdictOn(e, rule).None?
    ensures forall h <- Taken(es, rule) :: h.event in es && VerdictOn(h.event, rule) == Some(h.verdict)
  {
    hide VerdictOn;
    if es != [] {
      SplitIsRight(es[1..], rule);
    }
  }

  lemma HeadTail<T>(a: seq<T>, b: seq<T>)
    requires a != []
    ensures (a + b)[0] == a[0] && (a + b)[1..] == a[1..] + b
  {
  }

  lemma {:induction false} EventsAppend(a: seq<Handed>, b: seq<Handed>)
    ensures Events(a + b) == Events(a) + Events(b)
    ensures |Events(a)| == |a|
  {
    if a == [] {
      assert a + b == b;
    } else {
      EventsAppend(a[1..], b);
      HeadTail(a, b);
      assert [a[0].event] + (Events(a[1..]) + Events(b)) == [a[0].event] + Events(a[1..]) + Events(b);
    }
  }

  /** Nothing due, nothing to do. */
  lemma {:induction false} NothingTaken(es: seq<Event>, rule: Rule)
    requires forall e <- es :: VerdictOn(e, rule).None?
    ensures Taken(es, rule) == [] && Left(es, rule) == es
  {
    hide VerdictOn;
    if es != [] {
      NothingTaken(es[1..], rule);
    }
  }

  lemma {:induction false} SplitAppend(es: seq<Event>, e: Event, rule: Rule)
    ensures Taken(es + [e], rule) == Taken(es, rule) + Taken([e], rule)
    ensures Left(es + [e], rule) == Left(es, rule) + Left([e], rule)
  {
    hide VerdictOn;
    if es == [] {
      assert es + [e] == [e];
    } else {
      SplitAppend(es[1..], e, rule);
      HeadTail(es, [e]);
    }
  }

  lemma SplitNext(es: seq<Event>, k: nat, rule: Rule)
    requires k < |es|
    ensures var v := VerdictOn(es[k], rule);
            && Taken(es[..k + 1], rule) == Taken(es[..k], rule) + (if v.Some? then [Handed(es[k], v.value)] else [])
            && Left(es[..k + 1], rule) == Left(es[..k], rule) + (if v.Some? then [] else [es[k]])
  {
    assert es[..k + 1] == es[..k] + [es[k]];
    SplitAppend(es[..k], es[k], rule);
  }

  lemma SplitOfNone(rule: Rule)
    ensures Taken([], rule) == [] && Left([], rule) == []
  {
  }

  predicate Matches(e: Event, ts: u32, func: nat, priv: nat) {
    e.timestamp == ts && e.func == func && e.priv == priv
  }

  // ---- the invariant ----

  /** Every event has a due time, of which its timestamp shows the low 32 bits. */
  ghost predicate Timed(es: seq<Event>, due: seq<int>) {
    forall e <- es :: e.id < |due| && e.timestamp == Wrap32(due[e.id])
  }

  /** Everything the group has been given and done. */
  datatype Ledger = Ledger(
    accepted: seq<Event>,    // in order of acceptance; an event's id is its place here
    due: seq<int>,           // their unbounded times
    listed: seq<Event>,
    worker: seq<Handed>,     // handed over, callback still to run
    ran: seq<Handed>,        // callback has run
    processed: int,          // unbounded watermark
    retired: int)            // latest retired time seen

  /** Each accepted event is in exactly one of the three places. */
  ghost predicate Conserved(l: Ledger) {
    multiset(l.accepted) == multiset(l.listed) + multiset(Events(l.worker)) + multiset(Events(l.ran))
  }

  ghost predicate Identified(l: Ledger) {
    && |l.due| == |l.accepted|
    && (forall i :: 0 <= i < |l.accepted| ==> l.accepted[i].id == i)
    && Timed(l.accepted, l.due)
  }

  /** Every listed event lies at most half a turn after the time at which it was added. */
  ghost predicate Bounded(l: Ledger) {
    && l.processed <= l.retired
    && Timed(l.listed, l.due)
    && forall e <- l.listed :: l.due[e.id] <= l.retired + TWO31
  }

  /** No event is listed that a pass should have handed over. */
  ghost predicate NoneMissed(l: Ledger) {
    Timed(l.listed, l.due) && forall e <- l.listed :: l.processed < l.due[e.id]
  }

  /** An event is reported as reached only if its time had come. */
  ghost predicate Truthful(l: Ledger) {
    forall h <- l.worker + l.ran :: h.event.id < |l.due| && (h.verdict == Reached ==> l.due[h.event.id] <= l.retired)
  }

  /** What holds however seldom passes are made. */
  ghost predicate Orderly(l: Ledger) { Conserved(l) && Identified(l) && Bounded(l) && Truthful(l) }

  ghost predicate Sound(l: Ledger) { Orderly(l) && NoneMissed(l) }

  /** An accepted event is never lost and never handed over twice: it is found once, in
      one of the three places. */
  lemma HandedOverOnce(l: Ledger, e: Event)
    requires Orderly(l) && e in l.accepted
    ensures multiset(l.listed)[e] + multiset(Events(l.worker))[e] + multiset(Events(l.ran))[e] == 1
  {
    var i :| 0 <= i < |l.accepted| && l.accepted[i] == e;
    OccursOnce(l.accepted, i);
  }

  lemma OccursOnce(es: seq<Event>, i: nat)
    requires i < |es| && forall k :: 0 <= k < |es| ==> es[k].id == k
    ensures multiset(es)[es[i]] == 1
  {
    assert es == es[..i] + [es[i]] + es[i + 1..];
    assert multiset(es) == multiset(es[..i]) + multiset([es[i]]) + multiset(es[i + 1..]);
    assert es[i] !in es[..i] && es[i] !in es[i + 1..];
  }

  /** The register test never picks a listed event before its time, and misses one whose time
      has come exactly when that was an odd number of half turns ago. */
  lemma TestPicksExactly(l: Ledger, now: int, e: Event)
    requires Bounded(l) && l.retired <= now && e in l.listed
    ensures Ts32Ge(Wrap32(now), e.timestamp) <==> l.due[e.id] <= now && (now - l.due[e.id]) / TWO31 % 2 == 0
  {
    Ts32GeAgreesWithOrder(now, l.due[e.id]);
    if now - l.due[e.id] == -TWO31 {
      HalfTurnIsUnordered(now);
    }
  }

  /** So it agrees with the times of listed events, however long ago they were added, as long
      as less than half a turn has retired since the watermark. */
  lemma TestIsRight(l: Ledger, now: int, flush: bool, e: Event)
    requires Bounded(l) && NoneMissed(l) && l.retired <= now < l.processed + TWO31 && e in l.listed
    ensures VerdictOn(e, Scan(Wrap32(now), flush)) == VerdictOn(e, Pass(l.due, now, flush))
  {
    TestPicksExactly(l, now, e);
  }

  lemma {:induction false} SameVerdicts(es: seq<Event>, a: Rule, b: Rule)
    requires forall e <- es :: VerdictOn(e, a) == VerdictOn(e, b)
    ensures Taken(es, a) == Taken(es, b) && Left(es, a) == Left(es, b)
  {
    hide VerdictOn;
    if es != [] {
      SameVerdicts(es[1..], a, b);
    }
  }

  /** The early exit: when the register test says that nothing new has retired, a full
      scan would have found nothing. */
  lemma EarlyExitIsRight(l: Ledger, now: int)
    requires Bounded(l) && NoneMissed(l) && l.retired <= now < l.processed + TWO31
    ensures Ts32Ge(Wrap32(l.processed), Wrap32(now)) <==> now == l.processed
    ensures Ts32Ge(Wrap32(l.processed), Wrap32(now)) ==>
              Taken(l.listed, Pass(l.due, now, false)) == [] && Left(l.listed, Pass(l.due, now, false)) == l.listed
  {
    Ts32GeAgreesWithOrder(l.processed, now);
    if now == l.processed {
      hide Wrap32;
      NothingTaken(l.listed, Pass(l.due, now, false));
    }
  }

  /** Without that bound: the early exit is taken exactly when what has retired since the
      watermark is a whole number of turns or, within a turn, more than half of one. */
  lemma EarlyExitExactly(processed: int, now: int)
    ensures Ts32Ge(Wrap32(processed), Wrap32(now)) <==>
              (now - processed) % TWO32 == 0 || (now - processed) % TWO32 > TWO31
  {
    WrapDifference32(processed, now);
  }

  /** Events taken off the list by a rule go to the worker, in order. */
  function Applied(l: Ledger, rule: Rule): Ledger {
    l.(listed := Left(l.listed, rule), worker := l.worker + Taken(l.listed, rule))
  }

  function Processed(l: Ledger, now: int, flush: bool): Ledger {
    Applied(l, Pass(l.due, now, flush)).(processed := now, retired := now)
  }

  /** The books after the code has looked at the register that shows `now`. */
  function Passed(l: Ledger, now: int, flush: bool): Ledger {
    if !flush && Ts32Ge(Wrap32(l.processed), Wrap32(now)) then l.(retired := now)
    else Applied(l, Scan(Wrap32(now), flush)).(processed := now, retired := now)
  }

  /** Moving events from the list to the worker keeps each in one place. */
  lemma MoveConserves(l: Ledger, left: seq<Event>, hs: seq<Handed>, processed: int, retired: int)
    requires Conserved(l) && multiset(l.listed) == multiset(left) + multiset(Events(hs))
    ensures Conserved(l.(listed := left, worker := l.worker + hs, processed := processed, retired := retired))
  {
    EventsAppend(l.worker, hs);
  }

  lemma TruthfulAppend(l: Ledger, hs: seq<Handed>, now: int)
    requires Truthful(l) && l.retired <= now
    requires forall h <- hs :: h.event.id < |l.due| && (h.verdict == Reached ==> l.due[h.event.id] <= now)
    ensures forall h <- (l.worker + hs) + l.ran ::
              h.event.id < |l.due| && (h.verdict == Reached ==> l.due[h.event.id] <= now)
  {
    forall h | h in (l.worker + hs) + l.ran
      ensures h.event.id < |l.due| && (h.verdict == Reached ==> l.due[h.event.id] <= now)
    {
      assert h in l.worker + l.ran || h in hs;
    }
  }

  /** A pass keeps the books however late it comes: no event is lost, handed over twice, or
      reported as reached before its time. */
  lemma PassKeepsOrderly(l: Ledger, now: int, flush: bool)
    requires Orderly(l) && l.retired <= now
    ensures Orderly(Passed(l, now, flush))
    ensures flush ==> Passed(l, now, flush).listed == []
  {
    hide Conserved, Wrap32, Taken, Left, Events, Ts32Ge;
    if flush || !Ts32Ge(Wrap32(l.processed), Wrap32(now)) {
      var rule := Scan(Wrap32(now), flush);
      var hs, left := Taken(l.listed, rule), Left(l.listed, rule);
      SplitIsExact(l.listed, rule);
      SplitIsRight(l.listed, rule);
      MoveConserves(l, left, hs, now, now);
      forall h | h in hs ensures h.event.id < |l.due| && (h.verdict == Reached ==> l.due[h.event.id] <= now) {
        TestPicksExactly(l, now, h.event);
      }
      TruthfulAppend(l, hs, now);
      assert left != [] ==> left[0] in left;
    } else {
      SameBooks(l, now);
    }
  }

  lemma SameBooks(l: Ledger, now: int)
    requires Conserved(l)
    ensures Conserved(l.(retired := now))
  {
  }

  /** Every event whose time has come has been handed over. */
  ghost predicate CaughtUp(l: Ledger) {
    Timed(l.listed, l.due) && forall e <- l.listed :: l.due[e.id] > l.retired
  }

  /** A pass catches up exactly if it takes the early exit with nothing to do, or flushes, or
      no listed event came an odd number of half turns ago. */
  lemma PassCatchesUpExactly(l: Ledger, now: int, flush: bool)
    requires Orderly(l) && l.retired <= now
    ensures CaughtUp(Passed(l, now, flush)) <==>
              if !flush && Ts32Ge(Wrap32(l.processed), Wrap32(now)) then forall e <- l.listed :: l.due[e.id] > now
              else flush || forall e <- l.listed :: l.due[e.id] <= now ==> (now - l.due[e.id]) / TWO31 % 2 == 0
  {
    PassKeepsOrderly(l, now, flush);
    if !flush && !Ts32Ge(Wrap32(l.processed), Wrap32(now)) {
      hide Conserved, Wrap32, Taken, Left, Events, Ts32Ge;
      var rule := Scan(Wrap32(now), flush);
      SplitIsRight(l.listed, rule);
      LeftExactly(l.listed, rule);
      forall e | e in l.listed
        ensures e in Left(l.listed, rule) <==> l.due[e.id] > now || (now - l.due[e.id]) / TWO31 % 2 == 1
      {
        TestPicksExactly(l, now, e);
      }
    }
  }

  lemma {:induction false} LeftExactly(es: seq<Event>, rule: Rule)
    ensures forall e <- es :: e in Left(es, rule) <==> VerdictOn(e, rule).None?
  {
    hide VerdictOn;
    SplitIsRight(es, rule);
    if es != [] {
      LeftExactly(es[1..], rule);
    }
  }

  /** An event that came half a turn before the pass is missed. */
  lemma LatePassMisses()
    ensures var e := Event(0, 1, 0, 0);
            var l := Ledger([e], [1], [e], [], [], 0, 0);
            Sound(l) && !CaughtUp(Passed(l, 1 + TWO31, false))
  {
    var e := Event(0, 1, 0, 0);
    var l := Ledger([e], [1], [e], [], [], 0, 0);
    assert Events([]) == [];
    assert e in l.listed;
    PassCatchesUpExactly(l, 1 + TWO31, false);
  }

  /** With less than half a turn retired since the watermark the pass is that of a full scan in
      unbounded time: it leaves no reached event listed and misses none. */
  lemma PassKeepsSound(l: Ledger, now: int, flush: bool)
    requires Sound(l) && l.retired <= now < l.processed + TWO31
    ensures Passed(l, now, flush) == Processed(l, now, flush)
    ensures Sound(Processed(l, now, flush)) && CaughtUp(Processed(l, now, flush))
  {
    hide Conserved, Wrap32, Taken, Left, Events, Ts32Ge;
    EarlyExitIsRight(l, now);
    PassKeepsOrderly(l, now, flush);
    forall e | e in l.listed ensures VerdictOn(e, Scan(Wrap32(now), flush)) == VerdictOn(e, Pass(l.due, now, flush)) {
      TestIsRight(l, now, flush, e);
    }
    SameVerdicts(l.listed, Scan(Wrap32(now), flush), Pass(l.due, now, flush));
    SplitIsRight(l.listed, Pass(l.due, now, flush));
    assert l.worker + [] == l.worker;
  }

  function WithCancelled(l: Ledger, left: seq<Event>, hs: seq<Handed>): Ledger {
    l.(listed := left, worker := l.worker + hs)
  }

  /** Taking events off the list as cancelled keeps the books. */
  lemma CancelKeepsSound(l: Ledger, left: seq<Event>, hs: seq<Handed>)
    requires Orderly(l) && multiset(l.listed) == multiset(left) + multiset(Events(hs))
    requires forall h <- hs :: h.event in l.listed && h.verdict == Cancelled
    ensures Orderly(WithCancelled(l, left, hs))
    ensures NoneMissed(l) ==> NoneMissed(WithCancelled(l, left, hs))
  {
    MoveConserves(l, left, hs, l.processed, l.retired);
    forall e | e in left
      ensures e in l.listed
    {
      assert e in multiset(left);
      assert e in multiset(l.listed);
    }
    TruthfulAppend(l, hs, l.retired);
  }

  lemma ScanVerdict(e: Event, retired: u32, flush: bool)
    ensures VerdictOn(e, Scan(retired, flush)) ==
            if Ts32Ge(retired, e.timestamp) then Some(Reached) else if flush then Some(Cancelled) else None
  {
  }

  lemma CancelVerdict(e: Event, ts: u32)
    ensures VerdictOn(e, Cancelling(ts)) == if e.timestamp == ts then Some(Cancelled) else None
  {
  }

  lemma CancelTimestampKeepsSound(l: Ledger, ts: u32)
    requires Orderly(l)
    ensures Orderly(Applied(l, Cancelling(ts)))
    ensures NoneMissed(l) ==> NoneMissed(Applied(l, Cancelling(ts)))
    ensures forall e <- Applied(l, Cancelling(ts)).listed :: e.timestamp != ts
  {
    SplitIsExact(l.listed, Cancelling(ts));
    SplitIsRight(l.listed, Cancelling(ts));
    CancelKeepsSound(l, Left(l.listed, Cancelling(ts)), Taken(l.listed, Cancelling(ts)));
  }

  /** Accepting an event at time `now`: at once to the worker if reached, else to the list. */
  function WithEvent(l: Ledger, e: Event, now: int): Ledger {
    var d := l.(accepted := l.accepted + [e], due := l.due + [Meant(now, e.timestamp)], retired := now);
    if Meant(now, e.timestamp) <= now then d.(worker := l.worker + [Handed(e, Reached)])
    else d.(listed := l.listed + [e])
  }

  lemma AddConserves(l: Ledger, e: Event, now: int)
    requires Conserved(l)
    ensures Conserved(WithEvent(l, e, now))
  {
    hide Meant;
    EventsAppend(l.worker, [Handed(e, Reached)]);
    assert Events([Handed(e, Reached)]) == [e];
  }

  lemma AddKeepsSound(l: Ledger, e: Event, now: int)
    requires Orderly(l) && l.retired <= now && e.id == |l.accepted|
    ensures Orderly(WithEvent(l, e, now))
    ensures var d, time := WithEvent(l, e, now), Meant(now, e.timestamp);
            && d.accepted == l.accepted + [e] && d.due == l.due + [time]
            && (time <= now ==> d.worker == l.worker + [Handed(e, Reached)] && d.listed == l.listed)
            && (time > now ==> d.listed == l.listed + [e] && d.worker == l.worker)
    ensures NoneMissed(l) ==> NoneMissed(WithEvent(l, e, now))
  {
    hide Meant, Wrap32, Ts32Ge, Conserved, Events;
    MeantBasics(now, e.timestamp);
    var d := WithEvent(l, e, now);
    AddConserves(l, e, now);
    assert Timed(d.listed, d.due) by {
      forall x | x in d.listed ensures x.id < |d.due| && x.timestamp == Wrap32(d.due[x.id]) {
        assert x in l.listed || x == e;
      }
    }
    forall h | h in d.worker + d.ran
      ensures h.event.id < |d.due| && (h.verdict == Reached ==> d.due[h.event.id] <= d.retired)
    {
      assert h in l.worker + l.ran || h == Handed(e, Reached);
    }
  }

  lemma RunKeepsSound(l: Ledger)
    requires Orderly(l) && l.worker != []
    ensures Orderly(l.(worker := l.worker[1..], ran := l.ran + [l.worker[0]]))
    ensures NoneMissed(l) ==> NoneMissed(l.(worker := l.worker[1..], ran := l.ran + [l.worker[0]]))
  {
    EventsAppend(l.ran, [l.worker[0]]);
    assert Events([l.worker[0]]) == [l.worker[0].event];
    assert Events(l.worker) == [l.worker[0].event] + Events(l.worker[1..]);
    var d := l.(worker := l.worker[1..], ran := l.ran + [l.worker[0]]);
    forall h | h in d.worker + d.ran ensures h in l.worker + l.ran {
    }
  }

  /** What the test at the door does for contexts without timestamps of their own: it lets
      an event in exactly if its time lies before the last queued one. A timestamp that has
      just been queued is turned away although it has been queued. */
  lemma DoorAdmitsOnlyEarlier(queued: int, time: int)
    requires -TWO31 <= time - queued < TWO31
    ensures Ts32Ge(Wrap32(time), Wrap32(queued)) <==> time >= queued
    ensures Ts32Ge(Wrap32(queued), Wrap32(queued))
  {
    Ts32GeAgreesWithOrder(time, queued);
    Ts32GeAgreesWithOrder(queued, queued);
  }

  /** What a scan must do: an event whose timestamp the register has reached is handed over
      as reached; of the others none is, unless on a flush, then all as cancelled. */
  ghost predicate ScannedRightly(es: seq<Event>, left: seq<Event>, taken: seq<Handed>, retired: u32, flush: bool) {
    && multiset(es) == multiset(left) + multiset(Events(taken))
    && (forall h <- taken :: h.event in es && (h.verdict == Reached <==> Ts32Ge(retired, h.event.timestamp)))
    && (forall e <- left :: e in es && !Ts32Ge(retired, e.timestamp) && !flush)
    && (!flush ==> forall h <- taken :: h.verdict == Reached)
  }

  lemma ScanIsRight(es: seq<Event>, retired: u32, flush: bool)
    ensures ScannedRightly(es, Left(es, Scan(retired, flush)), Taken(es, Scan(retired, flush)), retired, flush)
  {
    hide Ts32Ge, Taken, Left, Events;
    SplitIsExact(es, Scan(retired, flush));
    SplitIsRight(es, Scan(retired, flush));
  }

  lemma ScanLength(es: seq<Event>, rule: Rule)
    ensures |es| == |Left(es, rule)| + |Taken(es, rule)|
  {
    SplitIsExact(es, rule);
  }

  lemma CancellingIsRight(es: seq<Event>, ts: u32)
    ensures var left, taken := Left(es, Cancelling(ts)), Taken(es, Cancelling(ts));
            && multiset(es) == multiset(left) + multiset(Events(taken))
            && (forall h <- taken :: h.event in es && h.event.timestamp == ts && h.verdict == Cancelled)
            && (forall e <- left :: e in es && e.timestamp != ts)
  {
    hide Taken, Left, Events;
    SplitIsExact(es, Cancelling(ts));
    SplitIsRight(es, Cancelling(ts));
  }

  // ---- the group ----

  class Group {
    var events: seq<Event>
    var worker: seq<Handed>
    var processed: u32
    /** References to the context held by events. */
    var refs: nat
    var next: nat
    ghost var accepted: seq<Event>
    ghost var due: seq<int>
    ghost var ran: seq<Handed>
    ghost var processedTime: int
    ghost var retiredTime: int

    ghost function Books(): Ledger
      reads this
    {
      Ledger(accepted, due, events, worker, ran, processedTime, retiredTime)
    }

    ghost predicate Valid()
      reads this
    {
      && Orderly(Books())
      && processed == Wrap32(processedTime)
      && next == |accepted|
      && refs == |events| + |worker|
    }

    constructor ()
      ensures Valid() && Books() == Ledger([], [], [], [], [], 0, 0)
    {
      events, worker, processed, refs, next := [], [], 0, 0, 0;
      accepted, due, ran, processedTime, retiredTime := [], [], [], 0, 0;
    }

    /** `signal_event`: off the list, verdict set, onto the worker. */
    method Signal(i: nat, verdict: Verdict)
      requires i < |events|
      modifies this`events, this`worker
      ensures events == old(events)[..i] + old(events)[i + 1..]
      ensures worker == old(worker) + [Handed(old(events)[i], verdict)]
    {
      var e := events[i];
      events := events[..i] + events[i + 1..];
      worker := worker + [Handed(e, verdict)];
    }

    /** One turn of a scan: the event at `i` is signalled, or stays and `i` moves on. */
    method Visit(i: nat, verdict: Option<Verdict>) returns (j: nat)
      requires i < |events|
      modifies this`events, this`worker
      ensures i <= j <= |events| && |events| - j == |old(events)| - i - 1
      ensures events[j..] == old(events)[i..][1..]
      ensures events[..j] == old(events)[..i] + if verdict.Some? then [] else [old(events)[i]]
      ensures worker == old(worker) + if verdict.Some? then [Handed(old(events)[i], verdict.value)] else []
    {
      j := i;
      if verdict.Some? {
        Signal(i, verdict.value);
      } else {
        j := i + 1;
      }
    }

    /** `hgsl_add_event`. The flags say whether the caller makes its own timestamps, whether
        there is a callback, memory and a live context. */
    method Add(ts: u32, func: nat, priv: nat, hasFunc: bool, userGenerated: bool, queued: u32,
               memory: bool, alive: bool, retired: u32, ghost now: int) returns (r: Outcome)
      requires Valid() && retired == Wrap32(now) && retiredTime <= now
      modifies this
      ensures Valid()
      ensures r == if !hasFunc || (!userGenerated && Ts32Ge(ts, queued)) then Invalid
                   else if !memory then NoMemory else if !alive then NoContext else Accepted
      ensures Books() == if r == Accepted then WithEvent(old(Books()), Event(old(next), ts, func, priv), now)
                         else old(Books())
      ensures refs == old(refs) + if r == Accepted then 1 else 0
      ensures r == Accepted && Ts32Ge(retired, ts) ==>
                worker == old(worker) + [Handed(Event(old(next), ts, func, priv), Reached)] && events == old(events)
      ensures r == Accepted && !Ts32Ge(retired, ts) ==>
                events == old(events) + [Event(old(next), ts, func, priv)] && worker == old(worker)
      ensures r != Accepted ==> events == old(events) && worker == old(worker)
    {
      hide Orderly, Ts32Ge, Meant, Wrap32;
      if !hasFunc {
        return Invalid;
      }
      if !userGenerated && Ts32Ge(ts, queued) {
        return Invalid;
      }
      if !memory {
        return NoMemory;
      }
      if !alive {
        return NoContext;
      }
      var e := Event(next, ts, func, priv);
      AddKeepsSound(Books(), e, now);
      MeantBasics(now, ts);
      refs, next := refs + 1, next + 1;
      accepted, due, retiredTime := accepted + [e], due + [Meant(now, ts)], now;
      if Ts32Ge(retired, ts) {
        worker := worker + [Handed(e, Reached)];
      } else {
        events := events + [e];
      }
      r := Accepted;
    }

    /** The loop of `_process_event_group`. */
    method ScanList(retired: u32, flush: bool)
      modifies this`events, this`worker
      ensures events == Left(old(events), Scan(retired, flush))
      ensures worker == old(worker) + Taken(old(events), Scan(retired, flush))
      ensures ScannedRightly(old(events), events, worker[|old(worker)|..], retired, flush)
    {
      hide VerdictOn, Ts32Ge, Taken, Left;
      ghost var listed, rule := events, Scan(retired, flush);
      var i: nat := 0;
      ghost var k := 0;
      SplitOfNone(rule);
      while i < |events|
        invariant 0 <= k <= |listed| && i <= |events|
        invariant |events| - i == |listed| - k
        invariant events[..i] == Left(listed[..k], rule)
        invariant events[i..] == listed[k..]
        invariant worker == old(worker) + Taken(listed[..k], rule)
        decreases |listed| - k
      {
        var e := events[i];
        assert e == events[i..][0] == listed[k];
        SplitNext(listed, k, rule);
        ScanVerdict(e, retired, flush);
        i := Visit(i, if Ts32Ge(retired, e.timestamp) then Some(Reached) else if flush then Some(Cancelled) else None);
        assert listed[k..][1..] == listed[k + 1..];
        k := k + 1;
      }
      assert listed[..k] == listed && events[..i] == events;
      ScanIsRight(listed, retired, flush);
      assert worker[|old(worker)|..] == Taken(listed, rule);
    }

    /** `_process_event_group`. The books are kept however late the pass comes; if less than
        half a turn has retired since the last one and none was missed before, they are those
        of a full scan in unbounded time, whether the code scans or exits early. */
    method Process(retired: u32, ghost now: int, flush: bool)
      requires Valid() && retired == Wrap32(now) && retiredTime <= now
      modifies this`events, this`worker, this`processed, this`processedTime, this`retiredTime
      ensures Valid()
      ensures Books() == Passed(old(Books()), now, flush)
      ensures old(Sound(Books())) && now < old(processedTime) + TWO31 ==>
                Books() == Processed(old(Books()), now, flush) && Sound(Books()) && CaughtUp(Books())
      ensures flush ==> events == []
      ensures if !flush && Ts32Ge(old(processed), retired) then
                processed == old(processed) && events == old(events) && worker == old(worker)
              else
                && processed == retired && old(worker) <= worker
                && ScannedRightly(old(events), events, worker[|old(worker)|..], retired, flush)
    {
      hide Orderly, Sound, CaughtUp, Ts32Ge, Wrap32, Taken, Left, Events, ScannedRightly, Processed;
      ghost var l := Books();
      PassKeepsOrderly(l, now, flush);
      if Sound(l) && now < l.processed + TWO31 {
        PassKeepsSound(l, now, flush);
      }
      ScanLength(l.listed, Scan(retired, flush));
      if flush || !Ts32Ge(processed, retired) {
        ScanList(retired, flush);
        processed := retired;
        processedTime := now;
      }
      retiredTime := now;
    }

    /** `hgsl_cancel_events_timestamp` */
    method CancelTimestamp(ts: u32)
      requires Valid()
      modifies this`events, this`worker
      ensures Valid()
      ensures Books() == Applied(old(Books()), Cancelling(ts))
      ensures forall e <- events :: e in old(events) && e.timestamp != ts
      ensures old(worker) <= worker
      ensures multiset(old(events)) == multiset(events) + multiset(Events(worker[|old(worker)|..]))
      ensures forall h <- worker[|old(worker)|..] :: h.event.timestamp == ts && h.verdict == Cancelled
    {
      hide Orderly, Wrap32, Taken, Left, VerdictOn;
      ghost var l, rule := Books(), Cancelling(ts);
      CancelTimestampKeepsSound(l, ts);
      SplitIsExact(l.listed, rule);
      var i: nat := 0;
      ghost var k := 0;
      SplitOfNone(rule);
      while i < |events|
        invariant 0 <= k <= |l.listed| && i <= |events|
        invariant |events| - i == |l.listed| - k
        invariant events[..i] == Left(l.listed[..k], rule)
        invariant events[i..] == l.listed[k..]
        invariant worker == l.worker + Taken(l.listed[..k], rule)
        decreases |l.listed| - k
      {
        var e := events[i];
        assert e == events[i..][0] == l.listed[k];
        SplitNext(l.listed, k, rule);
        CancelVerdict(e, ts);
        i := Visit(i, if ts == e.timestamp then Some(Cancelled) else None);
        assert l.listed[k..][1..] == l.listed[k + 1..];
        k := k + 1;
      }
      assert l.listed[..k] == l.listed && events[..i] == events;
      CancellingIsRight(l.listed, ts);
      assert worker[|l.worker|..] == Taken(l.listed, rule);
    }

    /** `hgsl_cancel_event`: the first event that matches in all three respects. */
    method Cancel(ts: u32, func: nat, priv: nat) returns (ghost at: nat)
      requires Valid()
      modifies this`events, this`worker
      ensures Valid()
      ensures at <= |old(events)| && forall j :: 0 <= j < at ==> !Matches(old(events)[j], ts, func, priv)
      ensures at == |old(events)| ==> Books() == old(Books())
      ensures at < |old(events)| ==>
                && Matches(old(events)[at], ts, func, priv)
                && Books() == WithCancelled(old(Books()), old(events)[..at] + old(events)[at + 1..],
                                            [Handed(old(events)[at], Cancelled)])
                && events == old(events)[..at] + old(events)[at + 1..]
                && worker == old(worker) + [Handed(old(events)[at], Cancelled)]
    {
      hide Orderly, Wrap32;
      ghost var l := Books();
      var i := 0;
      while i < |events|
        invariant 0 <= i <= |events| && Books() == l
        invariant forall j :: 0 <= j < i ==> !Matches(events[j], ts, func, priv)
      {
        if Matches(events[i], ts, func, priv) {
          CancelOneKeepsSound(l, i);
          Signal(i, Cancelled);
          return i;
        }
        i := i + 1;
      }
      return i;
    }

    /** `_hgsl_event_worker`: the callback runs, then the context reference goes. */
    method RunWorker()
      requires Valid() && worker != []
      modifies this`worker, this`ran, this`refs
      ensures Valid() && refs == old(refs) - 1
      ensures Books() == old(Books()).(worker := old(worker)[1..], ran := old(ran) + [old(worker)[0]])
    {
      hide Orderly, Wrap32;
      RunKeepsSound(Books());
      var h := worker[0];
      worker := worker[1..];
      ran := ran + [h];
      refs := refs - 1;
    }
  }

  lemma CancelOneKeepsSound(l: Ledger, i: nat)
    requires Orderly(l) && i < |l.listed|
    ensures Orderly(WithCancelled(l, l.listed[..i] + l.listed[i + 1..], [Handed(l.listed[i], Cancelled)]))
    ensures NoneMissed(l) ==>
              NoneMissed(WithCancelled(l, l.listed[..i] + l.listed[i + 1..], [Handed(l.listed[i], Cancelled)]))
  {
    var e, left := l.listed[i], l.listed[..i] + l.listed[i + 1..];
    assert l.listed == l.listed[..i] + [e] + l.listed[i + 1..];
    assert Events([Handed(e, Cancelled)]) == [e];
    assert multiset(l.listed) == multiset(left) + multiset([e]);
    CancelKeepsSound(l, left, [Handed(e, Cancelled)]);
  }
}
