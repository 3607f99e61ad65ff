/** Timelines of fences (hgsl_sync.c): a timeline has a last timestamp that only moves
    forward, and lists the fences whose point it has not reached. Timestamps are 64-bit
    registers compared over 32 or 64 bits; behind them stand unbounded times, and no
    assumption is made on how far apart these are over a run. Each operation is one step. */
module Isync {
  import opened Timestamps
  import opened Units

  datatype Fence = Fence(id: nat, ts: u64)

  /** The bits of the register `r` that comparisons see are those of time `t`. */
  predicate Shows(r: u64, t: int, is64: bool) {
    if is64 then r == Wrap64(t) else Wrap32(r) == Wrap32(t)
  }

  /** How far `to` is ahead of `from`, going forward. */
  function Ahead(from: u64, to: u64, is64: bool): int {
    if is64 then Wrap64(to - from) else Wrap32(to - from)
  }

  /** The comparison of registers is that of times less than half a turn apart. */
  lemma TsGeAgrees(a: u64, b: u64, s: int, t: int, is64: bool)
    requires Shows(a, s, is64) && Shows(b, t, is64) && -Half(is64) <= s - t < Half(is64)
    ensures TsGe(a, b, is64) <==> s >= t
  {
    if is64 {
      Ts64GeAgreesWithOrder(s, t);
    } else {
      Ts32GeAgreesWithOrder(s, t);
    }
  }

  /** A register that is not reached lies ahead by up to half a turn. */
  lemma AheadIsShown(a: u64, b: u64, s: int, is64: bool)
    requires Shows(a, s, is64)
    ensures Shows(b, s + Ahead(a, b, is64), is64)
    ensures Ahead(a, b, is64) >= 0
    ensures TsGe(a, b, is64) <==> Ahead(a, b, is64) == 0 || Ahead(a, b, is64) > Half(is64)
  {
    if is64 {
      WrapAdd64(s, b - a);
    } else {
      WrapAdd32(s, b - a, a, b);
    }
  }

  lemma WrapAdd64(s: int, d: int)
    ensures Wrap64(s + Wrap64(d)) == Wrap64(Wrap64(s) + d)
  {
    var p, q := s / TWO64, d / TWO64;
    assert s == p * TWO64 + Wrap64(s) && d == q * TWO64 + Wrap64(d);
    assert Wrap64(s) + d == s + Wrap64(d) + (q - p) * TWO64;
  }

  lemma WrapAdd32(s: int, d: int, a: u64, b: u64)
    requires Wrap32(a) == Wrap32(s) && d == b - a
    ensures Wrap32(s + Wrap32(d)) == Wrap32(b)
    ensures Ts32Ge(Wrap32(a), Wrap32(b)) <==> Wrap32(d) == 0 || Wrap32(d) > TWO31
  {
    WrapSum32(s, d, a);
    WrapDifference32(a, b);
  }

  lemma WrapSum32(s: int, d: int, a: int)
    requires Wrap32(a) == Wrap32(s)
    ensures Wrap32(s + Wrap32(d)) == Wrap32(a + d)
  {
    var p, q, r := s / TWO32, d / TWO32, a / TWO32;
    assert s == p * TWO32 + Wrap32(s) && d == q * TWO32 + Wrap32(d) && a == r * TWO32 + Wrap32(a);
    assert s + Wrap32(d) == a + d + (p - q - r) * TWO32;
    WholeTurns32(a + d, p - q - r);
  }

  lemma WholeTurns32(x: int, k: int)
    ensures Wrap32(x + k * TWO32) == Wrap32(x)
  {
  }

  // ---- the books ----

  datatype Line = Line(
    is64: bool,
    lastTs: u64,
    time: int,               // unbounded time behind lastTs
    points: seq<int>,        // unbounded points of all fences made, by id
    listed: seq<Fence>,
    signals: seq<nat>,       // ids, in the order of signalling
    forced: set<nat>,        // signalled by hand or when the timeline went away
    dropped: seq<nat>)       // released while still listed

  function Ids(fs: seq<Fence>): seq<nat> {
    if fs == [] then [] else [fs[0].id] + Ids(fs[1..])
  }

  /** Each fence made is in exactly one place: listed, signalled once, or released. */
  ghost predicate OneFate(l: Line) {
    forall id: nat :: multiset(Ids(l.listed))[id] + multiset(l.signals)[id] + multiset(l.dropped)[id]
                      == if id < |l.points| then 1 else 0
  }

  /** A listed fence has its point ahead of the timeline, by at most half a turn. */
  ghost predicate PointsAhead(l: Line) {
    forall f <- l.listed ::
      f.id < |l.points| && Shows(f.ts, l.points[f.id], l.is64) && l.time < l.points[f.id] <= l.time + Half(l.is64)
  }

  /** A fence is signalled only when its point is reached, or by force. */
  ghost predicate SignalsDue(l: Line) {
    forall id <- l.signals :: id < |l.points| && (l.points[id] <= l.time || id in l.forced)
  }

  ghost predicate Sound(l: Line) {
    Shows(l.lastTs, l.time, l.is64) && OneFate(l) && PointsAhead(l) && SignalsDue(l)
  }

  /** `hgsl_isync_has_signaled` */
  predicate HasSignaled(l: Line, ts: u64) { TsGe(l.lastTs, ts, l.is64) }

  /** A fence that nobody forced or released is signalled if and only if its point is
      reached; one that is not reads as not signalled whenever it is asked. */
  lemma SignalledIffReached(l: Line, id: nat)
    requires Sound(l) && id < |l.points| && id !in l.forced && id !in l.dropped
    ensures id in l.signals <==> l.points[id] <= l.time
    ensures multiset(l.signals)[id] <= 1
    ensures forall f <- l.listed :: !HasSignaled(l, f.ts)
  {
    if id !in l.signals {
      assert multiset(Ids(l.listed))[id] == 1;
      var f := WithId(l.listed, id);
    }
    forall f | f in l.listed ensures !HasSignaled(l, f.ts) {
      TsGeAgrees(l.lastTs, f.ts, l.time, l.points[f.id], l.is64);
    }
  }

  lemma {:induction false} WithId(fs: seq<Fence>, id: nat) returns (f: Fence)
    requires id in Ids(fs)
    ensures f in fs && f.id == id
  {
    if fs[0].id == id {
      f := fs[0];
    } else {
      f := WithId(fs[1..], id);
    }
  }

  lemma {:induction false} IdsAppend(a: seq<Fence>, b: seq<Fence>)
    ensures Ids(a + b) == Ids(a) + Ids(b)
  {
    if a == [] {
      assert a + b == b;
    } else {
      IdsAppend(a[1..], b);
      assert (a + b)[1..] == a[1..] + b;
      assert [a[0].id] + (Ids(a[1..]) + Ids(b)) == [a[0].id] + Ids(a[1..]) + Ids(b);
    }
  }

  lemma {:induction false} IdsHave(fs: seq<Fence>, f: Fence)
    requires f in fs
    ensures f.id in Ids(fs)
  {
    if fs[0] != f {
      IdsHave(fs[1..], f);
    }
  }

  // ---- forwarding ----

  /** Fences reached at time `t`, last listed first: they are moved to the front of the
      list of fences to signal. */
  function Reached(fs: seq<Fence>, points: seq<int>, t: int): seq<Fence> {
    if fs == [] then []
    else if IsReached(fs[0], points, t) then Reached(fs[1..], points, t) + [fs[0]]
    else Reached(fs[1..], points, t)
  }

  function Waiting(fs: seq<Fence>, points: seq<int>, t: int): seq<Fence> {
    if fs == [] then []
    else if IsReached(fs[0], points, t) then Waiting(fs[1..], points, t)
    else [fs[0]] + Waiting(fs[1..], points, t)
  }

  predicate IsReached(f: Fence, points: seq<int>, t: int) { f.id < |points| && points[f.id] <= t }

  /** Every fence is in exactly one of the two. */
  lemma {:induction false} SplitIsExact(fs: seq<Fence>, points: seq<int>, t: int)
    ensures multiset(Ids(fs)) == multiset(Ids(Waiting(fs, points, t))) + multiset(Ids(Reached(fs, points, t)))
  {
    hide IsReached, Ids;
    if fs == [] {
      NoIds();
    } else {
      var f, rest := fs[0], fs[1..];
      SplitIsExact(rest, points, t);
      assert fs == [f] + rest;
      IdsHead(f, rest);
      if IsReached(f, points, t) {
        IdsLast(Reached(rest, points, t), f);
      } else {
        IdsHead(f, Waiting(rest, points, t));
      }
    }
  }

  lemma IdsLast(fs: seq<Fence>, f: Fence)
    ensures Ids(fs + [f]) == Ids(fs) + [f.id]
    ensures multiset(Ids(fs + [f])) == multiset{f.id} + multiset(Ids(fs))
  {
    IdsAppend(fs, [f]);
    OneId(f);
  }

  lemma IdsHead(f: Fence, fs: seq<Fence>)
    ensures Ids([f] + fs) == [f.id] + Ids(fs)
    ensures multiset(Ids([f] + fs)) == multiset{f.id} + multiset(Ids(fs))
  {
    assert ([f] + fs)[1..] == fs;
  }

  lemma {:induction false} SplitIsRight(fs: seq<Fence>, points: seq<int>, t: int)
    ensures forall f <- Waiting(fs, points, t) :: f in fs && !IsReached(f, points, t)
    ensures forall f <- Reached(fs, points, t) :: f in fs && IsReached(f, points, t)
  {
    hide IsReached;
    if fs != [] {
      SplitIsRight(fs[1..], points, t);
    }
  }

  lemma {:induction false} WaitingAppend(fs: seq<Fence>, f: Fence, points: seq<int>, t: int)
    ensures Waiting(fs + [f], points, t) == Waiting(fs, points, t) + (if IsReached(f, points, t) then [] else [f])
  {
    hide IsReached;
    if fs == [] {
      assert fs + [f] == [f];
    } else {
      var rest := fs[1..];
      WaitingAppend(rest, f, points, t);
      assert (fs + [f])[1..] == rest + [f];
      var tail := if IsReached(f, points, t) then [] else [f];
      assert [fs[0]] + (Waiting(rest, points, t) + tail) == [fs[0]] + Waiting(rest, points, t) + tail;
    }
  }

  lemma {:induction false} ReachedAppend(fs: seq<Fence>, f: Fence, points: seq<int>, t: int)
    ensures Reached(fs + [f], points, t) == (if IsReached(f, points, t) then [f] else []) + Reached(fs, points, t)
  {
    hide IsReached;
    if fs == [] {
      assert fs + [f] == [f];
    } else {
      var rest := fs[1..];
      ReachedAppend(rest, f, points, t);
      assert (fs + [f])[1..] == rest + [f];
      var head := if IsReached(f, points, t) then [f] else [];
      assert head + Reached(rest, points, t) + [fs[0]] == head + (Reached(rest, points, t) + [fs[0]]);
    }
  }

  /** The timeline after a call to forward it to `ts`. */
  function Forwarded(l: Line, ts: u64): Line {
    if TsGe(l.lastTs, ts, l.is64) then l
    else
      var t := l.time + Ahead(l.lastTs, ts, l.is64);
      l.(lastTs := ts, time := t, listed := Waiting(l.listed, l.points, t),
         signals := l.signals + Ids(Reached(l.listed, l.points, t)))
  }

  /** The test on the registers picks exactly the fences whose points are reached. */
  lemma TestIsRight(l: Line, ts: u64, f: Fence)
    requires Sound(l) && !TsGe(l.lastTs, ts, l.is64) && f in l.listed
    ensures TsGe(ts, f.ts, l.is64) <==> IsReached(f, l.points, l.time + Ahead(l.lastTs, ts, l.is64))
  {
    hide TsGe, Ahead, Shows;
    AheadIsShown(l.lastTs, ts, l.time, l.is64);
    TsGeAgrees(ts, f.ts, l.time + Ahead(l.lastTs, ts, l.is64), l.points[f.id], l.is64);
  }

  /** Forwarding never moves back, and moves exactly when the new timestamp is ahead by up
      to half a turn; it signals exactly the fences it reaches. */
  lemma ForwardKeepsSound(l: Line, ts: u64)
    requires Sound(l)
    ensures Sound(Forwarded(l, ts))
    ensures Forwarded(l, ts).time >= l.time
    ensures Forwarded(l, ts).time > l.time <==> !TsGe(l.lastTs, ts, l.is64)
    ensures !TsGe(l.lastTs, ts, l.is64) ==> Forwarded(l, ts).time <= l.time + Half(l.is64)
    ensures forall f <- l.listed ::
              f.id in Forwarded(l, ts).signals <==> l.points[f.id] <= Forwarded(l, ts).time
  {
    hide TsGe, Ahead, Shows, Waiting, Reached, OneFate, Ids;
    AheadIsShown(l.lastTs, ts, l.time, l.is64);
    var l' := Forwarded(l, ts);
    if !TsGe(l.lastTs, ts, l.is64) {
      SplitIsExact(l.listed, l.points, l'.time);
      SplitIsRight(l.listed, l.points, l'.time);
      MoveKeepsFates(l, l'.listed, Ids(Reached(l.listed, l.points, l'.time)), l');
      forall id | id in l'.signals ensures id < |l.points| && (l.points[id] <= l'.time || id in l.forced) {
        if id !in l.signals {
          var f := WithId(Reached(l.listed, l.points, l'.time), id);
        }
      }
    }
    forall f | f in l.listed ensures f.id in l'.signals <==> l.points[f.id] <= l'.time {
      ListedIsUnsignalled(l, f);
      if !TsGe(l.lastTs, ts, l.is64) {
        if l.points[f.id] <= l'.time {
          ReachedHas(l.listed, l.points, l'.time, f);
          IdsHave(Reached(l.listed, l.points, l'.time), f);
        }
        if f.id in Ids(Reached(l.listed, l.points, l'.time)) {
          var g := WithId(Reached(l.listed, l.points, l'.time), f.id);
        }
      }
    }
  }

  lemma {:induction false} ReachedHas(fs: seq<Fence>, points: seq<int>, t: int, f: Fence)
    requires f in fs && IsReached(f, points, t)
    ensures f in Reached(fs, points, t)
  {
    if fs[0] != f {
      ReachedHas(fs[1..], points, t, f);
    }
  }

  lemma ListedIsUnsignalled(l: Line, f: Fence)
    requires OneFate(l) && f in l.listed
    ensures f.id !in l.signals
  {
    IdsHave(l.listed, f);
    assert multiset(Ids(l.listed))[f.id] > 0;
  }

  /** Ids moved from the list to the signals keep one fate each. */
  lemma MoveKeepsFates(l: Line, left: seq<Fence>, ids: seq<nat>, l': Line)
    requires OneFate(l) && multiset(Ids(l.listed)) == multiset(Ids(left)) + multiset(ids)
    requires l'.listed == left && l'.signals == l.signals + ids && l'.dropped == l.dropped && l'.points == l.points
    ensures OneFate(l')
  {
  }

  // ---- fences ----

  /** Unbounded point of a fence created now. */
  function PointOf(l: Line, ts: u64): int {
    if TsGe(l.lastTs, ts, l.is64) then l.time - Ahead(ts, l.lastTs, l.is64) else l.time + Ahead(l.lastTs, ts, l.is64)
  }

  /** A new fence: signalled at once if its point is reached, else listed. */
  function WithFence(l: Line, ts: u64): Line {
    var id := |l.points|;
    var m := l.(points := l.points + [PointOf(l, ts)]);
    if TsGe(l.lastTs, ts, l.is64) then m.(signals := l.signals + [id]) else m.(listed := l.listed + [Fence(id, ts)])
  }

  lemma CreateKeepsSound(l: Line, ts: u64)
    requires Sound(l)
    ensures Sound(WithFence(l, ts))
    ensures |l.points| in WithFence(l, ts).signals <==> WithFence(l, ts).points[|l.points|] <= l.time
  {
    hide TsGe, Ahead, Shows, OneFate, Ids;
    var id, l' := |l.points|, WithFence(l, ts);
    AheadIsShown(l.lastTs, ts, l.time, l.is64);
    AheadIsPositive(ts, l.lastTs, l.is64);
    CreateKeepsFates(l, ts);
    forall f | f in l'.listed ensures
      f.id < |l'.points| && Shows(f.ts, l'.points[f.id], l.is64) && l.time < l'.points[f.id] <= l.time + Half(l.is64)
    {
      assert f in l.listed || f == Fence(id, ts);
    }
  }

  lemma CreateKeepsFates(l: Line, ts: u64)
    requires OneFate(l)
    ensures OneFate(WithFence(l, ts))
  {
    hide TsGe, PointOf, Ids;
    var id := |l.points|;
    IdsAppend(l.listed, [Fence(id, ts)]);
    OneId(Fence(id, ts));
  }

  lemma AheadIsPositive(a: u64, b: u64, is64: bool)
    ensures Ahead(a, b, is64) >= 0
  {
  }

  /** Taking the fence at place `i` off the list and signalling it whatever its point. */
  function Signalled(l: Line, i: nat): Line
    requires i < |l.listed|
  {
    l.(listed := l.listed[..i] + l.listed[i + 1..], signals := l.signals + [l.listed[i].id],
       forced := l.forced + {l.listed[i].id})
  }

  lemma IdsWithout(fs: seq<Fence>, i: nat)
    requires i < |fs|
    ensures multiset(Ids(fs)) == multiset(Ids(fs[..i] + fs[i + 1..])) + multiset([fs[i].id])
  {
    hide Ids;
    var a, f, b := fs[..i], fs[i], fs[i + 1..];
    assert fs == a + ([f] + b);
    IdsAppend(a, [f] + b);
    IdsHead(f, b);
    IdsAppend(a, b);
  }

  lemma SignalKeepsSound(l: Line, i: nat)
    requires Sound(l) && i < |l.listed|
    ensures Sound(Signalled(l, i))
  {
    hide Shows, Ids, OneFate;
    IdsWithout(l.listed, i);
    MoveKeepsFates(l, l.listed[..i] + l.listed[i + 1..], [l.listed[i].id], Signalled(l, i));
    assert l.listed[i] in l.listed;
  }

  /** The last reference to a listed fence goes: it leaves the list unsignalled. */
  function Released(l: Line, i: nat): Line
    requires i < |l.listed|
  {
    l.(listed := l.listed[..i] + l.listed[i + 1..], dropped := l.dropped + [l.listed[i].id])
  }

  lemma ReleaseKeepsSound(l: Line, i: nat)
    requires Sound(l) && i < |l.listed|
    ensures Sound(Released(l, i))
  {
    hide Shows, Ids;
    IdsWithout(l.listed, i);
  }

  // ---- runs ----

  datatype Request = Create(ts: u64) | Forward(ts: u64) | SignalAt(i: nat) | ReleaseAt(i: nat)

  function Apply(l: Line, q: Request): Line {
    match q
    case Create(ts) => WithFence(l, ts)
    case Forward(ts) => Forwarded(l, ts)
    case SignalAt(i) => if i < |l.listed| then Signalled(l, i) else l
    case ReleaseAt(i) => if i < |l.listed| then Released(l, i) else l
  }

  function ApplyAll(l: Line, qs: seq<Request>): Line {
    if qs == [] then l else Apply(ApplyAll(l, qs[..|qs| - 1]), qs[|qs| - 1])
  }

  /** Over any run of any length, the timeline's time never decreases, each fence made is
      listed, signalled once or released, and signals are never taken back. */
  lemma {:induction false} RunKeepsSound(l: Line, qs: seq<Request>)
    requires Sound(l)
    ensures Sound(ApplyAll(l, qs)) && ApplyAll(l, qs).time >= l.time
    ensures l.signals <= ApplyAll(l, qs).signals
  {
    if qs != [] {
      hide Sound, Forwarded, WithFence;
      var front := qs[..|qs| - 1];
      RunKeepsSound(l, front);
      var m := ApplyAll(l, front);
      match qs[|qs| - 1] {
        case Create(ts) => CreateKeepsSound(m, ts); CreateBasics(m, ts);
        case Forward(ts) => ForwardKeepsSound(m, ts); ForwardBasics(m, ts);
        case SignalAt(i) => if i < |m.listed| { SignalKeepsSound(m, i); }
        case ReleaseAt(i) => if i < |m.listed| { ReleaseKeepsSound(m, i); }
      }
    }
  }

  lemma CreateBasics(l: Line, ts: u64)
    ensures WithFence(l, ts).time == l.time && l.signals <= WithFence(l, ts).signals
  {
  }

  lemma ForwardBasics(l: Line, ts: u64)
    ensures l.signals <= Forwarded(l, ts).signals
  {
  }

  // ---- the timeline object ----

  class Timeline {
    const is64: bool
    var lastTs: u64
    var fenceList: seq<Fence>
    /** Ids signalled so far, in order. */
    var signals: seq<nat>
    var next: nat
    ghost var time: int
    ghost var points: seq<int>
    ghost var forced: set<nat>
    ghost var dropped: seq<nat>

    ghost function Books(): Line
      reads this
    {
      Line(is64, lastTs, time, points, fenceList, signals, forced, dropped)
    }

    ghost predicate Valid()
      reads this
    {
      Sound(Books()) && next == |points|
    }

    /** `hgsl_isync_timeline_create` */
    constructor (initialTs: u64, wide: bool)
      ensures Valid() && Books() == Line(wide, initialTs, initialTs, [], [], [], {}, [])
    {
      is64, lastTs, fenceList, signals, next := wide, initialTs, [], [], 0;
      time, points, forced, dropped := initialTs, [], {}, [];
    }

    method SignalFence(id: nat)
      modifies this`signals
      ensures signals == old(signals) + [id]
    {
      signals := signals + [id];
    }

    /** `hgsl_isync_fence_create`; without a valid timestamp the point is 1. */
    method CreateFence(ts: u64, tsIsValid: bool) returns (f: Fence)
      requires Valid()
      modifies this`fenceList, this`signals, this`next, this`points
      ensures Valid()
      ensures f == Fence(old(next), if tsIsValid then ts else 1)
      ensures Books() == WithFence(old(Books()), f.ts)
      ensures if TsGe(lastTs, f.ts, is64) then signals == old(signals) + [f.id] && fenceList == old(fenceList)
              else signals == old(signals) && fenceList == old(fenceList) + [f]
    {
      hide Sound, TsGe, PointOf;
      f := Fence(next, if tsIsValid then ts else 1);
      CreateKeepsSound(Books(), f.ts);
      points := points + [PointOf(Books(), f.ts)];
      next := next + 1;
      if TsGe(lastTs, f.ts, is64) {
        SignalFence(f.id);
      } else {
        fenceList := fenceList + [f];
      }
    }

    /** `hgsl_isync_forward` */
    method Forward(ts: u64)
      requires Valid()
      modifies this`lastTs, this`fenceList, this`signals, this`time
      ensures Valid() && time >= old(time)
      ensures Books() == Forwarded(old(Books()), ts)
      ensures lastTs == if TsGe(old(lastTs), ts, is64) then old(lastTs) else ts
    {
      hide Sound, TsGe, Ahead, Reached, Waiting, Ids;
      ghost var l := Books();
      ForwardKeepsSound(l, ts);
      if TsGe(lastTs, ts, is64) {
        return;
      }
      ghost var t := l.time + Ahead(l.lastTs, ts, is64);
      lastTs, time := ts, t;
      var flist: seq<Fence> := [];
      var i: nat := 0;
      ghost var k := 0;
      NoFences(points, t);
      while i < |fenceList|
        invariant 0 <= k <= |l.listed| && i <= |fenceList|
        invariant |fenceList| - i == |l.listed| - k
        invariant fenceList[..i] == Waiting(l.listed[..k], l.points, t)
        invariant fenceList[i..] == l.listed[k..]
        invariant lastTs == ts && time == t && signals == l.signals
        invariant flist == Reached(l.listed[..k], l.points, t)
        decreases |l.listed| - k
      {
        var cur := fenceList[i];
        assert cur == fenceList[i..][0] == l.listed[k];
        TestIsRight(l, ts, cur);
        assert l.listed[..k + 1] == l.listed[..k] + [cur];
        WaitingAppend(l.listed[..k], cur, l.points, t);
        ReachedAppend(l.listed[..k], cur, l.points, t);
        assert l.listed[k..][1..] == l.listed[k + 1..];
        i, flist := Move(i, flist, TsGe(ts, cur.ts, is64));
        k := k + 1;
      }
      assert l.listed[..k] == l.listed && fenceList[..i] == fenceList;
      SignalAll(flist);
    }

    /** One turn of the scan: a reached fence moves to the front of the fences to signal. */
    method Move(i: nat, flist: seq<Fence>, reached: bool) returns (j: nat, flist': seq<Fence>)
      requires i < |fenceList|
      modifies this`fenceList
      ensures i <= j <= |fenceList| && |fenceList| - j == |old(fenceList)| - i - 1
      ensures fenceList[j..] == old(fenceList)[i..][1..]
      ensures fenceList[..j] == old(fenceList)[..i] + if reached then [] else [old(fenceList)[i]]
      ensures flist' == (if reached then [old(fenceList)[i]] else []) + flist
    {
      j, flist' := i, flist;
      if reached {
        flist' := [fenceList[i]] + flist;
        fenceList := fenceList[..i] + fenceList[i + 1..];
      } else {
        j := i + 1;
      }
    }

    method SignalAll(flist: seq<Fence>)
      modifies this`signals
      ensures signals == old(signals) + Ids(flist)
    {
      hide Ids;
      var i := 0;
      NoIds();
      while i < |flist|
        invariant 0 <= i <= |flist| && signals == old(signals) + Ids(flist[..i])
      {
        SignalFence(flist[i].id);
        assert flist[..i + 1] == flist[..i] + [flist[i]];
        IdsAppend(flist[..i], [flist[i]]);
        OneId(flist[i]);
        i := i + 1;
      }
      assert flist[..i] == flist;
    }

    /** `_isync_timeline_signal`: a fence is signalled by hand only while it is listed. */
    method SignalByHand(id: nat) returns (found: bool, ghost at: nat)
      requires Valid()
      modifies this`fenceList, this`signals, this`forced
      ensures Valid()
      ensures found <==> exists f <- old(fenceList) :: f.id == id
      ensures found ==> at < |old(fenceList)| && old(fenceList)[at].id == id && Books() == Signalled(old(Books()), at)
      ensures !found ==> Books() == old(Books())
      ensures found ==> signals == old(signals) + [id]
                        && fenceList == old(fenceList)[..at] + old(fenceList)[at + 1..]
    {
      hide Sound;
      ghost var l := Books();
      var i: nat := 0;
      while i < |fenceList|
        invariant i <= |fenceList| && Books() == l
        invariant forall j :: 0 <= j < i ==> fenceList[j].id != id
      {
        if fenceList[i].id == id {
          SignalKeepsSound(l, i);
          assert fenceList[i] in fenceList;
          fenceList := fenceList[..i] + fenceList[i + 1..];
          SignalFence(id);
          forced := forced + {id};
          return true, i;
        }
        i := i + 1;
      }
      return false, i;
    }

    /** `hgsl_isync_query` */
    method Query() returns (ts: u64)
      requires Valid()
      ensures ts == lastTs && Shows(ts, time, is64)
    {
      ts := lastTs;
    }
  }

  lemma NoFences(points: seq<int>, t: int)
    ensures Waiting([], points, t) == [] && Reached([], points, t) == []
  {
  }

  lemma NoIds()
    ensures Ids([]) == []
  {
  }

  lemma OneId(f: Fence)
    ensures Ids([f]) == [f.id]
  {
  }
}
