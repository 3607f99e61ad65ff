/** The GPU virtual address allocator: a bump pointer (`va_hint`) in front of a first-fit
    search over a tree of live ranges (hgsl_iommu.c). Addresses are unbounded here: no sum
    near the end of the space wraps at 2^64. */
module AddressSpace {
  import opened IntervalTree
  import opened Units
  import opened Wrappers

  /** ALIGN(x, a) of the kernel. */
  function AlignUp(x: nat, a: nat): (r: nat)
    requires a > 0
    ensures x <= r < x + a && r % a == 0
  {
    var q := (x + a - 1) / a;
    assert q * a % a == 0 by { MultipleModulo(q, a); }
    q * a
  }

  lemma MultipleModulo(q: nat, a: nat)
    requires a > 0
    ensures q * a % a == 0
  {
    var x := q * a;
    var p, m := x / a, x % a;
    assert x == p * a + m;
    assert (q - p) * a == m;
    assert (p - q) * a == -m;
    DistinctMultiples(p, q, a);
  }

  lemma AtLeastOnce(k: nat, a: nat)
    requires k >= 1
    ensures k * a >= a
  {
    assert k * a == (k - 1) * a + a;
  }

  lemma MulMonotone(q: nat, p: nat, a: nat)
    requires q <= p
    ensures q * a <= p * a
  {
    assert p * a == q * a + (p - q) * a;
  }

  lemma DistinctMultiples(p: nat, q: nat, a: nat)
    ensures q > p ==> (q - p) * a >= a
    ensures q < p ==> (p - q) * a >= a
    ensures q <= p ==> q * a <= p * a
  {
    if q > p {
      AtLeastOnce(q - p, a);
    } else {
      MulMonotone(q, p, a);
      if q < p {
        AtLeastOnce(p - q, a);
      }
    }
  }

  lemma MultiplesApart(p: nat, q: nat, a: nat)
    requires p * a < q * a
    ensures p * a + a <= q * a
  {
    DistinctMultiples(p, q, a);
    assert q * a == p * a + (q - p) * a;
  }

  /** The aligned address is the least multiple not below `x`. */
  lemma AlignUpIsLeast(x: nat, a: nat, b: nat)
    requires a > 0 && x <= b && b % a == 0
    ensures AlignUp(x, a) <= b
  {
    var r := AlignUp(x, a);
    assert r == r / a * a && b == b / a * a;
    if b / a * a < r / a * a {
      MultiplesApart(b / a, r / a, a);
    }
  }

  // ---- the abstract state ----

  datatype Bounds = Bounds(start: nat, end: nat)

  /** What the page table remembers: the bump pointer and the live ranges by address. */
  datatype Space = Space(hint: nat, entries: seq<Entry>)

  /** Live ranges follow one another without overlap. */
  ghost predicate Apart(es: seq<Entry>) {
    && (forall e <- es :: e.size > 0)
    && (forall i, j :: 0 <= i < j < |es| ==> es[i].End() <= es[j].base)
  }

  ghost predicate Within(bd: Bounds, es: seq<Entry>) {
    forall e <- es :: bd.start <= e.base && e.End() <= bd.end
  }

  /** End of the highest live range. */
  function Top(start: nat, es: seq<Entry>): nat {
    if es == [] then start else es[|es| - 1].End()
  }

  /** `[b, b + size)` is aligned, in bounds and meets no live range. */
  ghost predicate Fits(es: seq<Entry>, b: nat, size: nat, align: nat, bottom: nat, top: nat)
    requires align > 0
  {
    && b % align == 0 && bottom <= b && b + size <= top
    && forall e <- es :: e.End() <= b || b + size <= e.base
  }

  ghost predicate FitsSomewhere(es: seq<Entry>, size: nat, align: nat, bd: Bounds)
    requires align > 0
  {
    exists b: nat :: Fits(es, b, size, align, bd.start, bd.end)
  }

  ghost predicate LowestFit(es: seq<Entry>, size: nat, align: nat, bottom: nat, top: nat, r: Option<nat>)
    requires align > 0
  {
    && (r.Some? ==> Fits(es, r.value, size, align, bottom, top))
    && (forall b :: Fits(es, b, size, align, bottom, top) ==> r.Some? && r.value <= b)
  }

  /** The bump pointer is consulted only if it is non-zero and the space is not 32-bit. */
  predicate HintUsable(hint: nat, top: nat) { hint != 0 && top >= TWO32 }

  /** Address taken from the bump pointer, if it is used and there is room above it. */
  function HintArea(hint: nat, top: nat, size: nat, align: nat): Option<nat>
    requires align > 0
  {
    if HintUsable(hint, top) && AlignUp(hint, align) + size <= top then Some(AlignUp(hint, align)) else None
  }

  /** While the bump pointer is in use it is the end of the highest live range. */
  ghost predicate Ok(bd: Bounds, s: Space) {
    && Apart(s.entries) && Within(bd, s.entries)
    && s.hint == if HintUsable(bd.start, bd.end) then Top(bd.start, s.entries) else bd.start
  }

  /** All that a next allocation needs to stay clear of the live ranges: the bump pointer, if
      in use, is not below the highest. */
  ghost predicate Safe(bd: Bounds, s: Space) {
    && Apart(s.entries) && Within(bd, s.entries)
    && if HintUsable(bd.start, bd.end) then s.hint >= Top(bd.start, s.entries) else s.hint == bd.start
  }

  // ---- the gap search ----

  /** The fallback search returns the lowest aligned address where the request fits, and
      nothing exactly when it fits nowhere; ranges straddling the lower bound or reaching
      the top included. */
  method SearchGap(es: seq<Entry>, size: nat, align: nat, lower: nat, top: nat) returns (r: Option<nat>)
    requires Apart(es) && size > 0 && align > 0
    ensures LowestFit(es, size, align, lower, top, r)
  {
    var bottom := AlignUp(lower, align);
    var start := bottom;
    var i: nat := 0;
    forall b: nat | Fits(es, b, size, align, lower, top)
      ensures bottom <= b
    {
      AlignUpIsLeast(lower, align, b);
    }
    while i < |es|
      invariant 0 <= i <= |es|
      invariant bottom <= start && start % align == 0
      invariant forall k :: 0 <= k < i ==> es[k].End() <= start
      invariant forall b :: Fits(es, b, size, align, lower, top) ==> start <= b
    {
      var e := es[i];
      if e.base < bottom {
        if e.End() > bottom {
          FitsAfter(es, e, size, align, lower, top, start);
          start := AlignUp(e.End(), align);
        }
        i := i + 1;
        continue;
      }
      if e.base >= top {
        break;
      }
      if start < e.base {
        var gap := e.base - start;
        if gap >= size {
          FitsBefore(es, i, start, size, align, lower, top);
          return Some(start);
        }
      }
      FitsAfter(es, e, size, align, lower, top, start);
      if e.End() >= top {
        return None;
      }
      start := AlignUp(e.End(), align);
      i := i + 1;
    }
    if start + size <= top {
      if i < |es| {
        FitsBefore(es, i, start, size, align, lower, top);
      }
      return Some(start);
    }
    return None;
  }

  lemma FitsBefore(es: seq<Entry>, i: nat, start: nat, size: nat, align: nat, lower: nat, top: nat)
    requires Apart(es) && i < |es| && align > 0 && start % align == 0 && lower <= start && start + size <= top
    requires forall k :: 0 <= k < i ==> es[k].End() <= start
    requires start + size <= es[i].base
    ensures Fits(es, start, size, align, lower, top)
  {
    forall e | e in es ensures e.End() <= start || start + size <= e.base {
      var k :| 0 <= k < |es| && es[k] == e;
      if k > i {
        assert es[i].End() <= es[k].base;
      }
    }
  }

  /** A request that cannot end before `e` starts must begin after `e` ends. */
  lemma FitsAfter(es: seq<Entry>, e: Entry, size: nat, align: nat, lower: nat, top: nat, start: nat)
    requires e in es && align > 0 && size > 0 && e.base < start + size
    requires forall b :: Fits(es, b, size, align, lower, top) ==> start <= b
    ensures forall b :: Fits(es, b, size, align, lower, top) ==> AlignUp(e.End(), align) <= b && e.End() < top
  {
    forall b: nat | Fits(es, b, size, align, lower, top) ensures AlignUp(e.End(), align) <= b && e.End() < top {
      AlignUpIsLeast(e.End(), align, b);
    }
  }

  // ---- allocating and freeing ----

  /** An allocation: the bump pointer if it can be used, else the lowest fit. The bump
      pointer has moved by the time the record of the range is made (`recorded`). */
  ghost predicate Allocated(bd: Bounds, s: Space, size: nat, align: nat, r: Option<nat>, recorded: bool, s': Space)
    requires align > 0
  {
    var area := HintArea(s.hint, bd.end, size, align);
    && (if area.Some? then r == area && s'.hint == r.value + size
        else LowestFit(s.entries, size, align, bd.start, bd.end, r) && s'.hint == s.hint)
    && (if r.Some? && recorded then Recorded(s.entries, Entry(r.value, size), s'.entries)
        else s'.entries == s.entries)
  }

  ghost predicate Recorded(es: seq<Entry>, e: Entry, es': seq<Entry>) {
    exists a, b :: Inserted(es, e, es', a, b)
  }

  /** Freeing `e`: a bump pointer resting on it falls back to the range before it. */
  ghost predicate Released(bd: Bounds, s: Space, a: seq<Entry>, e: Entry, b: seq<Entry>, s': Space) {
    && Between(s.entries, a, e, b)
    && s'.entries == a + b
    && s'.hint == if s.hint == e.End() then Max(Top(bd.start, a), bd.start) else s.hint
  }

  /** `e` lies between the ranges of `a` and those of `b`. */
  ghost predicate Clear(a: seq<Entry>, e: Entry, b: seq<Entry>) {
    && e.size > 0
    && (forall i :: 0 <= i < |a| ==> a[i].End() <= e.base)
    && (forall i :: 0 <= i < |b| ==> e.End() <= b[i].base)
  }

  function Skip(i: nat, n: nat): nat { if i < n then i else i + 1 }

  lemma WithAt(a: seq<Entry>, e: Entry, b: seq<Entry>, i: nat)
    requires i < |a + b|
    ensures (a + [e] + b)[Skip(i, |a|)] == (a + b)[i]
  {
  }

  lemma TakingOutKeepsApart(a: seq<Entry>, e: Entry, b: seq<Entry>)
    requires Apart(a + [e] + b)
    ensures Apart(a + b) && Clear(a, e, b)
  {
    var es, gs := a + [e] + b, a + b;
    assert es[|a|] == e;
    forall i | 0 <= i < |a| ensures a[i].End() <= e.base { assert es[i] == a[i]; }
    forall i | 0 <= i < |b| ensures e.End() <= b[i].base { assert es[|a| + 1 + i] == b[i]; }
    forall i, j | 0 <= i < j < |gs| ensures gs[i].End() <= gs[j].base {
      WithAt(a, e, b, i);
      WithAt(a, e, b, j);
      assert es[Skip(i, |a|)].End() <= es[Skip(j, |a|)].base;
    }
  }

  lemma PuttingInKeepsApart(a: seq<Entry>, e: Entry, b: seq<Entry>)
    requires Apart(a + b) && Clear(a, e, b)
    ensures Apart(a + [e] + b)
  {
    var es, gs := a + [e] + b, a + b;
    forall x | x in es ensures x.size > 0 { assert x == e || x in gs; }
    forall i, j | 0 <= i < j < |es| ensures es[i].End() <= es[j].base {
      if i == |a| {
        assert es[j] == b[j - |a| - 1];
      } else if j == |a| {
        assert es[i] == a[i];
      } else {
        var i', j' := if i < |a| then i else i - 1, if j < |a| then j else j - 1;
        WithAt(a, e, b, i');
        WithAt(a, e, b, j');
        assert gs[i'].End() <= gs[j'].base;
      }
    }
  }

  /** Every live range ends at or below the top. */
  lemma TopIsHighest(start: nat, es: seq<Entry>)
    requires Apart(es)
    ensures forall e <- es :: e.End() <= Top(start, es)
  {
    forall e | e in es ensures e.End() <= Top(start, es) {
      var i :| 0 <= i < |es| && es[i] == e;
      if i < |es| - 1 {
        assert es[i].End() <= es[|es| - 1].base;
      }
    }
  }

  /** The range above the bump pointer is free, and if nothing is free above it no fit lies
      above the highest range. */
  lemma HintIsFree(bd: Bounds, s: Space, size: nat, align: nat)
    requires Safe(bd, s) && align > 0 && size > 0
    requires HintUsable(s.hint, bd.end)
    ensures s.hint >= Top(bd.start, s.entries) >= bd.start && HintUsable(bd.start, bd.end)
    ensures AlignUp(s.hint, align) + size <= bd.end ==>
              Fits(s.entries, AlignUp(s.hint, align), size, align, bd.start, bd.end)
    ensures AlignUp(s.hint, align) + size > bd.end ==>
              forall b: nat :: Fits(s.entries, b, size, align, bd.start, bd.end) ==> b < s.hint
  {
    TopIsHighest(bd.start, s.entries);
    if s.entries != [] {
      assert s.entries[|s.entries| - 1] in s.entries;
    }
    forall b: nat | Fits(s.entries, b, size, align, bd.start, bd.end) && s.hint <= b
      ensures AlignUp(s.hint, align) + size <= bd.end
    {
      AlignUpIsLeast(s.hint, align, b);
    }
  }

  lemma OkIsSafe(bd: Bounds, s: Space)
    requires Ok(bd, s)
    ensures Safe(bd, s)
  {
  }

  /** An allocation succeeds exactly when the request fits somewhere, and then yields an
      aligned, free range inside the space. */
  lemma AllocationIsComplete(bd: Bounds, s: Space, size: nat, align: nat, r: Option<nat>, recorded: bool, s': Space)
    requires Safe(bd, s) && align > 0 && size > 0 && Allocated(bd, s, size, align, r, recorded, s')
    ensures r.None? <==> !FitsSomewhere(s.entries, size, align, bd)
    ensures r.Some? ==> Fits(s.entries, r.value, size, align, bd.start, bd.end)
  {
    hide Safe, Fits, Recorded;
    if HintUsable(s.hint, bd.end) {
      HintIsFree(bd, s, size, align);
    }
  }

  /** A free range has its place between the live ones. */
  lemma FreeRangeKeepsApart(es: seq<Entry>, e: Entry, es': seq<Entry>, bd: Bounds, align: nat)
    requires Apart(es) && align > 0 && e.size > 0 && Fits(es, e.base, e.size, align, bd.start, bd.end)
    requires Within(bd, es) && Recorded(es, e, es')
    ensures Apart(es') && Within(bd, es')
    ensures Top(bd.start, es') == Max(Top(bd.start, es), e.End())
  {
    var a: seq<Entry>, b: seq<Entry> :| Inserted(es, e, es', a, b);
    assert Clear(a, e, b) by {
      forall i | 0 <= i < |a| ensures a[i].End() <= e.base { assert a[i] in es; }
      forall i | 0 <= i < |b| ensures e.End() <= b[i].base { assert b[i] in es; }
    }
    PuttingInKeepsApart(a, e, b);
    TopIsHighest(bd.start, es');
    TopIsHighest(bd.start, es);
    TopOfParts(bd.start, a, e, b);
    assert e in es';
  }

  lemma TopOfParts(start: nat, a: seq<Entry>, e: Entry, b: seq<Entry>)
    ensures b == [] ==> Top(start, a + [e] + b) == e.End() && a + b == a
    ensures b != [] ==> Top(start, a + [e] + b) == Top(start, a + b) == b[|b| - 1].End() && b[|b| - 1] in b
  {
  }

  /** Live ranges stay disjoint and in bounds, and the bump pointer stays on the highest. */
  lemma AllocationKeepsOk(bd: Bounds, s: Space, size: nat, align: nat, r: Option<nat>, s': Space)
    requires Ok(bd, s) && align > 0 && size > 0 && Allocated(bd, s, size, align, r, true, s')
    ensures Ok(bd, s')
  {
    OkIsSafe(bd, s);
    AllocationIsComplete(bd, s, size, align, r, true, s');
    if r.Some? {
      FreeRangeKeepsApart(s.entries, Entry(r.value, size), s'.entries, bd, align);
      if HintUsable(s.hint, bd.end) {
        HintIsFree(bd, s, size, align);
        TopIsHighest(bd.start, s.entries);
        if HintArea(s.hint, bd.end, size, align).None? {
          BelowTop(bd, s.entries, r.value, size, align);
        }
      }
    }
  }

  /** A fit that starts below the highest end also ends below it. */
  lemma BelowTop(bd: Bounds, es: seq<Entry>, b: nat, size: nat, align: nat)
    requires Apart(es) && align > 0 && Fits(es, b, size, align, bd.start, bd.end) && b < Top(bd.start, es)
    ensures b + size <= Top(bd.start, es)
  {
    if es != [] {
      assert es[|es| - 1] in es;
    }
  }

  lemma ReleaseKeepsOk(bd: Bounds, s: Space, a: seq<Entry>, e: Entry, b: seq<Entry>, s': Space)
    requires Ok(bd, s) && Released(bd, s, a, e, b, s')
    ensures Ok(bd, s')
  {
    TakingOutKeepsApart(a, e, b);
    TopOfParts(bd.start, a, e, b);
    assert e in s.entries;
    forall x: Entry | x in a + b ensures x in s.entries {}
    if a != [] {
      assert a[|a| - 1] in s.entries;
    }
    if b != [] {
      assert e.End() <= b[|b| - 1].base && b[|b| - 1] in s.entries;
    }
  }

  /** Freeing the latest allocation restores both the live ranges and the bump pointer. */
  lemma ReleaseUndoesAllocation(bd: Bounds, s: Space, size: nat, align: nat, r: Option<nat>, s': Space,
                                a: seq<Entry>, b: seq<Entry>, s'': Space)
    requires Ok(bd, s) && align > 0 && size > 0 && Allocated(bd, s, size, align, r, true, s')
    requires r.Some? && Released(bd, s', a, Entry(r.value, size), b, s'')
    ensures s'' == s
  {
    AllocationKeepsOk(bd, s, size, align, r, s');
    ReleaseKeepsOk(bd, s', a, Entry(r.value, size), b, s'');
    var c, d :| Inserted(s.entries, Entry(r.value, size), s'.entries, c, d);
    CutIsUnique(a, b, c, d, Entry(r.value, size));
  }

  lemma CutIsUnique(a: seq<Entry>, b: seq<Entry>, c: seq<Entry>, d: seq<Entry>, e: Entry)
    requires a + [e] + b == c + [e] + d && Splits(a, e.base, b) && Splits(c, e.base, d)
    ensures a == c && b == d
  {
    var es := a + [e] + b;
    assert es[|a|] == e && es[|c|] == e;
    assert es == a + ([e] + b) == c + ([e] + d);
    InOnePart(c, [e] + d, |a|);
    InOnePart(a, [e] + b, |c|);
    assert a == es[..|a|] && b == es[|a| + 1..] && c == es[..|a|] && d == es[|a| + 1..];
  }

  // ---- runs ----

  datatype Request = Alloc(size: nat, align: nat, result: Option<nat>) | Free(entry: Entry)

  ghost predicate Step(bd: Bounds, s: Space, q: Request, s': Space) {
    match q
    case Alloc(size, align, r) => size > 0 && align > 0 && Allocated(bd, s, size, align, r, true, s')
    case Free(e) => exists a, b :: Released(bd, s, a, e, b, s')
  }

  ghost predicate Run(bd: Bounds, ss: seq<Space>, qs: seq<Request>) {
    && |ss| == |qs| + 1
    && ss[0] == Space(bd.start, [])
    && forall i :: 0 <= i < |qs| ==> Step(bd, ss[i], qs[i], ss[i + 1])
  }

  /** After any sequence of allocations and frees the live ranges are disjoint and in
      bounds, and while the bump pointer is in use it ends the highest of them. */
  lemma {:induction false} RunKeepsOk(bd: Bounds, ss: seq<Space>, qs: seq<Request>)
    requires Run(bd, ss, qs)
    ensures Ok(bd, ss[|qs|])
  {
    if qs != [] {
      var n := |qs| - 1;
      RunKeepsOk(bd, ss[..n + 1], qs[..n]);
      assert Step(bd, ss[n], qs[n], ss[n + 1]);
      match qs[n] {
        case Alloc(size, align, r) => AllocationKeepsOk(bd, ss[n], size, align, r, ss[n + 1]);
        case Free(e) =>
          var a, b :| Released(bd, ss[n], a, e, b, ss[n + 1]);
          ReleaseKeepsOk(bd, ss[n], a, e, b, ss[n + 1]);
      }
    }
  }

  predicate Grants(q: Request, e: Entry) {
    q.Alloc? && q.align > 0 && q.result == Some(e.base) && q.size == e.size && e.base % q.align == 0
  }

  /** Every live range is one that was asked for, of the size and alignment asked for. */
  lemma {:induction false} LiveRangesWereGranted(bd: Bounds, ss: seq<Space>, qs: seq<Request>, e: Entry)
    requires Run(bd, ss, qs) && e in ss[|qs|].entries
    ensures exists i :: 0 <= i < |qs| && Grants(qs[i], e)
  {
    if qs != [] {
      var n := |qs| - 1;
      RunKeepsOk(bd, ss[..n + 1], qs[..n]);
      assert Step(bd, ss[n], qs[n], ss[n + 1]);
      if e in ss[n].entries {
        LiveRangesWereGranted(bd, ss[..n + 1], qs[..n], e);
        var i :| 0 <= i < |qs[..n]| && Grants(qs[..n][i], e);
        assert Grants(qs[i], e);
      } else {
        NewRange(bd, ss[n], qs[n], ss[n + 1], e);
      }
    }
  }

  lemma FreeAddsNothing(bd: Bounds, s: Space, x: Entry, s': Space)
    requires Step(bd, s, Free(x), s')
    ensures forall e <- s'.entries :: e in s.entries
  {
    var a, b :| Released(bd, s, a, x, b, s');
    forall e | e in s'.entries ensures e in s.entries {
      assert e in a || e in b;
    }
  }

  lemma NewRange(bd: Bounds, s: Space, q: Request, s': Space, e: Entry)
    requires Ok(bd, s) && Step(bd, s, q, s') && e in s'.entries && e !in s.entries
    ensures Grants(q, e)
  {
    match q
    case Free(x) =>
      FreeAddsNothing(bd, s, x, s');
    case Alloc(size, align, r) =>
      OkIsSafe(bd, s);
      AllocationIsComplete(bd, s, size, align, r, true, s');
      if r.Some? {
        var a, b :| Inserted(s.entries, Entry(r.value, size), s'.entries, a, b);
        assert e in a + [Entry(r.value, size)] + b;
      }
  }

  // ---- when the record of a range cannot be made ----

  /** The bump pointer moves before the record is made: a failed record keeps the invariant
      exactly when the bump pointer was not the source of the address. */
  lemma FailedRecordKeepsOkExactly(bd: Bounds, s: Space, size: nat, align: nat, r: Option<nat>, s': Space)
    requires Ok(bd, s) && align > 0 && size > 0 && Allocated(bd, s, size, align, r, false, s')
    ensures Ok(bd, s') <==> HintArea(s.hint, bd.end, size, align).None?
  {
  }

  /** A failed attempt leaves the bump pointer at or above the highest range. */
  lemma FailedRecordKeepsSafe(bd: Bounds, s: Space, size: nat, align: nat, r: Option<nat>, s': Space)
    requires Safe(bd, s) && align > 0 && size > 0 && Allocated(bd, s, size, align, r, false, s')
    ensures Safe(bd, s') && s'.entries == s.entries
  {
  }

  lemma RecordKeepsApart(bd: Bounds, s: Space, size: nat, align: nat, r: Option<nat>, s': Space)
    requires Safe(bd, s) && align > 0 && size > 0 && Allocated(bd, s, size, align, r, true, s')
    ensures Apart(s'.entries) && Within(bd, s'.entries)
    ensures r.Some? ==> Top(bd.start, s'.entries) == Max(Top(bd.start, s.entries), r.value + size)
  {
    AllocationIsComplete(bd, s, size, align, r, true, s');
    if r.Some? {
      FreeRangeKeepsApart(s.entries, Entry(r.value, size), s'.entries, bd, align);
    }
  }

  /** A request is tried a second time when the first attempt did not succeed. */
  ghost predicate Obtained(bd: Bounds, s: Space, size: nat, align: nat,
                           r1: Option<nat>, recorded1: bool, s1: Space, r2: Option<nat>, recorded2: bool, s2: Space)
    requires align > 0
  {
    && Allocated(bd, s, size, align, r1, recorded1, s1)
    && if r1.Some? && recorded1 then s2 == s1 else Allocated(bd, s1, size, align, r2, recorded2, s2)
  }

  /** `b` is below every address where the request fits, or the lowest of them. */
  ghost predicate NoneBelow(es: seq<Entry>, b: nat, size: nat, align: nat, bd: Bounds)
    requires align > 0
  {
    forall c :: Fits(es, c, size, align, bd.start, bd.end) ==> b <= c
  }

  /** A second attempt would repair what a failed first one does to the bump pointer: the bump
      pointer is not used, or it has room for the request once more, or the request fits
      nowhere below the address that it gives. */
  ghost predicate Repairable(bd: Bounds, s: Space, size: nat, align: nat)
    requires align > 0
  {
    var area := HintArea(s.hint, bd.end, size, align);
    area.Some? ==>
      HintArea(area.value + size, bd.end, size, align).Some? || NoneBelow(s.entries, area.value, size, align, bd)
  }

  /** The two attempts keep the invariant exactly if the first was recorded, or the bump
      pointer is not used for the request, or the second was recorded and the space lets it
      repair the bump pointer. */
  lemma TwoAttemptsKeepOkExactly(bd: Bounds, s: Space, size: nat, align: nat,
                                 r1: Option<nat>, recorded1: bool, s1: Space,
                                 r2: Option<nat>, recorded2: bool, s2: Space)
    requires Ok(bd, s) && align > 0 && size > 0
    requires Obtained(bd, s, size, align, r1, recorded1, s1, r2, recorded2, s2)
    ensures Ok(bd, s2) <==>
              || recorded1
              || HintArea(s.hint, bd.end, size, align).None?
              || (recorded2 && Repairable(bd, s, size, align))
  {
    OkIsSafe(bd, s);
    AllocationIsComplete(bd, s, size, align, r1, recorded1, s1);
    if recorded1 && r1.Some? {
      AllocationKeepsOk(bd, s, size, align, r1, s1);
    } else if HintArea(s.hint, bd.end, size, align).None? {
      assert s1 == s;
      if recorded2 {
        AllocationKeepsOk(bd, s, size, align, r2, s2);
      } else {
        FailedRecordKeepsOkExactly(bd, s, size, align, r2, s2);
      }
    } else {
      SecondAttemptAfterHint(bd, s, size, align, r1, s1, r2, recorded2, s2);
    }
  }

  lemma SecondAttemptAfterHint(bd: Bounds, s: Space, size: nat, align: nat,
                               r1: Option<nat>, s1: Space, r2: Option<nat>, recorded2: bool, s2: Space)
    requires Ok(bd, s) && align > 0 && size > 0 && HintArea(s.hint, bd.end, size, align).Some?
    requires Allocated(bd, s, size, align, r1, false, s1) && Allocated(bd, s1, size, align, r2, recorded2, s2)
    ensures Ok(bd, s2) <==> recorded2 && Repairable(bd, s, size, align)
  {
    OkIsSafe(bd, s);
    HintIsFree(bd, s, size, align);
    FailedRecordKeepsSafe(bd, s, size, align, r1, s1);
    if recorded2 {
      RecordKeepsApart(bd, s1, size, align, r2, s2);
    }
  }

  lemma OverlapIsNotApart(c: seq<Entry>, f: Entry, d: seq<Entry>, e: Entry)
    requires e in c && e.End() > f.base
    ensures !Apart(c + [f] + d)
  {
    var es := c + [f] + d;
    var i :| 0 <= i < |c| && c[i] == e;
    assert es[i] == e && es[|c|] == f;
  }

  /** After such a failure two live ranges can overlap: 4, 10 and 2 units are requested from
      a space of 16, and neither attempt at the first can be recorded. */
  lemma FailedRecordCanLeadToOverlap() returns (a1: Space, s1: Space, s2: Space, s3: Space)
    ensures var u, bd := 0x1000_0000, Bounds(0x1000_0000, 0x1_1000_0000);
            && Ok(bd, Space(u, []))
            && Obtained(bd, Space(u, []), 4 * u, 4096, Some(u), false, a1, Some(5 * u), false, s1)
            && Obtained(bd, s1, 10 * u, 4096, Some(u), true, s2, None, true, s2)
            && Obtained(bd, s2, 2 * u, 4096, Some(9 * u), true, s3, None, true, s3)
            && s3.entries == [Entry(u, 10 * u), Entry(9 * u, 2 * u)] && !Apart(s3.entries)
  {
    var u := 0x1000_0000;
    var e, f := Entry(u, 10 * u), Entry(9 * u, 2 * u);
    a1, s1 := Space(5 * u, []), Space(9 * u, []);
    s2, s3 := Space(9 * u, [e]), Space(11 * u, [e, f]);
    FourTwice();
    TenBelow();
    TwoAbove();
    assert [e, f] == [e] + [f] + [];
    OverlapIsNotApart([e], f, [], e);
  }

  lemma FourTwice()
    ensures var u, bd := 0x1000_0000, Bounds(0x1000_0000, 0x1_1000_0000);
            && Ok(bd, Space(u, []))
            && Obtained(bd, Space(u, []), 4 * u, 4096, Some(u), false, Space(5 * u, []),
                        Some(5 * u), false, Space(9 * u, []))
  {
    var u := 0x1000_0000;
    assert AlignUp(u, 4096) == u && AlignUp(5 * u, 4096) == 5 * u;
  }

  lemma TenBelow()
    ensures var u, bd := 0x1000_0000, Bounds(0x1000_0000, 0x1_1000_0000);
            Allocated(bd, Space(9 * u, []), 10 * u, 4096, Some(u), true, Space(9 * u, [Entry(u, 10 * u)]))
  {
    var u, bd := 0x1000_0000, Bounds(0x1000_0000, 0x1_1000_0000);
    assert AlignUp(9 * u, 4096) == 9 * u;
    assert Fits([], u, 10 * u, 4096, bd.start, bd.end);
    assert Inserted([], Entry(u, 10 * u), [Entry(u, 10 * u)], [], []);
  }

  lemma TwoAbove()
    ensures var u, bd := 0x1000_0000, Bounds(0x1000_0000, 0x1_1000_0000);
            var e, f := Entry(u, 10 * u), Entry(9 * u, 2 * u);
            Allocated(bd, Space(9 * u, [e]), 2 * u, 4096, Some(9 * u), true, Space(11 * u, [e, f]))
  {
    var u := 0x1000_0000;
    var e, f := Entry(u, 10 * u), Entry(9 * u, 2 * u);
    assert AlignUp(9 * u, 4096) == 9 * u;
    assert Inserted([e], f, [e, f], [e], []);
  }

  lemma OneMore(es: seq<Entry>, e: Entry, es': seq<Entry>, a: seq<Entry>, b: seq<Entry>)
    requires Inserted(es, e, es', a, b)
    ensures multiset(es') == multiset(es) + multiset{e}
  {
    assert es' == a + [e] + b && es == a + b;
  }

  lemma OneLess(es: seq<Entry>, a: seq<Entry>, e: Entry, b: seq<Entry>)
    requires Between(es, a, e, b)
    ensures multiset(es) == multiset(a + b) + multiset{e}
  {
    assert es == a + [e] + b;
  }

  lemma FitsMeans(es: seq<Entry>, b: nat, size: nat, align: nat, bottom: nat, top: nat)
    requires align > 0 && Fits(es, b, size, align, bottom, top)
    ensures b % align == 0 && bottom <= b && b + size <= top
    ensures forall e <- es :: e.End() <= b || b + size <= e.base
  {}

  // ---- the page table object ----

  lemma ApartIsSorted(es: seq<Entry>)
    requires Apart(es)
    ensures Sorted(es)
  {
    forall i, j | 0 <= i < j < |es| ensures es[i].base < es[j].base {
      assert es[i] in es && es[i].End() <= es[j].base;
    }
  }

  /** A range that fits has a base of its own. */
  lemma FitIsNew(es: seq<Entry>, b: nat, size: nat, align: nat, bottom: nat, top: nat)
    requires Apart(es) && align > 0 && size > 0 && Fits(es, b, size, align, bottom, top)
    ensures forall x <- es :: x.base != b
  {
  }

  datatype Outcome = Granted(base: nat) | NoMemory | Invalid

  class Pagetable {
    const vaStart: nat
    const vaEnd: nat
    var vaHint: nat
    var root: Tree

    ghost function Abstract(): Space
      reads this
    {
      Space(vaHint, InOrder(root))
    }

    function Limits(): Bounds { Bounds(vaStart, vaEnd) }

    ghost predicate Valid()
      reads this
    {
      Ok(Limits(), Abstract())
    }

    /** What remains of that after a failed record. */
    ghost predicate Stable()
      reads this
    {
      Safe(Limits(), Abstract())
    }

    constructor (start: nat, end: nat)
      ensures Valid() && vaStart == start && vaEnd == end
      ensures Abstract() == Space(start, [])
    {
      vaStart, vaEnd := start, end;
      vaHint, root := start, Leaf;
    }

    /** The bump pointer: None when it is not in use or there is no room above it. */
    method GetUnmappedAreaHint(top: nat, size: nat, align: nat) returns (r: Option<nat>)
      requires align > 0
      modifies this`vaHint
      ensures r == HintArea(old(vaHint), top, size, align)
      ensures vaHint == if r.Some? then r.value + size else old(vaHint)
      ensures r.Some? ==>
                && old(vaHint) != 0 && top >= 0x1_0000_0000
                && r.value % align == 0 && old(vaHint) <= r.value < old(vaHint) + align && r.value + size <= top
      ensures r.None? && old(vaHint) != 0 && top >= 0x1_0000_0000 ==>
                forall b: nat :: b % align == 0 && old(vaHint) <= b ==> b + size > top
    {
      if vaHint == 0 || top / TWO32 == 0 {
        return None;
      }
      var hint := AlignUp(vaHint, align);
      if hint + size > top {
        forall b: nat | b % align == 0 && vaHint <= b ensures b + size > top {
          AlignUpIsLeast(vaHint, align, b);
        }
        return None;
      }
      vaHint := hint + size;
      return Some(hint);
    }

    method GetUnmappedArea(bottom: nat, top: nat, size: nat, align: nat) returns (r: Option<nat>)
      requires Apart(InOrder(root)) && size > 0 && align > 0
      modifies this`vaHint
      ensures HintArea(old(vaHint), top, size, align).Some? ==>
                r == HintArea(old(vaHint), top, size, align) && vaHint == r.value + size
      ensures HintArea(old(vaHint), top, size, align).None? ==>
                LowestFit(InOrder(root), size, align, bottom, top, r) && vaHint == old(vaHint)
      ensures old(vaHint) != 0 && top >= 0x1_0000_0000 && AlignUp(old(vaHint), align) + size <= top ==>
                r == Some(AlignUp(old(vaHint), align)) && vaHint == r.value + size
    {
      r := GetUnmappedAreaHint(top, size, align);
      if r.None? {
        r := SearchGap(InOrder(root), size, align, bottom, top);
      }
    }

    /** `recorded` tells whether memory for the record was available. With it the range
        becomes live; without it nothing does, but the bump pointer may have moved. A
        duplicate base cannot occur. */
    method GetGpuaddr(size: nat, align: nat, recorded: bool) returns (r: Outcome, ghost found: Option<nat>)
      requires Stable() && size > 0 && align > 0
      modifies this`vaHint, this`root
      ensures Allocated(Limits(), old(Abstract()), size, align, found, recorded, Abstract())
      ensures r == if found.Some? && recorded then Granted(found.value) else NoMemory
      ensures found.None? <==> !FitsSomewhere(old(InOrder(root)), size, align, Limits())
      ensures r.Granted? ==>
                && r.base % align == 0 && vaStart <= r.base && r.base + size <= vaEnd
                && (forall e <- old(InOrder(root)) :: e.End() <= r.base || r.base + size <= e.base)
                && multiset(InOrder(root)) == multiset(old(InOrder(root))) + multiset{Entry(r.base, size)}
      ensures !r.Granted? ==> InOrder(root) == old(InOrder(root))
      ensures !recorded ==> Stable()
      ensures old(Valid()) ==> (Valid() <==> recorded || HintArea(old(vaHint), vaEnd, size, align).None?)
    {
      hide Ok, Safe, Fits, LowestFit, Apart;
      ghost var s := Abstract();
      assert Apart(s.entries) && SearchTree(root) by { SafeBasics(Limits(), s); }
      var addr := GetUnmappedArea(vaStart, vaEnd, size, align);
      found := addr;
      if addr.None? || !recorded {
        r := NoMemory;
        assert Allocated(Limits(), s, size, align, found, recorded, Abstract());
      } else {
        var e := Entry(addr.value, size);
        var inserted := Insert(root, e);
        ghost var a, b := InsertKeepsOrder(root, e);
        assert Fits(s.entries, e.base, size, align, vaStart, vaEnd) by {
          AddressFits(Limits(), s, size, align, found);
        }
        FitIsNew(s.entries, e.base, size, align, vaStart, vaEnd);
        assert inserted.Some?;
        root := inserted.value;
        r := Granted(addr.value);
        assert Inserted(s.entries, e, Abstract().entries, a, b);
        OneMore(s.entries, e, Abstract().entries, a, b);
        FitsMeans(s.entries, e.base, size, align, vaStart, vaEnd);
      }
      AllocationIsComplete(Limits(), s, size, align, found, recorded, Abstract());
      if !recorded {
        FailedRecordKeepsSafe(Limits(), s, size, align, found, Abstract());
      }
      if Ok(Limits(), s) {
        if recorded {
          AllocationKeepsOk(Limits(), s, size, align, found, Abstract());
        } else {
          FailedRecordKeepsOkExactly(Limits(), s, size, align, found, Abstract());
        }
      }
    }

    /** `hgsl_iommu_get_gpuaddr`: protected memory and impossible sizes are refused, and a
        request that did not succeed is tried once more. `recorded1` and `recorded2` tell
        whether memory for the record was available to the two attempts. */
    method Obtain(size: nat, align: nat, isProtected: bool, recorded1: bool, recorded2: bool)
      returns (r: Outcome, ghost r1: Option<nat>, ghost s1: Space, ghost r2: Option<nat>)
      requires Valid() && align > 0
      modifies this`vaHint, this`root
      ensures r == Invalid <==> isProtected || size == 0 || size > UINT_MAX
      ensures r == Invalid ==> Abstract() == old(Abstract())
      ensures r != Invalid ==>
                Obtained(Limits(), old(Abstract()), size, align, r1, recorded1, s1, r2, recorded2, Abstract())
      ensures r != Invalid ==>
                r == if r1.Some? && recorded1 then Granted(r1.value)
                     else if r2.Some? && recorded2 then Granted(r2.value) else NoMemory
      ensures recorded1 && recorded2 && r == NoMemory ==> !FitsSomewhere(old(InOrder(root)), size, align, Limits())
      ensures r != Invalid ==>
                (Valid() <==>
                   || recorded1
                   || HintArea(old(vaHint), vaEnd, size, align).None?
                   || (recorded2 && Repairable(Limits(), old(Abstract()), size, align)))
    {
      hide Ok, Safe, Allocated, FitsSomewhere;
      ghost var s := Abstract();
      r1, r2, s1 := None, None, s;
      if isProtected {
        return Invalid, r1, s1, r2;
      }
      if size == 0 || size > UINT_MAX {
        return Invalid, r1, s1, r2;
      }
      OkIsSafe(Limits(), s);
      r, r1 := GetGpuaddr(size, align, recorded1);
      s1 := Abstract();
      if r == NoMemory {
        if recorded1 {
          OkIsSafe(Limits(), s1);
        }
        r, r2 := GetGpuaddr(size, align, recorded2);
      }
      TwoAttemptsKeepOkExactly(Limits(), s, size, align, r1, recorded1, s1, r2, recorded2, Abstract());
    }

    /** Descent by base address. */
    method FindGpuaddr(gpuaddr: nat) returns (r: Option<Entry>)
      requires Valid()
      ensures r.Some? ==> r.value in InOrder(root) && r.value.base == gpuaddr
      ensures r.None? ==> forall e <- InOrder(root) :: e.base != gpuaddr
    {
      hide Ok, Sorted;
      assert SearchTree(root) by { OkBasics(Limits(), Abstract()); }
      var node := root;
      while node.Node?
        invariant SearchTree(node)
        invariant forall e <- InOrder(node) :: e in InOrder(root)
        invariant forall e <- InOrder(root) :: e.base == gpuaddr ==> e in InOrder(node)
        decreases node
      {
        SortedParts(InOrder(node.left), node.entry, InOrder(node.right));
        if gpuaddr < node.entry.base {
          node := node.left;
        } else if gpuaddr > node.entry.base {
          node := node.right;
        } else {
          return Some(node.entry);
        }
      }
      return None;
    }

    /** Frees the range at `gpuaddr`; false when there is none. */
    method RemoveGpuaddr(gpuaddr: nat) returns (ok: bool)
      requires Valid()
      modifies this`vaHint, this`root
      ensures Valid()
      ensures ok <==> exists e <- old(InOrder(root)) :: e.base == gpuaddr
      ensures ok ==>
                exists a, e: Entry, b :: e.base == gpuaddr && Released(Limits(), old(Abstract()), a, e, b, Abstract())
      ensures !ok ==> Abstract() == old(Abstract())
      ensures ok ==>
                exists e: Entry ::
                  e.base == gpuaddr && multiset(old(InOrder(root))) == multiset(InOrder(root)) + multiset{e}
    {
      hide Ok, Sorted, Between, Splits;
      var found := FindGpuaddr(gpuaddr);
      if found.None? {
        return false;
      }
      var e := found.value;
      ghost var s := Abstract();
      assert SearchTree(root) by { OkBasics(Limits(), s); }
      ghost var a, b := RemoveInOrder(root, e);
      if vaHint == e.base + e.size {
        var prev := Previous(root, gpuaddr, None);
        assert prev == Last(a, None) by { PreviousOfBetween(root, a, e, b); }
        vaHint := vaStart;
        if prev.Some? {
          vaHint := Max(prev.value.base + prev.value.size, vaStart);
        }
      }
      root := Remove(root, gpuaddr);
      assert Released(Limits(), s, a, e, b, Abstract());
      OneLess(s.entries, a, e, b);
      ReleaseKeepsOk(Limits(), s, a, e, b, Abstract());
      return true;
    }
  }

  lemma OkBasics(bd: Bounds, s: Space)
    requires Ok(bd, s)
    ensures Apart(s.entries) && Sorted(s.entries)
  {
    ApartIsSorted(s.entries);
  }

  lemma SafeBasics(bd: Bounds, s: Space)
    requires Safe(bd, s)
    ensures Apart(s.entries) && Sorted(s.entries)
  {
    ApartIsSorted(s.entries);
  }

  lemma AddressFits(bd: Bounds, s: Space, size: nat, align: nat, found: Option<nat>)
    requires Safe(bd, s) && align > 0 && size > 0 && found.Some?
    requires HintArea(s.hint, bd.end, size, align).Some? ==> found == HintArea(s.hint, bd.end, size, align)
    requires HintArea(s.hint, bd.end, size, align).None? ==>
               LowestFit(s.entries, size, align, bd.start, bd.end, found)
    ensures Fits(s.entries, found.value, size, align, bd.start, bd.end)
  {
    if HintUsable(s.hint, bd.end) {
      HintIsFree(bd, s, size, align);
    }
  }

  lemma PreviousOfBetween(t: Tree, a: seq<Entry>, e: Entry, b: seq<Entry>)
    requires SearchTree(t) && Between(InOrder(t), a, e, b)
    ensures Previous(t, e.base, None) == Last(a, None)
  {
    assert a + [e] + b == a + ([e] + b);
    PreviousInOrder(t, e.base, None, a, [e] + b);
  }
}
