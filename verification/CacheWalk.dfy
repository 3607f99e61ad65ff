/** The walk of a cache operation over the segments of a buffer (hgsl_memory.c). */
module CacheWalk {
  import opened Units

  /** Physically contiguous memory: first page and length in bytes. */
  datatype Segment = Segment(first: nat, length: nat)

  datatype Status = Done | Invalid | OutOfRange

  function Run(first: nat, count: nat): (r: seq<nat>)
    ensures |r| == count && forall k :: 0 <= k < count ==> r[k] == first + k
  {
    seq(count, k => first + k)
  }

  function Pages(s: Segment): seq<nat> { Run(s.first, s.length / PAGE_SIZE) }

  /** All pages of the buffer in order. */
  function Flat(segs: seq<Segment>): seq<nat> {
    if segs == [] then [] else Flat(segs[..|segs| - 1]) + Pages(segs[|segs| - 1])
  }

  /** The part of `s` from `a` up to `b`, as far as there is one. */
  function Slice(s: seq<nat>, a: nat, b: nat): seq<nat>
    requires a <= b
  {
    s[Min(a, |s|)..Min(b, |s|)]
  }

  lemma FlatAppend(segs: seq<Segment>, s: Segment)
    ensures Flat(segs + [s]) == Flat(segs) + Pages(s)
  {
    assert (segs + [s])[..|segs|] == segs;
  }

  lemma SliceAppend(s: seq<nat>, t: seq<nat>, a: nat, b: nat)
    requires a <= b
    ensures Slice(s + t, a, b) ==
            Slice(s, a, b) + t[Min(if a < |s| then 0 else a - |s|, |t|)..Min(if b < |s| then 0 else b - |s|, |t|)]
  {
  }

  lemma {:induction false} FlatPrefix(segs: seq<Segment>, i: nat)
    requires i <= |segs|
    ensures |Flat(segs[..i])| <= |Flat(segs)| && Flat(segs)[..|Flat(segs[..i])|] == Flat(segs[..i])
  {
    if i == |segs| {
      assert segs[..i] == segs;
    } else {
      var front := segs[..|segs| - 1];
      FlatPrefix(front, i);
      assert front[..i] == segs[..i];
      assert Flat(segs)[..|Flat(segs[..i])|] == Flat(front)[..|Flat(segs[..i])|];
    }
  }

  /** Page by page: page `k` of segment `i` comes behind all whole pages of the segments before it. */
  lemma FlatAt(segs: seq<Segment>, i: nat, k: nat)
    requires i < |segs| && k < segs[i].length / PAGE_SIZE
    ensures |Flat(segs[..0])| == 0 && |Flat(segs[..i + 1])| == |Flat(segs[..i])| + segs[i].length / PAGE_SIZE
    ensures |Flat(segs[..i])| + k < |Flat(segs)| && Flat(segs)[|Flat(segs[..i])| + k] == segs[i].first + k
  {
    assert segs[..i + 1] == segs[..i] + [segs[i]];
    FlatAppend(segs[..i], segs[i]);
    FlatPrefix(segs, i + 1);
    var at := |Flat(segs[..i])| + k;
    assert Flat(segs)[at] == Flat(segs)[..|Flat(segs[..i + 1])|][at];
  }

  lemma SliceInside(s: seq<nat>, a: nat, b: nat)
    requires a <= b
    ensures Slice(s, a, b) == if |s| <= a then [] else if b <= |s| then s[a..b] else s[a..]
  {
  }

  /** Byte count of one cache operation: a 32-bit product. */
  function DmaBytes(count: nat): nat { count * PAGE_SIZE % 0x1_0000_0000 }

  /** `_dma_cache_op`: the pages of one contiguous run. */
  function DmaCacheOp(page: nat, count: nat): seq<nat> { Run(page, DmaBytes(count) / PAGE_SIZE) }

  /** A run is covered exactly when its byte count fits 32 bits. */
  lemma DmaCacheOpCoversExactly(page: nat, count: nat)
    ensures DmaCacheOp(page, count) == Run(page, count) <==> count < 0x10_0000
  {
    assert |DmaCacheOp(page, count)| == count % 0x10_0000;
  }

  lemma RunInSegment(s: Segment, offset: nat, count: nat)
    requires offset + count <= s.length / PAGE_SIZE
    ensures Run(s.first + offset, count) == Pages(s)[offset..offset + count]
  {
  }

  /** The loop: skips `pgOffset` pages, then asks for `pgSize` pages to be covered, whatever
      the segments; `asked` lists the pages asked for. */
  method Walk(segs: seq<Segment>, pgOffset0: nat, pgSize0: nat) returns (touched: seq<nat>, ghost asked: seq<nat>)
    requires 0 < pgSize0
    ensures asked == Slice(Flat(segs), pgOffset0, pgOffset0 + pgSize0)
    ensures pgOffset0 + pgSize0 <= |Flat(segs)| ==> asked == Flat(segs)[pgOffset0..pgOffset0 + pgSize0]
    ensures pgSize0 < 0x10_0000 ==> touched == Slice(Flat(segs), pgOffset0, pgOffset0 + pgSize0)
  {
    hide Flat, DmaCacheOp, Run, Slice;
    touched, asked := [], [];
    var pgOffset, pgSize := pgOffset0, pgSize0;
    ghost var end := pgOffset0 + pgSize0;
    var i := 0;
    StartOfWalk(segs, pgOffset0, end);
    SliceInside(Flat(segs), pgOffset0, end);
    while i < |segs|
      invariant 0 <= i <= |segs|
      invariant asked == Slice(Flat(segs[..i]), pgOffset0, end)
      invariant pgOffset == Left(pgOffset0, |Flat(segs[..i])|)
      invariant pgSize == pgSize0 - |asked| && pgSize > 0
      invariant pgSize0 < 0x10_0000 ==> touched == asked
    {
      var s := segs[i];
      var sgSize := s.length / PAGE_SIZE;
      assert segs[..i + 1] == segs[..i] + [s];
      NextSegment(segs[..i], s, pgOffset0, end);
      if sgSize > pgOffset {
        var page := s.first + pgOffset;
        sgSize := sgSize - pgOffset;
        sgSize := Min(sgSize, pgSize);
        RunInSegment(s, pgOffset, sgSize);
        DmaCacheOpCoversExactly(page, sgSize);
        touched, asked := touched + DmaCacheOp(page, sgSize), asked + Run(page, sgSize);
        pgOffset := 0;
        pgSize := pgSize - sgSize;
        if pgSize == 0 {
          FlatPrefix(segs, i + 1);
          SliceDone(Flat(segs[..i + 1]), Flat(segs), pgOffset0, end);
          return;
        }
      } else {
        pgOffset := pgOffset - sgSize;
      }
      i := i + 1;
    }
    assert segs[..i] == segs;
  }

  function Left(a: nat, b: nat): nat { if a < b then 0 else a - b }

  /** One more segment adds to the slice what is left to skip and to cover. */
  lemma NextSegment(segs: seq<Segment>, s: Segment, a: nat, b: nat)
    requires a < b && |Slice(Flat(segs), a, b)| < b - a
    ensures Flat(segs + [s]) == Flat(segs) + Pages(s) && |Pages(s)| == s.length / PAGE_SIZE
    ensures var from, want := Left(a, |Flat(segs)|), b - a - |Slice(Flat(segs), a, b)|;
            Slice(Flat(segs + [s]), a, b) == Slice(Flat(segs), a, b)
            + if |Pages(s)| <= from then [] else Pages(s)[from..from + Min(|Pages(s)| - from, want)]
  {
    hide Flat, Run;
    FlatAppend(segs, s);
    SliceAppend(Flat(segs), Pages(s), a, b);
    PagesLength(s);
  }

  lemma PagesLength(s: Segment)
    ensures |Pages(s)| == s.length / PAGE_SIZE
  {
  }

  lemma StartOfWalk(segs: seq<Segment>, a: nat, b: nat)
    requires a <= b
    ensures Flat(segs[..0]) == [] && Slice(Flat(segs[..0]), a, b) == []
  {
  }

  lemma SliceDone(s: seq<nat>, t: seq<nat>, a: nat, b: nat)
    requires a <= b && |Slice(s, a, b)| == b - a && a < b
    requires |s| <= |t| && t[..|s|] == s
    ensures Slice(t, a, b) == Slice(s, a, b)
  {
    assert b <= |s|;
    forall k | 0 <= k < b - a ensures t[a..b][k] == s[a..b][k] {
      assert t[a + k] == t[..|s|][a + k];
    }
  }

  function PageAlign(n: nat): nat { (n + PAGE_SIZE - 1) / PAGE_SIZE * PAGE_SIZE }

  /** First page of a byte range, and the page after its last. */
  function FirstPage(offset: nat): nat { offset / PAGE_SIZE }

  function EndPage(offset: nat, size: nat): nat { (offset + size + PAGE_SIZE - 1) / PAGE_SIZE }

  /** Those pages are exactly the ones the bytes overlap. */
  lemma RangeIsOverlap(offset: nat, size: nat, page: nat)
    requires size > 0
    ensures FirstPage(offset) <= page < EndPage(offset, size) <==>
              page * PAGE_SIZE < offset + size && offset < (page + 1) * PAGE_SIZE
  {
  }

  lemma PageCount(offset: nat, size: nat)
    ensures PageAlign(size + offset % PAGE_SIZE) / PAGE_SIZE == EndPage(offset, size) - FirstPage(offset)
  {
  }

  /** `hgsl_mem_cache_op`; `given` says that there are a device and a node, `listed` that a list
      of segments is there or can be made. For buffers of a size this driver allocates (at
      most 2^32 less a page) the operation covers the pages the range overlaps, each once and
      in order. */
  method CacheOp(segs: seq<Segment>, memSize: nat, given: bool, isProtected: bool, isCached: bool, listed: bool,
                 offset: nat, size: nat)
    returns (r: Status, touched: seq<nat>)
    requires memSize <= UINT_MAX
    ensures r == if !given || isProtected then Invalid else if !isCached then Done
                 else if size == 0 || size > UINT_MAX || offset > UINT_MAX || size + offset > memSize then OutOfRange
                 else if !listed then Invalid else Done
    ensures r != Done || !isCached ==> touched == []
    ensures r == Done && isCached && memSize <= 0x1_0000_0000 - PAGE_SIZE ==>
              touched == Slice(Flat(segs), FirstPage(offset), EndPage(offset, size))
              && (EndPage(offset, size) <= |Flat(segs)| ==>
                    touched == Flat(segs)[FirstPage(offset)..EndPage(offset, size)])
  {
    hide Flat;
    touched := [];
    if !given || isProtected {
      return Invalid, [];
    }
    if !isCached {
      return Done, [];
    }
    if size == 0 || size > UINT_MAX || offset > UINT_MAX {
      return OutOfRange, [];
    }
    if size + offset > memSize {
      return OutOfRange, [];
    }
    var sizebytes := size + offset % PAGE_SIZE;
    var pgSize := PageAlign(sizebytes) / PAGE_SIZE;
    var pgOffset := offset / PAGE_SIZE;
    PageCount(offset, size);
    if !listed {
      return Invalid, [];
    }
    ghost var asked;
    touched, asked := Walk(segs, pgOffset, pgSize);
    r := Done;
  }
}
