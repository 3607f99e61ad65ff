/** Buffers made of page blocks (hgsl_memory.c): allocation in blocks of shrinking order,
    and the loop that frees them again knowing only the pages. */
module PageBlocks {
  import opened Units
  import opened Wrappers

  /** A page is the `index`-th of the block it was obtained in. */
  datatype Page = Page(block: nat, index: nat)

  datatype Block = Block(id: nat, order: nat)

  datatype Status = Done | Invalid | NoMemory

  function Pow2(n: nat): (p: nat)
    ensures p > 0
  {
    if n == 0 then 1 else 2 * Pow2(n - 1)
  }

  /** `get_order`, for a number of pages. */
  function GetOrder(n: nat): nat {
    if n <= 1 then 0 else 1 + GetOrder((n + 1) / 2)
  }

  /** The least order that is enough. */
  lemma {:induction false} GetOrderIsLeast(n: nat)
    ensures n <= Pow2(GetOrder(n))
    ensures GetOrder(n) > 0 ==> Pow2(GetOrder(n) - 1) < n
  {
    if n > 1 {
      GetOrderIsLeast((n + 1) / 2);
    }
  }

  /** Pages in all of the blocks. */
  function Span(bs: seq<Block>): nat {
    if bs == [] then 0 else Span(bs[..|bs| - 1]) + Pow2(bs[|bs| - 1].order)
  }

  /** `pages` are those of the blocks in order; only the last block may be cut short, and
      not to nothing. */
  ghost predicate Layout(pages: seq<Page>, bs: seq<Block>) {
    if bs == [] then pages == []
    else
      var front, last := bs[..|bs| - 1], bs[|bs| - 1];
      && Span(front) < |pages| <= Span(bs)
      && Layout(pages[..Span(front)], front)
      && forall k :: Span(front) <= k < |pages| ==> pages[k] == Page(last.id, k - Span(front))
  }

  /** The head of the `j`-th block is where the blocks before it end. */
  lemma {:induction false} HeadAt(pages: seq<Page>, bs: seq<Block>, j: nat)
    requires Layout(pages, bs) && j < |bs|
    ensures Span(bs[..j]) < |pages| && pages[Span(bs[..j])] == Page(bs[j].id, 0)
  {
    var n := |bs| - 1;
    if j < n {
      HeadAt(pages[..Span(bs[..n])], bs[..n], j);
      assert bs[..n][..j] == bs[..j];
    }
  }

  /** A block added behind complete ones. */
  lemma LayoutAppend(pages: seq<Page>, bs: seq<Block>, b: Block, more: seq<Page>)
    requires Layout(pages, bs) && |pages| == Span(bs) && 0 < |more| <= Pow2(b.order)
    requires forall k :: 0 <= k < |more| ==> more[k] == Page(b.id, k)
    ensures Layout(pages + more, bs + [b])
    ensures Span(bs + [b]) == Span(bs) + Pow2(b.order)
  {
    var cs := bs + [b];
    assert cs[..|cs| - 1] == bs && cs[|cs| - 1] == b;
    assert (pages + more)[..Span(bs)] == pages;
  }

  lemma {:induction false} SpanGrows(bs: seq<Block>, j: nat)
    requires j < |bs|
    ensures Span(bs[..j + 1]) == Span(bs[..j]) + Pow2(bs[j].order)
  {
    assert bs[..j + 1][..j] == bs[..j];
  }

  /** Only the last block is truncated: the number of pages falls short of the blocks by
      less than that block. */
  lemma LayoutLength(pages: seq<Page>, bs: seq<Block>)
    requires Layout(pages, bs)
    ensures |pages| <= Span(bs)
    ensures bs != [] ==> Span(bs[..|bs| - 1]) < |pages|
  {
  }

  // ---- the kernel's books ----

  function AddBlocks(live: map<nat, nat>, bs: seq<Block>): map<nat, nat> {
    if bs == [] then live else AddBlocks(live, bs[..|bs| - 1])[bs[|bs| - 1].id := bs[|bs| - 1].order]
  }

  function DropBlocks(live: map<nat, nat>, bs: seq<Block>): map<nat, nat> {
    if bs == [] then live else DropBlocks(live, bs[..|bs| - 1]) - {bs[|bs| - 1].id}
  }

  /** Blocks with identities of their own, all live with their orders. */
  ghost predicate Owned(live: map<nat, nat>, bs: seq<Block>) {
    && (forall i :: 0 <= i < |bs| ==> bs[i].id in live && live[bs[i].id] == bs[i].order)
    && (forall i, j :: 0 <= i < j < |bs| ==> bs[i].id != bs[j].id)
  }

  /** None of the blocks was live before. */
  ghost predicate FreshIn(live: map<nat, nat>, bs: seq<Block>) {
    && (forall i :: 0 <= i < |bs| ==> bs[i].id !in live)
    && (forall i, j :: 0 <= i < j < |bs| ==> bs[i].id != bs[j].id)
  }

  lemma {:induction false} AddedBlocks(live: map<nat, nat>, bs: seq<Block>)
    requires FreshIn(live, bs)
    ensures forall x :: x in AddBlocks(live, bs) <==> x in live || exists i :: 0 <= i < |bs| && bs[i].id == x
    ensures forall x <- live :: AddBlocks(live, bs)[x] == live[x]
    ensures Owned(AddBlocks(live, bs), bs)
  {
    if bs != [] {
      AddedBlocks(live, bs[..|bs| - 1]);
    }
  }

  lemma {:induction false} DroppedBlocks(live: map<nat, nat>, bs: seq<Block>)
    ensures forall x :: x in DropBlocks(live, bs) <==> x in live && forall i :: 0 <= i < |bs| ==> bs[i].id != x
    ensures forall x <- DropBlocks(live, bs) :: DropBlocks(live, bs)[x] == live[x]
  {
    if bs != [] {
      DroppedBlocks(live, bs[..|bs| - 1]);
    }
  }

  /** Freeing the blocks of an allocation restores what was live before it. */
  lemma FreeingUndoesAllocating(live: map<nat, nat>, bs: seq<Block>)
    requires FreshIn(live, bs)
    ensures DropBlocks(AddBlocks(live, bs), bs) == live && Owned(AddBlocks(live, bs), bs)
  {
    AddedBlocks(live, bs);
    DroppedBlocks(AddBlocks(live, bs), bs);
  }

  // ---- the page allocator ----

  /** Blocks handed out, and the counter of pages in them. */
  class Kernel {
    var live: map<nat, nat>
    var counter: int
    var next: nat
    var calls: nat

    ghost predicate Valid()
      reads this
    {
      forall id <- live :: id < next
    }

    constructor ()
      ensures Valid() && live == map[] && counter == 0
    {
      live, counter, next, calls := map[], 0, 0, 0;
    }

    /** `alloc_pages`; `available` decides by number of the call and order. */
    method Alloc(order: nat, available: (nat, nat) -> bool) returns (b: Option<Block>)
      requires Valid()
      modifies this`live, this`next, this`calls
      ensures Valid() && calls == old(calls) + 1
      ensures b.Some? <==> available(old(calls), order)
      ensures b.Some? ==> b.value.order == order && b.value.id !in old(live) && live == old(live)[b.value.id := order]
      ensures b.None? ==> live == old(live) && next == old(next)
    {
      calls := calls + 1;
      if !available(calls - 1, order) {
        return None;
      }
      b := Some(Block(next, order));
      live := live[next := order];
      next := next + 1;
    }

    /** `compound_order`: only the head of a block knows the order. */
    function CompoundOrder(p: Page): nat
      reads this
    {
      if p.index == 0 && p.block in live then live[p.block] else 0
    }

    /** `__free_pages`: the block must be live. */
    method Free(p: Page, order: nat)
      requires p.index == 0 && p.block in live && live[p.block] == order
      modifies this`live
      ensures live == old(live) - {p.block}
    {
      live := live - {p.block};
    }
  }

  /** Every attempt from order `top` down to `low`, one a call, was refused. */
  ghost predicate Refused(available: (nat, nat) -> bool, first: nat, top: nat, low: nat) {
    forall call: nat, order: nat :: low <= order <= top && call == first + top - order ==> !available(call, order)
  }

  // ---- the buffer ----

  class Buffer {
    var pages: array<Page>
    var pageCount: nat
    var nents: nat
    ghost var blocks: seq<Block>

    ghost predicate Valid()
      reads this, pages
    {
      pageCount <= pages.Length && Layout(pages[..pageCount], blocks) && nents == |blocks|
    }

    constructor ()
      ensures Valid() && blocks == [] && fresh(pages)
    {
      pages := new Page[0];
      pageCount, nents, blocks := 0, 0, [];
    }

    /** `hgsl_alloc_pages`: the largest order that can be had, starting from the one that
        would do; pages beyond the request are not recorded. */
    static method AllocPages(k: Kernel, requested: nat, pages: array<Page>, at: nat, available: (nat, nat) -> bool)
      returns (pcount: nat, ghost b: Option<Block>)
      requires k.Valid() && requested > 0 && at + requested <= pages.Length
      modifies k, pages
      ensures k.Valid()
      ensures pcount == 0 <==> b.None?
      ensures b.Some? ==> pcount == if requested < Pow2(b.value.order) then requested else Pow2(b.value.order)
      ensures b.Some? ==> b.value.id !in old(k.live) && k.live == old(k.live)[b.value.id := b.value.order]
      ensures b.Some? ==> k.counter == old(k.counter) + Pow2(b.value.order)
      ensures b.Some? ==> forall i :: 0 <= i < pcount ==> pages[at + i] == Page(b.value.id, i)
      ensures b.None? ==> k.live == old(k.live) && k.counter == old(k.counter)
      ensures forall i :: 0 <= i < pages.Length && !(at <= i < at + pcount) ==> pages[i] == old(pages[i])
      ensures b.Some? ==> b.value.order <= GetOrder(requested)
      ensures Refused(available, old(k.calls), GetOrder(requested), if b.Some? then b.value.order + 1 else 0)
      ensures k.calls > old(k.calls) && (b.None? ==> !available(k.calls - 1, 0))
    {
      var order: nat := GetOrder(requested);
      pcount, b := 0, None;
      var page := k.Alloc(order, available);
      while page.None? && order > 0
        invariant k.Valid() && order <= GetOrder(requested)
        invariant k.calls == old(k.calls) + GetOrder(requested) - order + 1
        invariant Refused(available, old(k.calls), GetOrder(requested), if page.Some? then order + 1 else order)
        invariant k.counter == old(k.counter) && pages[..] == old(pages[..])
        invariant page.None? ==> k.live == old(k.live)
        invariant page.Some? ==> page.value.order == order && page.value.id !in old(k.live)
        invariant page.Some? ==> k.live == old(k.live)[page.value.id := order]
        decreases page.None?, order
      {
        order := order - 1;
        page := k.Alloc(order, available);
      }
      if page.Some? {
        b := page;
        pcount := Pow2(order);
        if requested < pcount {
          pcount := requested;
        }
        forall i | 0 <= i < pcount {
          pages[at + i] := Page(page.value.id, i);
        }
        k.counter := k.counter + Pow2(order);
      }
    }

    /** One round of the allocation loop. */
    static method AddBlock(k: Kernel, requested: nat, list: array<Page>, at: nat, ghost bs: seq<Block>,
                           available: (nat, nat) -> bool)
      returns (pcount: nat, ghost more: seq<Block>)
      requires k.Valid() && requested > 0 && at + requested == list.Length
      requires Layout(list[..at], bs) && at == Span(bs)
      modifies k, list
      ensures k.Valid() && pcount <= requested
      ensures Layout(list[..at + pcount], more)
      ensures pcount < requested ==> at + pcount == Span(more)
      ensures pcount == 0 ==> more == bs && k.live == old(k.live) && k.counter == old(k.counter)
      ensures k.calls > old(k.calls) && (pcount == 0 ==> !available(k.calls - 1, 0))
      ensures pcount > 0 ==> |more| == |bs| + 1 && more[..|bs|] == bs && more[|bs|].id !in old(k.live)
                             && k.live == old(k.live)[more[|bs|].id := more[|bs|].order]
      ensures k.counter - Span(more) == old(k.counter) - Span(bs)
    {
      hide Layout, Span, GetOrder, Refused, Pow2;
      ghost var before := list[..at];
      ghost var b;
      pcount, b := AllocPages(k, requested, list, at, available);
      more := bs;
      assert list[..at] == before;
      if pcount > 0 {
        LayoutAppend(before, bs, b.value, list[at..at + pcount]);
        assert list[..at + pcount] == before + list[at..at + pcount];
        more := bs + [b.value];
      }
    }

    /** The allocation loop: until the request is met or a block cannot be had. */
    static method Fill(k: Kernel, list: array<Page>, available: (nat, nat) -> bool)
      returns (obtained: nat, entries: nat, ghost bs: seq<Block>)
      requires k.Valid()
      modifies k, list
      ensures k.Valid() && obtained <= list.Length && entries == |bs|
      ensures Layout(list[..obtained], bs)
      ensures obtained < list.Length ==> obtained == Span(bs)
      ensures obtained < list.Length ==> k.calls > old(k.calls) && !available(k.calls - 1, 0)
      ensures FreshIn(old(k.live), bs) && k.live == AddBlocks(old(k.live), bs)
      ensures k.counter == old(k.counter) + Span(bs)
    {
      hide Layout, AddBlocks, Span, FreshIn;
      var requested: nat := list.Length;
      obtained, entries, bs := 0, 0, [];
      NoBlocks(k.live);
      assert list[..0] == [];
      while requested > 0
        invariant requested + obtained == list.Length && k.Valid() && entries == |bs|
        invariant Layout(list[..obtained], bs)
        invariant requested > 0 ==> obtained == Span(bs)
        invariant k.calls >= old(k.calls)
        invariant FreshIn(old(k.live), bs) && k.live == AddBlocks(old(k.live), bs)
        invariant k.counter == old(k.counter) + Span(bs)
        decreases requested
      {
        var pcount;
        ghost var more;
        pcount, more := AddBlock(k, requested, list, obtained, bs, available);
        if pcount == 0 {
          break;
        }
        assert more == bs + [more[|bs|]];
        FreshAppend(old(k.live), bs, more[|bs|]);
        bs := more;
        obtained := obtained + pcount;
        requested := requested - pcount;
        entries := entries + 1;
      }
    }

    /** `hgsl_sharedmem_alloc`, up to the point where the pages are there or not. Whenever
        it stops, the buffer's pages are those of its blocks and the books agree. `memory` tells
        whether there is memory for the list of pages. */
    method Alloc(k: Kernel, sizebytes: nat, memory: bool, available: (nat, nat) -> bool) returns (r: Status)
      requires Valid() && k.Valid() && sizebytes <= UINT_MAX && blocks == []
      modifies this, k
      ensures Valid() && k.Valid()
      ensures r == Invalid <==> sizebytes == 0 || sizebytes > UINT_MAX - PAGE_SIZE
      ensures FreshIn(old(k.live), blocks) && k.live == AddBlocks(old(k.live), blocks)
      ensures k.counter == old(k.counter) + Span(blocks)
      ensures r == Done ==> pageCount == (sizebytes + PAGE_SIZE - 1) / PAGE_SIZE
      ensures r == NoMemory ==> pageCount < (sizebytes + PAGE_SIZE - 1) / PAGE_SIZE && pageCount == Span(blocks)
      ensures r == NoMemory && memory ==> k.calls > old(k.calls) && !available(k.calls - 1, 0)
      ensures memory && r != Invalid && (forall call: nat :: available(call, 0)) ==> r == Done
      ensures !memory ==> r != Done && blocks == [] && k.live == old(k.live) && k.counter == old(k.counter)
    {
      hide Layout, AddBlocks, Span, FreshIn;
      NoBlocks(k.live);
      if sizebytes == 0 || sizebytes > UINT_MAX - PAGE_SIZE {
        return Invalid;
      }
      if !memory {
        NothingHeld();
        return NoMemory;
      }
      var list := new Page[(sizebytes + PAGE_SIZE - 1) / PAGE_SIZE](_ => Page(0, 0));
      var obtained, entries;
      ghost var bs;
      obtained, entries, bs := Fill(k, list, available);
      pages, pageCount, nents, blocks := list, obtained, entries, bs;
      r := if obtained != list.Length then NoMemory else Done;
    }

    lemma NothingHeld()
      requires Valid() && blocks == []
      ensures pageCount == 0 == Span(blocks)
    {
    }

    /** A buffer allocated, wholly or in part or not at all, and freed: the live blocks and the
        counter are what they were. */
    method AllocThenFree(k: Kernel, sizebytes: nat, memory: bool, available: (nat, nat) -> bool) returns (r: Status)
      requires Valid() && k.Valid() && sizebytes <= UINT_MAX && blocks == []
      modifies this, k
      ensures Valid() && k.Valid() && blocks == [] && pageCount == 0
      ensures k.live == old(k.live) && k.counter == old(k.counter)
    {
      hide Layout, AddBlocks, DropBlocks, Span, FreshIn, Owned;
      r := Alloc(k, sizebytes, memory, available);
      FreeingUndoesAllocating(old(k.live), blocks);
      ghost var heads := Free(k);
    }

    /** `hgsl_free_pages`: the loop finds the head of every block, frees each block once,
        in order, and takes off the counter what its allocation had added. */
    method Free(k: Kernel) returns (ghost heads: seq<Page>)
      requires Valid() && k.Valid() && Owned(k.live, blocks)
      modifies this`pageCount, this`blocks, this`nents, k
      ensures Valid() && k.Valid() && pageCount == 0 && blocks == []
      ensures |heads| == |old(blocks)| && forall i :: 0 <= i < |heads| ==> heads[i] == Page(old(blocks)[i].id, 0)
      ensures k.live == DropBlocks(old(k.live), old(blocks))
      ensures k.counter == old(k.counter) - Span(old(blocks))
    {
      hide Layout, Owned, DropBlocks, Span;
      heads := [];
      var i: nat := 0;
      ghost var j: nat := 0;
      NoBlocks(k.live);
      LayoutEnds(pages[..pageCount], blocks);
      while i < pageCount
        invariant blocks == old(blocks) && pageCount == old(pageCount) <= pages.Length && k.Valid()
        invariant Layout(pages[..pageCount], blocks) && Owned(old(k.live), blocks)
        invariant 0 <= j <= |blocks| && i == Span(blocks[..j])
        invariant i < pageCount <==> j < |blocks|
        invariant k.live == DropBlocks(old(k.live), blocks[..j])
        invariant k.counter == old(k.counter) - Span(blocks[..j])
        invariant |heads| == j && forall x :: 0 <= x < j ==> heads[x] == Page(blocks[x].id, 0)
        decreases |blocks| - j
      {
        HeadAt(pages[..pageCount], blocks, j);
        OwnedNext(old(k.live), blocks, j);
        SpanGrows(blocks, j);
        HeadsInside(pages[..pageCount], blocks, j + 1);
        var p := pages[i];
        var order := k.CompoundOrder(p);
        k.counter := k.counter - Pow2(order);
        k.Free(p, order);
        heads := heads + [p];
        i := i + Pow2(order);
        j := j + 1;
      }
      assert blocks[..j] == blocks;
      DroppedBlocks(old(k.live), blocks);
      pageCount, blocks, nents := 0, [], 0;
      assert pages[..0] == [];
      NoPages();
    }
  }

  lemma NoBlocks(live: map<nat, nat>)
    ensures AddBlocks(live, []) == live && DropBlocks(live, []) == live && Span([]) == 0 && Layout([], [])
    ensures FreshIn(live, [])
  {
  }

  lemma NoPages()
    ensures Layout([], [])
  {
  }

  lemma FreshAppend(live: map<nat, nat>, bs: seq<Block>, b: Block)
    requires FreshIn(live, bs) && b.id !in AddBlocks(live, bs)
    ensures FreshIn(live, bs + [b]) && AddBlocks(live, bs + [b]) == AddBlocks(live, bs)[b.id := b.order]
  {
    AddedBlocks(live, bs);
    assert (bs + [b])[..|bs|] == bs;
  }

  lemma OwnedNext(live: map<nat, nat>, bs: seq<Block>, j: nat)
    requires Owned(live, bs) && j < |bs|
    ensures bs[j].id in DropBlocks(live, bs[..j]) && DropBlocks(live, bs[..j])[bs[j].id] == bs[j].order
    ensures DropBlocks(live, bs[..j + 1]) == DropBlocks(live, bs[..j]) - {bs[j].id}
  {
    DroppedBlocks(live, bs[..j]);
    assert bs[..j + 1][..j] == bs[..j];
  }

  /** Exactly the starts of blocks lie inside. */
  lemma HeadsInside(pages: seq<Page>, bs: seq<Block>, j: nat)
    requires Layout(pages, bs) && j <= |bs|
    ensures Span(bs[..j]) < |pages| <==> j < |bs|
  {
    if j < |bs| {
      HeadAt(pages, bs, j);
    } else {
      assert bs[..j] == bs;
    }
  }

  lemma LayoutEnds(pages: seq<Page>, bs: seq<Block>)
    requires Layout(pages, bs)
    ensures Span(bs[..0]) == 0 && (0 < |pages| <==> 0 < |bs|)
  {
  }
}
