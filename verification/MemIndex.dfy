/** The index of memory nodes by GPU address (hgsl_memory.c, hgsl_memory.h): a search tree
    by base address, looked up for a range. Range ends are 64-bit sums and wrap. */
module MemIndex {
  import opened IntervalTree
  import opened Timestamps
  import opened Units
  import opened Wrappers

  /** End of a node's range as the code computes it. */
  function End64(e: Entry): u64 { Wrap64(e.base + e.size) }

  /** `hgsl_mem_range_inspect` */
  predicate Inspect(e: Entry, gpuaddr: u64, size: u64, accurate: bool) {
    if accurate then e.base == gpuaddr && e.size == size
    else e.base <= gpuaddr && End64(e) >= Wrap64(gpuaddr + size)
  }

  /** The descent of `hgsl_mem_find_node_locked`. */
  function Lookup(t: Tree, gpuaddr: u64, size: u64, accurate: bool): Option<Entry> {
    match t
    case Leaf => None
    case Node(l, n, r) =>
      if Inspect(n, gpuaddr, size, accurate) then Some(n)
      else if n.base < gpuaddr then Lookup(r, gpuaddr, size, accurate)
      else if n.base > gpuaddr then Lookup(l, gpuaddr, size, accurate)
      else None
  }

  /** The same descent as the loop it is. */
  method FindNode(t: Tree, gpuaddr: u64, size: u64, accurate: bool) returns (r: Option<Entry>)
    ensures r == Lookup(t, gpuaddr, size, accurate)
  {
    var cur := t;
    while cur.Node?
      invariant Lookup(cur, gpuaddr, size, accurate) == Lookup(t, gpuaddr, size, accurate)
      decreases cur
    {
      var n := cur.entry;
      if Inspect(n, gpuaddr, size, accurate) {
        return Some(n);
      } else if n.base < gpuaddr {
        cur := cur.right;
      } else if n.base > gpuaddr {
        cur := cur.left;
      } else {
        return None;
      }
    }
    return None;
  }

  /** What a scan over all nodes would say. */
  ghost predicate ScanFinds(es: seq<Entry>, gpuaddr: u64, size: u64, accurate: bool) {
    exists e <- es :: Inspect(e, gpuaddr, size, accurate)
  }

  /** Whatever a lookup returns is in the tree and matches. */
  lemma {:induction false} LookupIsSound(t: Tree, gpuaddr: u64, size: u64, accurate: bool)
    ensures var r := Lookup(t, gpuaddr, size, accurate);
            r.Some? ==> r.value in InOrder(t) && Inspect(r.value, gpuaddr, size, accurate)
  {
    hide Inspect;
    match t
    case Leaf =>
    case Node(l, n, r) =>
      assert n in InOrder(t);
      LookupIsSound(l, gpuaddr, size, accurate);
      LookupIsSound(r, gpuaddr, size, accurate);
  }

  /** With the distinct base addresses that insertion keeps, an exact lookup succeeds
      exactly when a scan would, and finds the only match there is. */
  lemma {:induction false} ExactLookupIsComplete(t: Tree, gpuaddr: u64, size: u64)
    requires SearchTree(t)
    ensures Lookup(t, gpuaddr, size, true).Some? <==> ScanFinds(InOrder(t), gpuaddr, size, true)
    ensures forall e <- InOrder(t) :: e.base == gpuaddr && e.size == size ==> Lookup(t, gpuaddr, size, true) == Some(e)
    ensures var r := Lookup(t, gpuaddr, size, true);
            r.Some? ==> r.value in InOrder(t) && r.value.base == gpuaddr && r.value.size == size
  {
    match t
    case Leaf =>
    case Node(l, n, r) =>
      SortedParts(InOrder(l), n, InOrder(r));
      assert SearchTree(l) && SearchTree(r) && n in InOrder(t);
      ExactLookupIsComplete(l, gpuaddr, size);
      ExactLookupIsComplete(r, gpuaddr, size);
      LookupIsSound(t, gpuaddr, size, true);
      forall e | e in InOrder(t) && Inspect(e, gpuaddr, size, true)
        ensures Lookup(t, gpuaddr, size, true) == Some(e)
      {
        Locate(InOrder(l), n, InOrder(r), e);
      }
  }

  // ---- containment ----

  /** No range ends after a range that starts later. */
  ghost predicate EndsInOrder(es: seq<Entry>) {
    forall i, j :: 0 <= i < j < |es| ==> End64(es[i]) <= End64(es[j])
  }

  /** A lookup for a range succeeds exactly when a scan would, whatever the range. */
  ghost predicate Complete(t: Tree) {
    forall gpuaddr: u64, size: u64 ::
      Lookup(t, gpuaddr, size, false).Some? <==> ScanFinds(InOrder(t), gpuaddr, size, false)
  }

  lemma EndsOfParts(a: seq<Entry>, n: Entry, b: seq<Entry>)
    requires EndsInOrder(a + [n] + b)
    ensures EndsInOrder(a) && EndsInOrder(b) && forall e <- a :: End64(e) <= End64(n)
  {
    hide End64;
    var es := a + [n] + b;
    assert es[|a|] == n;
    assert forall i :: 0 <= i < |a| ==> es[i] == a[i];
    assert forall i :: 0 <= i < |b| ==> es[|a| + 1 + i] == b[i];
  }

  lemma {:induction false} LookupIsComplete(t: Tree, gpuaddr: u64, size: u64)
    requires SearchTree(t) && EndsInOrder(InOrder(t))
    ensures Lookup(t, gpuaddr, size, false).Some? <==> ScanFinds(InOrder(t), gpuaddr, size, false)
  {
    LookupIsSound(t, gpuaddr, size, false);
    match t
    case Leaf =>
    case Node(l, n, r) =>
      hide EndsInOrder, Sorted;
      SortedParts(InOrder(l), n, InOrder(r));
      EndsOfParts(InOrder(l), n, InOrder(r));
      LookupIsComplete(l, gpuaddr, size);
      LookupIsComplete(r, gpuaddr, size);
      if ScanFinds(InOrder(t), gpuaddr, size, false) && !Inspect(n, gpuaddr, size, false) {
        var e :| e in InOrder(t) && Inspect(e, gpuaddr, size, false);
        Locate(InOrder(l), n, InOrder(r), e);
      }
  }

  /** A tree that leans to one side. */
  function Spine(es: seq<Entry>): (t: Tree)
    ensures InOrder(t) == es
  {
    if es == [] then Leaf else Node(Leaf, es[0], Spine(es[1..]))
  }

  /** A range `i` that outlasts a later one `j` is missed when `j` is the root: the lookup
      for the part of `i` from the start of `j` stops there. */
  lemma OutlastingRangeIsMissed(es: seq<Entry>, i: nat, j: nat) returns (t: Tree)
    requires Sorted(es) && i < j < |es| && es[j].base < TWO64 && End64(es[i]) > End64(es[j])
    ensures InOrder(t) == es && !Complete(t)
  {
    var n := es[j];
    t := Node(Spine(es[..j]), n, Spine(es[j + 1..]));
    assert es == es[..j] + [n] + es[j + 1..];
    var size := Wrap64(End64(es[i]) - n.base);
    assert Wrap64(n.base + size) == End64(es[i]) by { WrapSum(n.base, End64(es[i])); }
    assert Inspect(es[i], n.base, size, false) && es[i] in es;
    assert Lookup(t, n.base, size, false) == None;
  }

  lemma WrapSum(a: int, b: u64)
    ensures Wrap64(a + Wrap64(b - a)) == b
  {
    var x := b - a;
    var q := x / TWO64;
    assert x == q * TWO64 + Wrap64(x);
  }

  /** Range lookup agrees with a scan in every tree over these nodes exactly when no range
      outlasts one that starts later. */
  lemma RangeLookupIsCompleteExactly(es: seq<Entry>)
    requires Sorted(es) && forall e <- es :: e.base < TWO64
    ensures EndsInOrder(es) <==> forall t: Tree :: InOrder(t) == es ==> Complete(t)
  {
    if EndsInOrder(es) {
      forall t: Tree | InOrder(t) == es ensures Complete(t) {
        forall gpuaddr: u64, size: u64
          ensures Lookup(t, gpuaddr, size, false).Some? <==> ScanFinds(InOrder(t), gpuaddr, size, false)
        {
          LookupIsComplete(t, gpuaddr, size);
        }
      }
    } else {
      var i, j :| 0 <= i < j < |es| && End64(es[i]) > End64(es[j]);
      var t := OutlastingRangeIsMissed(es, i, j);
      assert InOrder(t) == es && !Complete(t);
    }
  }

  /** No node of `t` has, on its left, a range that outlasts both it and every node that the
      search passed to the right of on its way, of which `passed` is the latest end. */
  ghost predicate NoneHidden(t: Tree, passed: int) {
    match t
    case Leaf => true
    case Node(l, n, r) =>
      && (forall e <- InOrder(l) :: End64(e) <= Max(passed, End64(n)))
      && NoneHidden(l, passed)
      && NoneHidden(r, Max(passed, End64(n)))
  }

  lemma {:induction false} NoneHiddenIsEnough(t: Tree, passed: int, gpuaddr: u64, size: u64)
    requires SearchTree(t) && NoneHidden(t, passed) && Wrap64(gpuaddr + size) > passed
    requires ScanFinds(InOrder(t), gpuaddr, size, false)
    ensures Lookup(t, gpuaddr, size, false).Some?
  {
    match t
    case Node(l, n, r) =>
      hide Sorted;
      SortedParts(InOrder(l), n, InOrder(r));
      if !Inspect(n, gpuaddr, size, false) {
        var e :| e in InOrder(t) && Inspect(e, gpuaddr, size, false);
        Locate(InOrder(l), n, InOrder(r), e);
        if n.base < gpuaddr {
          NoneHiddenIsEnough(r, Max(passed, End64(n)), gpuaddr, size);
        } else if n.base > gpuaddr {
          NoneHiddenIsEnough(l, passed, gpuaddr, size);
        }
      }
  }

  /** A lookup from the base of the node `x` of `t` that fails although a range matches, and
      that nothing ending at `passed` would have answered. */
  ghost predicate Missed(t: Tree, passed: int, x: Entry, size: u64) {
    && x in InOrder(t) && x.base < TWO64 && Wrap64(x.base + size) > passed
    && Lookup(t, x.base, size, false).None? && ScanFinds(InOrder(t), x.base, size, false)
  }

  lemma MissedAtRoot(t: Tree, passed: int, e: Entry) returns (size: u64)
    requires t.Node? && SearchTree(t) && t.entry.base < TWO64
    requires e in InOrder(t.left) && End64(e) > Max(passed, End64(t.entry))
    ensures Missed(t, passed, t.entry, size)
  {
    hide Sorted;
    var n := t.entry;
    SortedParts(InOrder(t.left), n, InOrder(t.right));
    size := Wrap64(End64(e) - n.base);
    WrapSum(n.base, End64(e));
    assert Inspect(e, n.base, size, false) && e in InOrder(t) && n in InOrder(t);
  }

  lemma MissedOnTheLeft(t: Tree, passed: int, x: Entry, size: u64)
    requires t.Node? && SearchTree(t) && Missed(t.left, passed, x, size)
    ensures Missed(t, passed, x, size)
  {
    hide Sorted, End64;
    SortedParts(InOrder(t.left), t.entry, InOrder(t.right));
    var e :| e in InOrder(t.left) && Inspect(e, x.base, size, false);
    assert e in InOrder(t) && x in InOrder(t);
  }

  lemma MissedOnTheRight(t: Tree, passed: int, x: Entry, size: u64)
    requires t.Node? && SearchTree(t) && Missed(t.right, Max(passed, End64(t.entry)), x, size)
    ensures Missed(t, passed, x, size)
  {
    hide Sorted;
    SortedParts(InOrder(t.left), t.entry, InOrder(t.right));
    var e :| e in InOrder(t.right) && Inspect(e, x.base, size, false);
    assert e in InOrder(t) && x in InOrder(t);
  }

  /** A hidden range is missed by the lookup, from the base of the node that hides it, for
      what lies between there and its end. */
  lemma {:induction false} HiddenIsMissed(t: Tree, passed: int) returns (x: Entry, size: u64)
    requires SearchTree(t) && !NoneHidden(t, passed) && forall e <- InOrder(t) :: e.base < TWO64
    ensures Missed(t, passed, x, size)
  {
    hide Sorted, Missed, End64;
    match t
    case Node(l, n, r) =>
      SortedParts(InOrder(l), n, InOrder(r));
      assert n in InOrder(t);
      if e :| e in InOrder(l) && End64(e) > Max(passed, End64(n)) {
        x := n;
        size := MissedAtRoot(t, passed, e);
      } else if !NoneHidden(l, passed) {
        x, size := HiddenIsMissed(l, passed);
        MissedOnTheLeft(t, passed, x, size);
      } else {
        x, size := HiddenIsMissed(r, Max(passed, End64(n)));
        MissedOnTheRight(t, passed, x, size);
      }
  }

  /** Tree by tree: range lookup agrees with a scan exactly when no range is hidden from the
      search path of a node. */
  lemma TreeLookupIsCompleteExactly(t: Tree)
    requires SearchTree(t) && forall e <- InOrder(t) :: e.base < TWO64
    ensures Complete(t) <==> NoneHidden(t, -1)
  {
    if NoneHidden(t, -1) {
      forall gpuaddr: u64, size: u64
        ensures Lookup(t, gpuaddr, size, false).Some? <==> ScanFinds(InOrder(t), gpuaddr, size, false)
      {
        LookupIsSound(t, gpuaddr, size, false);
        if ScanFinds(InOrder(t), gpuaddr, size, false) {
          NoneHiddenIsEnough(t, -1, gpuaddr, size);
        }
      }
    } else {
      var x, size := HiddenIsMissed(t, -1);
      assert Lookup(t, x.base, size, false).None?;
    }
  }

  /** Two nodes added in this order make such a tree: the second part of the range at
      0x1000 is not found, for its base is that of the node at 0x2000, which is shorter. */
  lemma TwoNodesCanHide()
    ensures var short, long := Entry(0x2000, 0x1000), Entry(0x1000, 0x4000);
            var t1 := Insert(Leaf, short);
            && t1.Some? && Insert(t1.value, long) == Some(Node(Node(Leaf, long, Leaf), short, Leaf))
            && Lookup(Insert(t1.value, long).value, 0x2000, 0x2000, false) == None
            && Inspect(long, 0x2000, 0x2000, false)
  {
  }

  /** The same ranges with one more between them can be found, since it is the root of the
      balanced tree and hides nothing: the order of ends alone does not decide. */
  lemma BalanceCanUncover()
    ensures var a, b, c := Entry(0x1000, 0x4000), Entry(0x1800, 0x4000), Entry(0x2000, 0x1000);
            var t := Node(Node(Leaf, a, Leaf), b, Node(Leaf, c, Leaf));
            SearchTree(t) && Complete(t) && !EndsInOrder(InOrder(t))
  {
    var a, b, c := Entry(0x1000, 0x4000), Entry(0x1800, 0x4000), Entry(0x2000, 0x1000);
    var t := Node(Node(Leaf, a, Leaf), b, Node(Leaf, c, Leaf));
    assert InOrder(Node(Leaf, a, Leaf)) == [a] && InOrder(Node(Leaf, c, Leaf)) == [c];
    assert InOrder(t) == [a, b, c];
    hide Complete, Lookup, ScanFinds;
    TreeLookupIsCompleteExactly(t);
    assert End64(InOrder(t)[1]) > End64(InOrder(t)[2]);
  }

  /** Live ranges that do not overlap, below 2^64, meet the condition. */
  lemma DisjointRangesQualify(es: seq<Entry>)
    requires forall e <- es :: e.End() < TWO64
    requires forall i, j :: 0 <= i < j < |es| ==> es[i].End() <= es[j].base
    ensures EndsInOrder(es)
  {
    forall i, j | 0 <= i < j < |es| ensures End64(es[i]) <= End64(es[j]) {
      assert es[i] in es && es[j] in es;
    }
  }

  /** What a match is: the very range asked for, or, as far as no end wraps, one around it. */
  ghost predicate InspectMeans(e: Entry, gpuaddr: u64, size: u64, accurate: bool) {
    && (accurate ==> (Inspect(e, gpuaddr, size, accurate) <==> e.base == gpuaddr && e.size == size))
    && (!accurate && e.End() < TWO64 && gpuaddr + size < TWO64 ==>
          (Inspect(e, gpuaddr, size, accurate) <==> e.base <= gpuaddr && gpuaddr + size <= e.End()))
  }

  lemma MatchExactly(e: Entry, gpuaddr: u64, size: u64, accurate: bool)
    ensures InspectMeans(e, gpuaddr, size, accurate)
  {}

  // ---- the index object ----

  class Index {
    var root: Tree

    /** Base addresses are distinct and in order. */
    ghost predicate Valid()
      reads this
    {
      SearchTree(root)
    }

    constructor ()
      ensures Valid() && InOrder(root) == []
    {
      root := Leaf;
    }

    /** `hgsl_mem_add_node`: refused exactly when the base address is taken. */
    method Add(e: Entry) returns (ok: bool)
      requires Valid()
      modifies this
      ensures Valid()
      ensures ok <==> forall x <- old(InOrder(root)) :: x.base != e.base
      ensures ok ==> multiset(InOrder(root)) == old(multiset(InOrder(root))) + multiset{e}
      ensures !ok ==> root == old(root)
    {
      hide Sorted, Inserted;
      var inserted := Insert(root, e);
      ghost var a, b := InsertKeepsOrder(root, e);
      ok := inserted.Some?;
      if ok {
        InsertedKeepsSorted(InOrder(root), e, InOrder(inserted.value), a, b);
        root := inserted.value;
      }
    }

    /** `hgsl_mem_find_node_locked`: agrees with a scan, for ranges as long as none is hidden
        in the tree, which holds whatever the tree if no range outlasts one that starts
        later. */
    method Find(gpuaddr: u64, size: u64, accurate: bool) returns (r: Option<Entry>)
      requires Valid()
      ensures r.Some? ==> r.value in InOrder(root) && Inspect(r.value, gpuaddr, size, accurate)
      ensures accurate || NoneHidden(root, -1) || EndsInOrder(InOrder(root)) ==>
                (r.Some? <==> ScanFinds(InOrder(root), gpuaddr, size, accurate))
      ensures accurate && r.Some? ==> r.value.base == gpuaddr && r.value.size == size
      ensures accurate && r.None? ==> forall e <- InOrder(root) :: !(e.base == gpuaddr && e.size == size)
      ensures !accurate && r.Some? && r.value.End() < TWO64 && gpuaddr + size < TWO64 ==>
                r.value.base <= gpuaddr && gpuaddr + size <= r.value.End()
      ensures !accurate && r.None? && (NoneHidden(root, -1) || EndsInOrder(InOrder(root))) && gpuaddr + size < TWO64 ==>
                forall e <- InOrder(root) :: e.End() < TWO64 ==> !(e.base <= gpuaddr && gpuaddr + size <= e.End())
    {
      hide Sorted, Inspect, EndsInOrder, NoneHidden;
      forall e | e in InOrder(root) ensures InspectMeans(e, gpuaddr, size, accurate) {
        MatchExactly(e, gpuaddr, size, accurate);
      }
      r := FindNode(root, gpuaddr, size, accurate);
      LookupIsSound(root, gpuaddr, size, accurate);
      if accurate {
        ExactLookupIsComplete(root, gpuaddr, size);
      } else if EndsInOrder(InOrder(root)) {
        LookupIsComplete(root, gpuaddr, size);
      } else if NoneHidden(root, -1) && ScanFinds(InOrder(root), gpuaddr, size, false) {
        NoneHiddenIsEnough(root, -1, gpuaddr, size);
      }
    }
  }
}
