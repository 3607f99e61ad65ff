/** Search trees of address ranges keyed by base address. Rebalancing changes neither
    order nor contents of such a tree, so it is left out: only the in-order sequence and
    the search paths matter. */
module IntervalTree {
  import opened Wrappers

  datatype Entry = Entry(base: nat, size: nat)
  {
    function End(): nat { base + size }
  }

  datatype Tree = Leaf | Node(left: Tree, entry: Entry, right: Tree)

  function InOrder(t: Tree): seq<Entry> {
    match t
    case Leaf => []
    case Node(l, e, r) => InOrder(l) + [e] + InOrder(r)
  }

  ghost predicate Sorted(es: seq<Entry>) {
    forall i, j :: 0 <= i < j < |es| ==> es[i].base < es[j].base
  }

  ghost predicate SearchTree(t: Tree) { Sorted(InOrder(t)) }

  ghost predicate Below(es: seq<Entry>, base: nat) { forall e <- es :: e.base < base }

  ghost predicate Above(es: seq<Entry>, base: nat) { forall e <- es :: base < e.base }

  lemma SortedParts(a: seq<Entry>, e: Entry, b: seq<Entry>)
    ensures Sorted(a + [e] + b) <==> Sorted(a) && Sorted(b) && Below(a, e.base) && Above(b, e.base)
  {
    var es := a + [e] + b;
    assert forall i :: 0 <= i < |a| ==> es[i] == a[i];
    assert es[|a|] == e;
    assert forall i :: 0 <= i < |b| ==> es[|a| + 1 + i] == b[i];
  }

  /** `base` separates the entries of `a` from those of `b`. */
  ghost predicate Splits(a: seq<Entry>, base: nat, b: seq<Entry>) {
    Below(a, base) && Above(b, base)
  }

  // ---- insertion ----

  /** Insertion at the leaf the search path ends in; None for a duplicate base. */
  function Insert(t: Tree, e: Entry): Option<Tree> {
    match t
    case Leaf => Some(Node(Leaf, e, Leaf))
    case Node(l, n, r) =>
      if e.base < n.base then
        var l' := Insert(l, e);
        if l'.None? then None else Some(Node(l'.value, n, r))
      else if e.base > n.base then
        var r' := Insert(r, e);
        if r'.None? then None else Some(Node(l, n, r'.value))
      else None
  }

  ghost predicate Inserted(es: seq<Entry>, e: Entry, es': seq<Entry>, a: seq<Entry>, b: seq<Entry>) {
    es == a + b && Splits(a, e.base, b) && es' == a + [e] + b
  }

  lemma InsertedLeft(es: seq<Entry>, e: Entry, es': seq<Entry>, a: seq<Entry>, b: seq<Entry>, n: Entry, c: seq<Entry>)
    requires Inserted(es, e, es', a, b) && e.base < n.base && Above(c, n.base)
    ensures Inserted(es + [n] + c, e, es' + [n] + c, a, b + [n] + c)
  {
    assert es + [n] + c == a + (b + [n] + c);
    assert es' + [n] + c == a + [e] + (b + [n] + c);
  }

  lemma InsertedRight(es: seq<Entry>, e: Entry, es': seq<Entry>, a: seq<Entry>, b: seq<Entry>, n: Entry, c: seq<Entry>)
    requires Inserted(es, e, es', a, b) && n.base < e.base && Below(c, n.base)
    ensures Inserted(c + [n] + es, e, c + [n] + es', c + [n] + a, b)
  {
    assert c + [n] + es == (c + [n] + a) + b;
    assert c + [n] + es' == (c + [n] + a) + [e] + b;
  }

  lemma InsertedIntoEmpty(e: Entry)
    ensures Inserted([], e, [e], [], [])
  {
    assert [] + [e] + [] == [e];
  }

  lemma InsertedIsNew(es: seq<Entry>, e: Entry, es': seq<Entry>, a: seq<Entry>, b: seq<Entry>)
    requires Inserted(es, e, es', a, b)
    ensures forall x <- es :: x.base != e.base
  {
  }

  /** Insertion puts the entry at its place in the order, and fails exactly when the
      base is taken. */
  lemma {:induction false} InsertKeepsOrder(t: Tree, e: Entry) returns (a: seq<Entry>, b: seq<Entry>)
    requires SearchTree(t)
    ensures Insert(t, e).Some? ==> Inserted(InOrder(t), e, InOrder(Insert(t, e).value), a, b)
    ensures Insert(t, e).None? <==> exists x <- InOrder(t) :: x.base == e.base
  {
    hide Inserted, Sorted;
    a, b := [], [];
    match t {
      case Leaf =>
        InsertedIntoEmpty(e);
        assert Insert(t, e).value == Node(Leaf, e, Leaf);
        assert InOrder(Insert(t, e).value) == [e];
      case Node(l, n, r) =>
        SortedParts(InOrder(l), n, InOrder(r));
        assert n in InOrder(t);
        if e.base < n.base {
          a, b := InsertKeepsOrder(l, e);
          if Insert(l, e).Some? {
            InsertedLeft(InOrder(l), e, InOrder(Insert(l, e).value), a, b, n, InOrder(r));
            b := b + [n] + InOrder(r);
          }
        } else if e.base > n.base {
          a, b := InsertKeepsOrder(r, e);
          if Insert(r, e).Some? {
            InsertedRight(InOrder(r), e, InOrder(Insert(r, e).value), a, b, n, InOrder(l));
            a := InOrder(l) + [n] + a;
          }
        }
    }
    if Insert(t, e).Some? {
      InsertedIsNew(InOrder(t), e, InOrder(Insert(t, e).value), a, b);
    }
  }

  lemma InsertedKeepsSorted(es: seq<Entry>, e: Entry, es': seq<Entry>, a: seq<Entry>, b: seq<Entry>)
    requires Sorted(es) && Inserted(es, e, es', a, b)
    ensures Sorted(es') && multiset(es') == multiset(es) + multiset{e}
  {
    assert forall i :: 0 <= i < |a| ==> es[i] == a[i];
    assert forall i :: 0 <= i < |b| ==> es[|a| + i] == b[i];
    SortedParts(a, e, b);
  }

  // ---- removal ----

  function Join(l: Tree, r: Tree): Tree {
    match l
    case Leaf => r
    case Node(ll, e, lr) => Node(ll, e, Join(lr, r))
  }

  lemma {:induction false} JoinInOrder(l: Tree, r: Tree)
    ensures InOrder(Join(l, r)) == InOrder(l) + InOrder(r)
  {
    match l
    case Leaf =>
    case Node(ll, e, lr) =>
      JoinInOrder(lr, r);
      assert InOrder(ll) + [e] + InOrder(lr) + InOrder(r) == InOrder(ll) + [e] + (InOrder(lr) + InOrder(r));
  }

  function Remove(t: Tree, base: nat): Tree {
    match t
    case Leaf => Leaf
    case Node(l, n, r) =>
      if base < n.base then Node(Remove(l, base), n, r)
      else if base > n.base then Node(l, n, Remove(r, base))
      else Join(l, r)
  }

  /** The entry `n` sits between `a` and `b`. */
  ghost predicate Between(es: seq<Entry>, a: seq<Entry>, n: Entry, b: seq<Entry>) {
    es == a + [n] + b && Splits(a, n.base, b)
  }

  /** An entry of a tree is in the left part, at the root, or in the right part. */
  lemma Locate(a: seq<Entry>, n: Entry, b: seq<Entry>, x: Entry)
    requires x in a + [n] + b && Splits(a, n.base, b)
    ensures x.base < n.base ==> x in a
    ensures x.base == n.base ==> x == n
    ensures x.base > n.base ==> x in b
  {
  }

  lemma BetweenLeft(es: seq<Entry>, a: seq<Entry>, e: Entry, b: seq<Entry>, n: Entry, c: seq<Entry>)
    requires Between(es, a, e, b) && e.base < n.base && Above(c, n.base)
    ensures Between(es + [n] + c, a, e, b + [n] + c)
    ensures (a + b) + [n] + c == a + (b + [n] + c)
  {
    assert es + [n] + c == a + [e] + (b + [n] + c);
  }

  lemma BetweenRight(es: seq<Entry>, a: seq<Entry>, e: Entry, b: seq<Entry>, n: Entry, c: seq<Entry>)
    requires Between(es, a, e, b) && n.base < e.base && Below(c, n.base)
    ensures Between(c + [n] + es, c + [n] + a, e, b)
    ensures c + [n] + (a + b) == (c + [n] + a) + b
  {
    assert c + [n] + es == (c + [n] + a) + [e] + b;
  }

  /** Removal takes out the entry asked for, keeps every other one in order, and the
      predecessor found by walking the tree is the entry just before it. */
  lemma {:induction false} RemoveInOrder(t: Tree, e: Entry) returns (a: seq<Entry>, b: seq<Entry>)
    requires SearchTree(t) && e in InOrder(t)
    ensures Between(InOrder(t), a, e, b)
    ensures InOrder(Remove(t, e.base)) == a + b
  {
    hide Between, Sorted;
    match t
    case Node(l, n, r) =>
      SortedParts(InOrder(l), n, InOrder(r));
      Locate(InOrder(l), n, InOrder(r), e);
      if e.base < n.base {
        a, b := RemoveInOrder(l, e);
        BetweenLeft(InOrder(l), a, e, b, n, InOrder(r));
        b := b + [n] + InOrder(r);
      } else if e.base > n.base {
        a, b := RemoveInOrder(r, e);
        BetweenRight(InOrder(r), a, e, b, n, InOrder(l));
        a := InOrder(l) + [n] + a;
      } else {
        a, b := InOrder(l), InOrder(r);
        JoinInOrder(l, r);
        IsBetween(a, e, b);
      }
  }

  lemma IsBetween(a: seq<Entry>, e: Entry, b: seq<Entry>)
    requires Splits(a, e.base, b)
    ensures Between(a + [e] + b, a, e, b)
  {
  }

  // ---- predecessor (rb_prev) ----

  /** The in-order predecessor: the last right turn on the way to `base`. */
  function Previous(t: Tree, base: nat, best: Option<Entry>): Option<Entry> {
    match t
    case Leaf => best
    case Node(l, n, r) =>
      if base <= n.base then Previous(l, base, best) else Previous(r, base, Some(n))
  }

  function Last(es: seq<Entry>, best: Option<Entry>): Option<Entry> {
    if es == [] then best else Some(es[|es| - 1])
  }

  ghost predicate AtOrAbove(es: seq<Entry>, base: nat) { forall e <- es :: base <= e.base }

  lemma {:induction false} PreviousInOrder(t: Tree, base: nat, best: Option<Entry>, a: seq<Entry>, b: seq<Entry>)
    requires SearchTree(t) && InOrder(t) == a + b && Below(a, base) && AtOrAbove(b, base)
    ensures Previous(t, base, best) == Last(a, best)
  {
    hide Sorted;
    match t
    case Leaf =>
    case Node(l, n, r) =>
      SortedParts(InOrder(l), n, InOrder(r));
      if base <= n.base {
        CutLeft(InOrder(l), n, InOrder(r), a, b, base);
        PreviousInOrder(l, base, best, a, InOrder(l)[|a|..]);
      } else {
        CutRight(InOrder(l), n, InOrder(r), a, b, base);
        PreviousInOrder(r, base, Some(n), a[|InOrder(l)| + 1..], b);
      }
  }

  lemma InOnePart(a: seq<Entry>, b: seq<Entry>, k: nat)
    requires k < |a + b|
    ensures k < |a| ==> (a + b)[k] in a
    ensures k >= |a| ==> (a + b)[k] in b
  {
  }

  lemma CutLeft(l: seq<Entry>, n: Entry, r: seq<Entry>, a: seq<Entry>, b: seq<Entry>, base: nat)
    requires l + [n] + r == a + b && Below(a, base) && AtOrAbove(b, base) && base <= n.base
    ensures |a| <= |l| && l == a + l[|a|..] && AtOrAbove(l[|a|..], base)
  {
    var es := a + b;
    assert es[|l|] == n;
    InOnePart(a, b, |l|);
    assert l == es[..|l|] && a == es[..|a|];
    forall e | e in l[|a|..] ensures base <= e.base {
      var i :| 0 <= i < |l| - |a| && l[|a|..][i] == e;
      assert es[|a| + i] == b[i] == e;
    }
  }

  lemma CutRight(l: seq<Entry>, n: Entry, r: seq<Entry>, a: seq<Entry>, b: seq<Entry>, base: nat)
    requires l + [n] + r == a + b && Below(a, base) && AtOrAbove(b, base) && n.base < base
    ensures |l| < |a| && r == a[|l| + 1..] + b && Below(a[|l| + 1..], base)
    ensures a[..|l| + 1] == l + [n] && forall best :: Last(a, best) == Last(a[|l| + 1..], Some(n))
  {
    var es := a + b;
    assert es[|l|] == n;
    InOnePart(a, b, |l|);
    assert r == es[|l| + 1..] && a[..|l| + 1] == es[..|l| + 1];
    assert a[|l|] == n;
  }
}
