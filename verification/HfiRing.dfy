/** The HFI message ring: the writer that submits commands (hgsl.c) and the reader of the
    inter-processor queue (hgsl_gmugos.c), composed as one queue with one producer and one
    consumer. Indices and sizes are in dwords; each index has one writer. */
module HfiRing {
  import opened Timestamps
  import opened Wrappers

  type Msg = seq<u32>

  // ---- sizes ----

  function Align4(n: nat): (r: nat)
    ensures n <= r < n + 4 && r % 4 == 0
  {
    (n + 3) / 4 * 4
  }

  /** The 8-bit size field of a message header. */
  function SizeField(header: u32): nat { (header / 256) % 256 }

  const HTOF_MSG_ISSUE_CMD: nat := 130
  const MAX_HFI_MSG_SIZE: nat := 255
  const HGSL_CTXT_QUEUE_BODY_DWSIZE: nat := 256
  const ECP_MAX_NUM_IB1: nat := 2000
  const MSG_ISSUE_INF_SZ: nat := 8
  const IB_DESC_SZ: nat := 3

  /** The header word; its fields do not overlap, so adding them up sets them side by side. */
  function IssueHeader(size: nat, seqNo: nat): u32
    requires size <= 255
  {
    HTOF_MSG_ISSUE_CMD + size * 256 + seqNo % 4096 * 0x10_0000
  }

  /** The size survives its field. */
  lemma SizeFieldOfHeader(size: nat, seqNo: nat)
    requires size <= 255
    ensures SizeField(IssueHeader(size, seqNo)) == size
  {
    SecondByte(size, seqNo % 4096);
  }

  /** The fields of the header: the message type in bits 0 to 7, the size in bits 8 to 15, nothing
      in bits 16 to 19, the low twelve bits of the sequence number in bits 20 to 31. */
  lemma HeaderFields(size: nat, seqNo: nat)
    requires size <= 255
    ensures var h := IssueHeader(size, seqNo);
            && h % 0x100 == 130
            && h / 0x100 % 0x100 == size
            && h / 0x1_0000 % 0x10 == 0
            && h / 0x10_0000 == seqNo % 4096
  {
    SizeFieldOfHeader(size, seqNo);
    TopFields(size, seqNo % 4096);
  }

  lemma TopFields(size: nat, q: nat)
    requires size <= 255
    ensures var h := HTOF_MSG_ISSUE_CMD + size * 256 + q * 0x10_0000;
            h % 0x100 == 130 && h / 0x1_0000 % 0x10 == 0 && h / 0x10_0000 == q
  {
    var low := HTOF_MSG_ISSUE_CMD + size * 256;
    assert low < 0x1_0000;
    assert 16 * q % 16 == 0;
  }

  lemma SecondByte(size: nat, q: nat)
    requires size <= 255
    ensures (HTOF_MSG_ISSUE_CMD + size * 256 + q * 0x10_0000) / 256 % 256 == size
  {
    var x := size + q * 4096;
    LowByte(x, HTOF_MSG_ISSUE_CMD);
    LowByte(q * 16, size);
    assert HTOF_MSG_ISSUE_CMD + size * 256 + q * 0x10_0000 == 256 * x + HTOF_MSG_ISSUE_CMD;
    assert x == 256 * (q * 16) + size;
  }

  lemma LowByte(k: nat, m: nat)
    requires m < 256
    ensures (256 * k + m) / 256 == k && (256 * k + m) % 256 == m
  {
  }

  datatype Shape = Shape(dwords: nat, batch: bool)

  /** Size of the message for `numIbs` buffers, and whether their descriptors go into the
      separate buffer instead of the message; None when the request is refused. */
  function IssueShape(numIbs: nat, queueSize: nat): Option<Shape> {
    if numIbs > ECP_MAX_NUM_IB1 then None
    else
      var dwords := if numIbs > 0 then MSG_ISSUE_INF_SZ + numIbs * IB_DESC_SZ else MSG_ISSUE_INF_SZ;
      if Align4(dwords) >= queueSize || Align4(dwords) > 255 then Some(Shape(MSG_ISSUE_INF_SZ, true))
      else Some(Shape(dwords, false))
  }

  /** Every message the issue path builds fits an empty context queue, its size survives
      the 8-bit field, and descriptors move out of the message exactly when it would not
      have fitted. */
  lemma IssuedMessagesFit(numIbs: nat, seqNo: nat)
    ensures IssueShape(numIbs, HGSL_CTXT_QUEUE_BODY_DWSIZE).Some? <==> numIbs <= 2000
    ensures IssueShape(numIbs, HGSL_CTXT_QUEUE_BODY_DWSIZE).Some? ==>
              var s := IssueShape(numIbs, HGSL_CTXT_QUEUE_BODY_DWSIZE).value;
              && 0 < s.dwords <= 255
              && Align4(s.dwords) <= HGSL_CTXT_QUEUE_BODY_DWSIZE - 1
              && SizeField(IssueHeader(s.dwords, seqNo)) == s.dwords
              && (s.batch <==> 8 + 3 * numIbs > 252)
              && (!s.batch ==> s.dwords == 8 + 3 * numIbs)
  {
    if numIbs <= 2000 {
      var s := IssueShape(numIbs, HGSL_CTXT_QUEUE_BODY_DWSIZE).value;
      SizeFieldOfHeader(s.dwords, seqNo);
    }
  }

  /** A message a reader can delimit: its header states its own length. */
  predicate WellFormed(m: Msg) { 0 < |m| <= 255 && SizeField(m[0]) == |m| }

  // ---- contents of the ring ----

  /** The ring seen from `start`. */
  function Unrolled(body: seq<u32>, start: nat): seq<u32>
    requires start <= |body|
  {
    body[start..] + body[..start]
  }

  /** Dwords taken up by messages. */
  function Total(ms: seq<Msg>): nat {
    if ms == [] then 0 else Align4(|ms[0]|) + Total(ms[1..])
  }

  /** The messages lie one after another, each starting on a multiple of four dwords. */
  predicate Laid(u: seq<u32>, ms: seq<Msg>) {
    ms == [] || (&& Align4(|ms[0]|) <= |u|
                 && u[..|ms[0]|] == ms[0]
                 && Laid(u[Align4(|ms[0]|)..], ms[1..]))
  }

  /** Index of the `k`-th dword from `start`. */
  function Pos(start: nat, k: nat, size: nat): nat {
    if start + k < size then start + k else start + k - size
  }

  lemma {:induction false} TotalAppend(a: seq<Msg>, b: seq<Msg>)
    ensures Total(a + b) == Total(a) + Total(b)
  {
    if a == [] {
      assert a + b == b;
    } else {
      TotalAppend(a[1..], b);
      assert (a + b)[1..] == a[1..] + b;
    }
  }

  lemma {:induction false} LaidFits(u: seq<u32>, ms: seq<Msg>)
    requires Laid(u, ms)
    ensures Total(ms) <= |u|
  {
    if ms != [] {
      LaidFits(u[Align4(|ms[0]|)..], ms[1..]);
    }
  }

  /** Only the dwords the messages take up matter. */
  lemma {:induction false} LaidSame(u: seq<u32>, v: seq<u32>, ms: seq<Msg>)
    requires Laid(u, ms) && Total(ms) <= |u| && Total(ms) <= |v| && u[..Total(ms)] == v[..Total(ms)]
    ensures Laid(v, ms)
  {
    if ms != [] {
      var a, t := Align4(|ms[0]|), Total(ms[1..]);
      assert v[..|ms[0]|] == v[..Total(ms)][..|ms[0]|];
      assert u[..|ms[0]|] == u[..Total(ms)][..|ms[0]|];
      assert v[a..][..t] == v[..Total(ms)][a..];
      assert u[a..][..t] == u[..Total(ms)][a..];
      LaidSame(u[a..], v[a..], ms[1..]);
    }
  }

  /** A message written right after the others joins them. */
  lemma {:induction false} LaidAppend(u: seq<u32>, ms: seq<Msg>, m: Msg)
    requires Laid(u, ms) && Total(ms) + Align4(|m|) <= |u|
    requires u[Total(ms)..Total(ms) + |m|] == m
    ensures Laid(u, ms + [m])
  {
    if ms == [] {
      assert [m][1..] == [];
    } else {
      var a := Align4(|ms[0]|);
      assert u[a..][Total(ms[1..])..Total(ms[1..]) + |m|] == m;
      LaidAppend(u[a..], ms[1..], m);
      assert (ms + [m])[1..] == ms[1..] + [m];
    }
  }

  /** Distance from `from` to `to` going forward. */
  function Distance(to: nat, from: nat, size: nat): nat
    requires size > 0
  {
    (to + size - from) % size
  }

  lemma ModCases(x: nat, size: nat)
    requires x < 2 * size
    ensures x % size == if x < size then x else x - size
  {
    var q := x / size;
    assert x == q * size + x % size;
    assert q >= 2 ==> q * size >= 2 * size;
  }

  lemma DistanceCases(to: nat, from: nat, size: nat)
    requires to < size && from < size
    ensures Distance(to, from, size) == if to < from then to + size - from else to - from
  {
    ModCases(to + size - from, size);
  }

  function Advance(idx: nat, n: nat, size: nat): nat
    requires size > 0
  {
    (idx + n) % size
  }

  lemma AdvanceIs(idx: nat, n: nat, size: nat)
    requires size > 0
    ensures Advance(idx, n, size) == (idx + n) % size
  {
  }

  lemma AdvanceCases(idx: nat, n: nat, size: nat)
    requires idx < size && n <= size
    ensures Advance(idx, n, size) == Pos(idx, n, size)
  {
    ModCases(idx + n, size);
  }

  /** Moving the start past the first message leaves the rest in place. */
  lemma UnrolledAdvance(body: seq<u32>, start: nat, n: nat)
    requires start < |body| && n < |body|
    ensures Pos(start, n, |body|) < |body|
    ensures Unrolled(body, start)[n..] == Unrolled(body, Pos(start, n, |body|))[..|body| - n]
  {
    var u, p := Unrolled(body, start), Pos(start, n, |body|);
    var v := Unrolled(body, p);
    forall i | 0 <= i < |body| - n ensures u[n + i] == v[i] {
      UnrolledAt(body, start, n + i);
      UnrolledAt(body, p, i);
    }
  }

  lemma UnrolledAt(body: seq<u32>, start: nat, k: nat)
    requires start < |body| && k < |body|
    ensures Pos(start, k, |body|) < |body|
    ensures Unrolled(body, start)[k] == body[Pos(start, k, |body|)]
  {
  }

  lemma MessageLength(m: Msg)
    requires WellFormed(m)
    ensures 0 < |m| <= 255 && SizeField(m[0]) == |m|
  {
  }

  /** Reading the first message leaves the others laid out from the new start. */
  lemma ReadMoves(body: seq<u32>, start: nat, ms: seq<Msg>)
    requires start < |body| && ms != [] && Laid(Unrolled(body, start), ms) && Total(ms) < |body|
    ensures Pos(start, Align4(|ms[0]|), |body|) < |body|
    ensures Laid(Unrolled(body, Pos(start, Align4(|ms[0]|), |body|)), ms[1..])
  {
    hide Laid, Unrolled;
    var a := Align4(|ms[0]|);
    var u, t := Unrolled(body, start), Total(ms[1..]);
    UnrolledLength(body, start);
    UnrolledAdvance(body, start, a);
    var v := Unrolled(body, Pos(start, a, |body|));
    UnrolledLength(body, Pos(start, a, |body|));
    LaidTail(u, ms);
    assert v[..|body| - a][..t] == v[..t];
    LaidSame(u[a..], v, ms[1..]);
  }

  lemma UnrolledLength(body: seq<u32>, start: nat)
    requires start <= |body|
    ensures |Unrolled(body, start)| == |body|
  {
  }

  lemma LaidTail(u: seq<u32>, ms: seq<Msg>)
    requires Laid(u, ms) && ms != []
    ensures Align4(|ms[0]|) <= |u| && u[..|ms[0]|] == ms[0] && Laid(u[Align4(|ms[0]|)..], ms[1..])
    ensures Total(ms) == Align4(|ms[0]|) + Total(ms[1..]) <= |u|
  {
    LaidFits(u, ms);
  }

  lemma SliceOfDrop(u: seq<u32>, a: nat, i: nat, j: nat)
    requires a <= i <= j <= |u|
    ensures u[i..j] == u[a..][i - a..j - a]
  {
  }

  lemma SliceOfTake(u: seq<u32>, n: nat, i: nat, j: nat)
    requires i <= j <= n <= |u|
    ensures u[i..j] == u[..n][i..j]
  {
  }

  /** What lies beyond the first message keeps its place relative to the rest. */
  lemma CopiedStays(body: seq<u32>, start: nat, a: nat, t: nat, k: nat)
    requires start < |body| && a <= t && a < |body| && t + k <= |body|
    ensures Pos(start, a, |body|) < |body|
    ensures Unrolled(body, start)[t..t + k] == Unrolled(body, Pos(start, a, |body|))[t - a..t - a + k]
  {
    hide Unrolled;
    UnrolledAdvance(body, start, a);
    UnrolledLength(body, start);
    UnrolledLength(body, Pos(start, a, |body|));
    var u, v := Unrolled(body, start), Unrolled(body, Pos(start, a, |body|));
    SliceOfDrop(u, a, t, t + k);
    SliceOfTake(v, |body| - a, t - a, t - a + k);
  }

  /** `after` is `before` with `m` written from index `w` on, wrapping at the end. */
  ghost predicate Written(before: seq<u32>, after: seq<u32>, w: nat, m: Msg) {
    && |before| == |after| && w < |before| && |m| <= |before|
    && (forall i :: w <= i < |after| && i < w + |m| ==> after[i] == m[i - w])
    && (forall i :: 0 <= i < w + |m| - |after| ==> after[i] == m[i + |after| - w])
    && (forall i :: w + |m| - |after| <= i < w && 0 <= i ==> after[i] == before[i])
    && (forall i :: w + |m| <= i < |after| ==> after[i] == before[i])
  }

  /** Seen from the read index, the message lands behind the unread dwords and changes none. */
  lemma WrittenUnrolled(before: seq<u32>, after: seq<u32>, w: nat, start: nat, t: nat, m: Msg)
    requires Written(before, after, w, m) && start < |before| && t + |m| <= |before|
    requires t < |before| && w == Pos(start, t, |before|)
    ensures |Unrolled(after, start)| == |Unrolled(before, start)| == |before|
    ensures Unrolled(after, start)[..t] == Unrolled(before, start)[..t]
    ensures Unrolled(after, start)[t..t + |m|] == m
  {
    var u, v := Unrolled(before, start), Unrolled(after, start);
    forall i | 0 <= i < t ensures v[i] == u[i] {
      UnrolledAt(before, start, i);
      UnrolledAt(after, start, i);
    }
    forall k | 0 <= k < |m| ensures v[t + k] == m[k] {
      UnrolledAt(after, start, t + k);
    }
  }

  lemma WriteIndexAt(w: nat, start: nat, t: nat, size: nat)
    requires w < size && start < size && Distance(w, start, size) == t
    ensures t < size && w == Pos(start, t, size)
  {
    DistanceCases(w, start, size);
  }

  lemma DistanceAfter(w: nat, start: nat, n: nat, size: nat)
    requires w < size && start < size && Distance(w, start, size) + n < size
    ensures Pos(w, n, size) < size && Distance(Pos(w, n, size), start, size) == Distance(w, start, size) + n
  {
    DistanceCases(w, start, size);
    DistanceCases(Pos(w, n, size), start, size);
  }

  lemma DistanceBefore(w: nat, start: nat, n: nat, size: nat)
    requires w < size && start < size && n <= Distance(w, start, size)
    ensures Pos(start, n, size) < size && Distance(w, Pos(start, n, size), size) == Distance(w, start, size) - n
  {
    DistanceCases(w, start, size);
    DistanceCases(w, Pos(start, n, size), size);
  }

  lemma AlignedIndex(i: nat, n: nat, size: nat)
    requires i % 4 == 0 && n % 4 == 0 && size % 4 == 0 && i < size && n <= size
    ensures Pos(i, n, size) % 4 == 0
  {
  }

  /** Visible messages take up dwords, at least those of the first of them. */
  lemma VisibleTotal(ms: seq<Msg>, v: nat)
    requires v <= |ms| && forall m <- ms :: WellFormed(m)
    ensures v == 0 ==> Total(ms[..v]) == 0
    ensures v > 0 ==> Total(ms[..v]) >= Align4(|ms[0]|) > 0
  {
    if v > 0 {
      MessageLength(ms[0]);
      assert ms[..v][0] == ms[0];
    }
  }

  lemma FirstTaken(ms: seq<Msg>, v: nat)
    requires 0 < v <= |ms|
    ensures Total(ms) == Align4(|ms[0]|) + Total(ms[1..])
    ensures Total(ms[..v]) == Align4(|ms[0]|) + Total(ms[1..][..v - 1])
  {
    assert ms[..v][1..] == ms[1..][..v - 1];
  }

  predicate StartsWith(buf: seq<u32>, m: Msg) { |m| <= |buf| && buf[..|m|] == m }

  // ---- the queue ----

  datatype Sender = Idle | Waited(msg: Msg) | Copied(msg: Msg)

  /** Indices of a ring of `size` dwords. */
  predicate Indices(size: nat, w: nat, r: nat, c: nat) {
    size > 0 && size % 4 == 0 && w < size && r < size && c < size && w % 4 == 0 && r % 4 == 0 && c % 4 == 0
  }

  /** The unread messages `ms` fill the ring from the read index `r` to the write index `w`;
      the reader's copy `c` of the write index shows the first `v` of them. */
  ghost predicate RingOk(body: seq<u32>, w: nat, r: nat, c: nat, ms: seq<Msg>, v: nat) {
    && Indices(|body|, w, r, c)
    && (forall m <- ms :: WellFormed(m))
    && Total(ms) < |body|
    && Distance(w, r, |body|) == Total(ms)
    && v <= |ms|
    && Distance(c, r, |body|) == Total(ms[..v])
    && Laid(Unrolled(body, r), ms)
  }

  /** A sender that saw room still has it, and what it copied is still there. */
  ghost predicate SenderOk(body: seq<u32>, r: nat, t: nat, sender: Sender) {
    match sender
    case Idle => true
    case Waited(m) => WellFormed(m) && t + Align4(|m|) < |body|
    case Copied(m) =>
      && WellFormed(m) && t + Align4(|m|) < |body| && r < |body|
      && Unrolled(body, r)[t..t + |m|] == m
  }

  lemma RingBasics(body: seq<u32>, w: nat, r: nat, c: nat, ms: seq<Msg>, v: nat)
    requires RingOk(body, w, r, c, ms, v)
    ensures Indices(|body|, w, r, c) && v <= |ms|
    ensures Distance(w, r, |body|) == Total(ms) < |body| && Distance(c, r, |body|) == Total(ms[..v])
    ensures v == 0 <==> Distance(c, r, |body|) == 0
    ensures v > 0 ==> 0 < |ms[0]| <= 255 && SizeField(ms[0][0]) == |ms[0]| <= Distance(c, r, |body|)
    ensures v > 0 ==> Align4(|ms[0]|) < |body| && Unrolled(body, r)[..|ms[0]|] == ms[0]
  {
    VisibleTotal(ms, v);
    if v > 0 {
      MessageLength(ms[0]);
      LaidTail(Unrolled(body, r), ms);
    }
  }

  /** Delivering the oldest message leaves the rest as it was, and an unfinished send too. */
  lemma ReadKeepsRing(body: seq<u32>, w: nat, r: nat, c: nat, ms: seq<Msg>, v: nat, sender: Sender)
    requires RingOk(body, w, r, c, ms, v) && v > 0 && SenderOk(body, r, Total(ms), sender)
    ensures Align4(|ms[0]|) < |body|
    ensures RingOk(body, w, Advance(r, Align4(|ms[0]|), |body|), c, ms[1..], v - 1)
    ensures SenderOk(body, Advance(r, Align4(|ms[0]|), |body|), Total(ms[1..]), sender)
  {
    hide WellFormed, Laid, Unrolled, Align4, Distance, Advance, Total;
    var a, t := Align4(|ms[0]|), Total(ms);
    VisibleTotal(ms, v);
    FirstTaken(ms, v);
    AdvanceCases(r, a, |body|);
    ReadMoves(body, r, ms);
    if sender.Copied? {
      CopiedStays(body, r, a, t, |sender.msg|);
    }
    DistanceBefore(w, r, a, |body|);
    DistanceBefore(c, r, a, |body|);
    AlignedIndex(r, a, |body|);
  }

  /** Moving the write index past a copied message publishes it behind the others. */
  lemma PublishKeepsRing(body: seq<u32>, w: nat, r: nat, c: nat, ms: seq<Msg>, v: nat, m: Msg)
    requires RingOk(body, w, r, c, ms, v) && SenderOk(body, r, Total(ms), Copied(m))
    ensures RingOk(body, Advance(w, Align4(|m|), |body|), r, c, ms + [m], v)
  {
    hide WellFormed, Laid, Unrolled, Align4, Distance, Advance;
    WriteIndexAt(w, r, Total(ms), |body|);
    AdvanceCases(w, Align4(|m|), |body|);
    TotalAppend(ms, [m]);
    assert Total([m]) == Align4(|m|);
    UnrolledLength(body, r);
    LaidAppend(Unrolled(body, r), ms, m);
    DistanceAfter(w, r, Align4(|m|), |body|);
    AlignedIndex(w, Align4(|m|), |body|);
    assert (ms + [m])[..v] == ms[..v];
  }

  /** Copying into the free part touches no unread dword. */
  lemma CopyKeepsRing(before: seq<u32>, after: seq<u32>, w: nat, r: nat, c: nat, ms: seq<Msg>, v: nat, m: Msg)
    requires RingOk(before, w, r, c, ms, v) && SenderOk(before, r, Total(ms), Waited(m))
    requires Written(before, after, w, m)
    ensures RingOk(after, w, r, c, ms, v) && SenderOk(after, r, Total(ms), Copied(m))
  {
    hide WellFormed, Laid, Unrolled, Distance, Total, Written;
    assert |before| == |after| by { WrittenLength(before, after, w, m); }
    WriteIndexAt(w, r, Total(ms), |before|);
    WrittenUnrolled(before, after, w, r, Total(ms), m);
    LaidSame(Unrolled(before, r), Unrolled(after, r), ms);
  }

  lemma WrittenLength(before: seq<u32>, after: seq<u32>, w: nat, m: Msg)
    requires Written(before, after, w, m)
    ensures |before| == |after|
  {
  }

  class Queue {
    const size: nat
    const body: array<u32>
    var writeIdx: nat
    var readIdx: nat
    /** The reader's copy of the write index. */
    var cachedWrite: nat
    ghost var sender: Sender
    /** Published and unread; the reader's copy of the write index shows the first ones. */
    ghost var unread: seq<Msg>
    ghost var visible: nat
    /** Everything published, and everything delivered, so far. */
    ghost var sent: seq<Msg>
    ghost var delivered: seq<Msg>

    ghost predicate Valid()
      reads this, body
    {
      && body.Length == size
      && RingOk(body[..], writeIdx, readIdx, cachedWrite, unread, visible)
      && SenderOk(body[..], readIdx, Total(unread), sender)
      && sent == delivered + unread
    }

    constructor (n: nat)
      requires n > 0 && n % 4 == 0
      ensures Valid() && size == n && fresh(body)
      ensures sent == delivered == [] && sender == Idle
    {
      size := n;
      body := new u32[n](_ => 0);
      writeIdx, readIdx, cachedWrite := 0, 0, 0;
      sender, unread, visible, sent, delivered := Idle, [], 0, [], [];
    }

    method FreeDwords() returns (r: nat)
      requires Valid()
      ensures r == size - Total(unread) - 1
    {
      RingBasics(body[..], writeIdx, readIdx, cachedWrite, unread, visible);
      var used := (writeIdx + size - readIdx) % size;
      r := size - used - 1;
    }

    // The three moments of sending a message. The reader may run between any two of them.

    /** One look at the free space. */
    method WaitRoom(m: Msg) returns (ok: bool)
      requires Valid() && sender == Idle && WellFormed(m)
      modifies this`sender
      ensures Valid()
      ensures ok <==> Align4(|m|) <= size - Total(unread) - 1
      ensures sender == if ok then Waited(m) else Idle
    {
      hide RingOk, WellFormed;
      var free := FreeDwords();
      ok := free >= Align4(|m|);
      if ok {
        sender := Waited(m);
      }
    }

    /** The copy into the ring, in two parts when it wraps. No unread dword is touched. */
    method CopyBody(m: Msg)
      requires Valid() && sender == Waited(m)
      modifies body, this`sender
      ensures Valid() && sender == Copied(m)
      ensures writeIdx < size && forall k :: 0 <= k < |m| ==>
                var at := if writeIdx + k < size then writeIdx + k else writeIdx + k - size;
                0 <= at < body.Length && body[at] == m[k]
    {
      hide RingOk, SenderOk, Total;
      RingBasics(body[..], writeIdx, readIdx, cachedWrite, unread, visible);
      assert |m| < size by { WaitedFits(body[..], readIdx, Total(unread), m); }
      ghost var before := body[..];
      var move := |m|;
      if |m| + writeIdx >= size {
        move := size - writeIdx;
        forall k | 0 <= k < |m| - move {
          body[k] := m[move + k];
        }
      }
      forall k | 0 <= k < move {
        body[writeIdx + k] := m[k];
      }
      assert Written(before, body[..], writeIdx, m);
      CopyKeepsRing(before, body[..], writeIdx, readIdx, cachedWrite, unread, visible, m);
      sender := Copied(m);
    }

    /** The new write index makes the message visible to a reader that looks. */
    method Publish(m: Msg)
      requires Valid() && sender == Copied(m)
      modifies this`writeIdx, this`sender, this`unread, this`sent
      ensures Valid() && sender == Idle
      ensures unread == old(unread) + [m] && sent == old(sent) + [m]
      ensures writeIdx == (old(writeIdx) + Align4(|m|)) % size
    {
      hide RingOk, Total;
      RingBasics(body[..], writeIdx, readIdx, cachedWrite, unread, visible);
      PublishKeepsRing(body[..], writeIdx, readIdx, cachedWrite, unread, visible, m);
      writeIdx := (writeIdx + Align4(|m|)) % size;
      unread, sent, sender := unread + [m], sent + [m], Idle;
    }

    /** `dbcq_send_msg`: all or nothing. */
    method Send(m: Msg) returns (ok: bool)
      requires Valid() && sender == Idle && WellFormed(m)
      modifies this`writeIdx, this`sender, this`unread, this`sent, body
      ensures Valid() && sender == Idle
      ensures ok <==> Align4(|m|) <= size - old(Total(unread)) - 1
      ensures sent == if ok then old(sent) + [m] else old(sent)
      ensures unread == if ok then old(unread) + [m] else old(unread)
    {
      hide RingOk, SenderOk, WellFormed, Total;
      ok := WaitRoom(m);
      if ok {
        CopyBody(m);
        Publish(m);
      }
    }

    /** The reader fetches the write index. */
    method Refresh()
      requires Valid()
      modifies this`cachedWrite, this`visible
      ensures Valid() && visible == |unread| && cachedWrite == writeIdx
    {
      hide SenderOk, Total, Laid, WellFormed, Distance;
      cachedWrite := writeIdx;
      visible := |unread|;
      assert unread[..visible] == unread;
    }

    /** `hgsl_read_msg_from_ipcq`: delivers the oldest visible message whole, or reports
        that there is none. The sender may be anywhere in a send of its own. */
    method ReadMsg(buf: array<u32>) returns (ok: bool)
      requires Valid() && buf != body && buf.Length >= MAX_HFI_MSG_SIZE
      modifies buf, this`readIdx, this`visible, this`unread, this`delivered
      ensures Valid()
      ensures ok <==> old(visible) > 0
      ensures ok ==> old(unread) != [] && visible == old(visible) - 1
      ensures ok ==> unread == old(unread)[1..] && delivered == old(delivered) + [old(unread)[0]]
      ensures ok ==> StartsWith(buf[..], old(unread)[0])
      ensures ok ==> readIdx == (old(readIdx) + Align4(|old(unread)[0]|)) % size
      ensures !ok ==> delivered == old(delivered) && unread == old(unread) && visible == old(visible)
    {
      hide RingOk, SenderOk, Total, SizeField, Unrolled, Distance, Advance, Align4;
      RingBasics(body[..], writeIdx, readIdx, cachedWrite, unread, visible);
      var occupied := Distance(cachedWrite, readIdx, size);
      if readIdx >= size || cachedWrite >= size || occupied < 1 {
        return false;
      }
      ghost var ms := unread;
      ghost var m := ms[0];
      UnrolledLength(body[..], readIdx);
      FirstDword(body[..], readIdx, m);
      var header := body[readIdx];
      var n := SizeField(header);
      if occupied < n || n == 0 {
        return false;
      }
      CopyMsg(buf, n);
      buf[0] := header;
      assert buf[..n] == m;
      ReadKeepsRing(body[..], writeIdx, readIdx, cachedWrite, unread, visible, sender);
      AdvanceIs(readIdx, Align4(n), size);
      readIdx := Advance(readIdx, Align4(n), size);
      unread, delivered, visible := ms[1..], delivered + [m], visible - 1;
      assert ms == [m] + ms[1..];
      ok := true;
    }

    /** `hgsl_ipcq_copy_msg`: `n` dwords from the read index on, in two parts when they wrap. */
    method CopyMsg(buf: array<u32>, n: nat)
      requires body.Length == size && readIdx < size && n <= size && n <= buf.Length && buf != body
      modifies buf
      ensures buf[..n] == Unrolled(body[..], readIdx)[..n]
    {
      var chunk := if n < size - readIdx then n else size - readIdx;
      forall k | 0 <= k < chunk {
        buf[k] := body[readIdx + k];
      }
      if chunk < n {
        forall k | chunk <= k < n {
          buf[k] := body[k - chunk];
        }
      }
    }

    /** The interrupt work: deliver until the indices meet. */
    method HandleMessages(buf: array<u32>)
      requires Valid() && buf != body && buf.Length >= MAX_HFI_MSG_SIZE
      modifies buf, this`readIdx, this`visible, this`unread, this`delivered, this`cachedWrite
      ensures Valid() && unread == [] && delivered == sent == old(sent)
    {
      hide RingOk, SenderOk, Total, Distance;
      Refresh();
      RingBasics(body[..], writeIdx, readIdx, cachedWrite, unread, visible);
      DistanceCases(cachedWrite, readIdx, size);
      while readIdx != cachedWrite
        invariant Valid() && visible == |unread| && sent == old(sent)
        invariant readIdx != cachedWrite <==> visible > 0
        decreases |unread|
      {
        var ok := ReadMsg(buf);
        Refresh();
        RingBasics(body[..], writeIdx, readIdx, cachedWrite, unread, visible);
        DistanceCases(cachedWrite, readIdx, size);
      }
      assert delivered == delivered + unread;
    }
  }

  lemma FirstDword(body: seq<u32>, r: nat, m: Msg)
    requires r < |body| && 0 < |m| <= |body| && Unrolled(body, r)[..|m|] == m
    ensures m[0] == body[r]
  {
    assert m[0] == Unrolled(body, r)[0];
  }

  lemma WaitedFits(body: seq<u32>, r: nat, t: nat, m: Msg)
    requires SenderOk(body, r, t, Waited(m))
    ensures 0 < |m| < |body|
  {
  }
}
