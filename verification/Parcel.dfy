/** The growable argument buffer of remote calls (hgsl_hyp_socket.c): a typed printer and
    its parser. A parcel is a call header of 16 bytes, one record per argument, and a
    footer. Integers are little-endian. */
module Parcel {
  import opened Timestamps
  import opened Units
  import opened Wrappers

  type byte = x: int | 0 <= x < 256

  const CALL_MAGIC: int := 0xfeedca11
  const DATA_MAGIC: int := 0xfeedda7a
  const CHECKSUM: int := 0xFFFF_FFFF
  const RECORD_VERSION: int := 2
  const HEADER: nat := 16
  const FOOTER: nat := 4
  const FIRST_SIZE: nat := 4096

  const BLOB_DATA: u32 := 0
  const WORD_DATA: u32 := 1
  const LONG_DATA: u32 := 2

  // ---- integers ----

  /** The low 32 bits of `x`, least significant byte first. */
  function Le32(x: int): (s: seq<byte>)
    ensures |s| == 4
  {
    [x % 256, x / 0x100 % 256, x / 0x1_0000 % 256, x / 0x100_0000 % 256]
  }

  function Un32(s: seq<byte>): u32
    requires |s| == 4
  {
    s[0] as int + s[1] as int * 0x100 + s[2] as int * 0x1_0000 + s[3] as int * 0x100_0000
  }

  lemma Un32OfLe32(x: int)
    ensures Un32(Le32(x)) == Wrap32(x)
  {
    var a := x / 0x100;
    var b := a / 0x100;
    var c := b / 0x100;
    assert x / 0x1_0000 == b && x / 0x100_0000 == c;
    var d := c / 0x100;
    assert x == x % 256 + 256 * (a % 256) + 0x1_0000 * (b % 256) + 0x100_0000 * (c % 256) + TWO32 * d;
  }

  function Le64(x: int): (s: seq<byte>)
    ensures |s| == 8
  {
    Le32(x) + Le32(x / 0x1_0000_0000)
  }

  function Un64(s: seq<byte>): u64
    requires |s| == 8
  {
    Un32(s[..4]) + Un32(s[4..]) * 0x1_0000_0000
  }

  lemma Un64OfLe64(x: int)
    ensures Un64(Le64(x)) == Wrap64(x)
  {
    hide Le32, Un32;
    assert Le64(x)[..4] == Le32(x) && Le64(x)[4..] == Le32(x / TWO32);
    Un32OfLe32(x);
    Un32OfLe32(x / TWO32);
  }

  /** The order of the bytes, not only that they can be read back: the first is the remainder by
      256, and the others are the first ones of the quotient. */
  lemma LeastByteFirst(x: int)
    ensures Le32(x) == [x % 256] + Le32(x / 256)[..3]
    ensures Le64(x) == [x % 256] + Le64(x / 256)[..7]
  {
    Shifted(x);
    var y := x / 256;
    Shifted(x / TWO32);
    assert y / TWO32 == x / TWO32 / 256;
    assert y / 0x100_0000 == x / TWO32;
  }

  /** Dividing by 256 once more. */
  lemma Shifted(x: int)
    ensures x / 0x1_0000 == x / 256 / 0x100 && x / 0x100_0000 == x / 256 / 0x1_0000
  {
  }

  lemma LeastByteIsRemainder(s: seq<byte>)
    ensures |s| == 4 ==> Un32(s) % 256 == s[0] as int && Un32(s) / 256 == Un32(s[1..] + [0])
    ensures |s| == 8 ==> Un64(s) % 256 == s[0] as int && Un64(s) / 256 == Un64(s[1..] + [0])
  {
    if |s| == 8 {
      var t := s[1..] + [0];
      assert t[..4] == s[1..5] && t[4..] == s[5..] + [0];
    }
  }

  /** Two's complement. */
  function Signed32(u: u32): int { if u < 0x8000_0000 then u else u - 0x1_0000_0000 }

  function Signed64(u: u64): int { if u < 0x8000_0000_0000_0000 then u else u - 0x1_0000_0000_0000_0000 }

  /** Both signed widths survive the trip through bytes. */
  lemma SignedRoundTrip(x: int)
    ensures -TWO31 <= x < TWO31 ==> Signed32(Un32(Le32(x))) == x
    ensures -TWO63 <= x < TWO63 ==> Signed64(Un64(Le64(x))) == x
  {
    hide Le32, Un32, Le64, Un64;
    Un32OfLe32(x);
    Un64OfLe64(x);
  }

  // ---- records ----

  datatype Arg = Arg(id: u32, payload: seq<byte>)

  /** Bytes of an argument. The size field holds the low 32 bits of the length. */
  function Record(a: Arg): (s: seq<byte>)
    ensures |s| == HEADER + |a.payload| + FOOTER
  {
    Le32(DATA_MAGIC) + Le32(a.id) + Le32(RECORD_VERSION) + Le32(|a.payload|) + a.payload + Le32(CHECKSUM)
  }

  function Stream(args: seq<Arg>): seq<byte> {
    if args == [] then [] else Stream(args[..|args| - 1]) + Record(args[|args| - 1])
  }

  /** Total size of the records. */
  function TotalSize(args: seq<Arg>): nat {
    if args == [] then 0 else TotalSize(args[..|args| - 1]) + HEADER + |args[|args| - 1].payload| + FOOTER
  }

  function Word(buf: seq<byte>, pos: nat): u32
    requires pos + 4 <= |buf|
  {
    Un32(buf[pos..pos + 4])
  }

  /** `PastEnd`: the header matches but the footer the parser looks at is not all inside
      the buffer, so that the outcome rests on what lies behind it. */
  datatype Read = Got(payload: seq<byte>, next: nat) | BadChecksum(next: nat) | Refused | PastEnd(next: nat)

  predicate HeaderMatches(buf: seq<byte>, pos: nat, id: u32, size: nat)
    requires pos + HEADER <= |buf|
  {
    Word(buf, pos) == DATA_MAGIC && Word(buf, pos + 4) == id && Word(buf, pos + 12) == size
  }

  /** `gsl_rpc_get_arg_ptr` on `buf`. The room test leaves the footer out. */
  function ReadAt(buf: seq<byte>, pos: nat, id: u32, size: nat): Read {
    if pos + size + HEADER <= |buf| && HeaderMatches(buf, pos, id, size) then
      var next := pos + size + HEADER + FOOTER;
      if next > |buf| then PastEnd(next)
      else if Word(buf, pos + HEADER + size) == CHECKSUM then Got(buf[pos + HEADER..pos + HEADER + size], next)
      else BadChecksum(next)
    else Refused
  }

  /** Most words of a parcel that are dumped. */
  const DUMPED_WORDS: nat := 32

  /** End of what is dumped of a parcel: at most as many words as fit the buffer and the size in
      its header, to which the length of a header is added in 32 bits. */
  function DumpEnd(size: u32, length: nat): nat {
    4 * Min(Min(Wrap32(size + HEADER) + FOOTER, length) / 4, DUMPED_WORDS)
  }

  /** Where the furthest byte ends that the parser looks at: nothing without room, the
      footer after a matching header, else the header and what is dumped of the parcel. */
  function Reach(buf: seq<byte>, pos: nat, id: u32, size: nat): nat {
    if pos + size + HEADER > |buf| then 0
    else if HeaderMatches(buf, pos, id, size) then pos + size + HEADER + FOOTER
    else Max(pos + HEADER, DumpEnd(Word(buf, 12), |buf|))
  }

  /** The parser looks only inside the buffer unless the header matches and the buffer ends
      after the payload but before the footer does. */
  lemma ReaderStaysInsideExactly(buf: seq<byte>, pos: nat, id: u32, size: nat)
    ensures Reach(buf, pos, id, size) <= |buf| <==>
              !(pos + size + HEADER <= |buf| < pos + size + HEADER + FOOTER && HeaderMatches(buf, pos, id, size))
    ensures Reach(buf, pos, id, size) <= |buf| <==> !ReadAt(buf, pos, id, size).PastEnd?
  {
    hide HeaderMatches, Word;
  }

  /** The same code on memory `mem` of which the buffer is the first `limit` bytes. */
  function ReadIn(mem: seq<byte>, limit: nat, pos: nat, id: u32, size: nat): Read
    requires limit + FOOTER <= |mem|
  {
    if pos + size + HEADER <= limit && HeaderMatches(mem, pos, id, size) then
      var next := pos + size + HEADER + FOOTER;
      if Word(mem, pos + HEADER + size) == CHECKSUM then Got(mem[pos + HEADER..pos + HEADER + size], next)
      else BadChecksum(next)
    else Refused
  }

  lemma WordInside(buf: seq<byte>, more: seq<byte>, pos: nat)
    requires pos + 4 <= |buf|
    ensures Word(buf + more, pos) == Word(buf, pos)
  {
    assert (buf + more)[pos..pos + 4] == buf[pos..pos + 4];
  }

  /** Otherwise the outcome is that of the buffer alone, whatever lies behind it. */
  lemma OutcomeIsInside(buf: seq<byte>, more: seq<byte>, pos: nat, id: u32, size: nat)
    requires |more| >= FOOTER && !ReadAt(buf, pos, id, size).PastEnd?
    ensures ReadIn(buf + more, |buf|, pos, id, size) == ReadAt(buf, pos, id, size)
  {
    hide Word;
    if pos + size + HEADER <= |buf| {
      WordInside(buf, more, pos);
      WordInside(buf, more, pos + 4);
      WordInside(buf, more, pos + 12);
      if HeaderMatches(buf, pos, id, size) {
        WordInside(buf, more, pos + HEADER + size);
        assert (buf + more)[pos + HEADER..pos + HEADER + size] == buf[pos + HEADER..pos + HEADER + size];
      }
    }
  }

  /** A record sits in `buf` at `pos`. */
  ghost predicate Holds(buf: seq<byte>, pos: nat, s: seq<byte>) {
    pos + |s| <= |buf| && buf[pos..pos + |s|] == s
  }

  lemma HoldsPart(buf: seq<byte>, pos: nat, a: seq<byte>, b: seq<byte>, c: seq<byte>)
    requires Holds(buf, pos, a + b + c)
    ensures Holds(buf, pos + |a|, b)
  {
    var s := a + b + c;
    forall k | 0 <= k < |b| ensures buf[pos + |a| + k] == b[k] {
      assert s[|a| + k] == buf[pos..pos + |s|][|a| + k];
    }
  }

  lemma WordHeld(buf: seq<byte>, pos: nat, x: int)
    requires Holds(buf, pos, Le32(x))
    ensures Word(buf, pos) == Wrap32(x)
  {
    Un32OfLe32(x);
  }

  /** The fields of a record are where the parser looks for them. */
  lemma RecordFields(buf: seq<byte>, pos: nat, a: Arg)
    requires Holds(buf, pos, Record(a))
    ensures pos + HEADER + |a.payload| + FOOTER <= |buf|
    ensures Word(buf, pos) == DATA_MAGIC && Word(buf, pos + 4) == a.id
    ensures Word(buf, pos + 12) == Wrap32(|a.payload|)
    ensures Holds(buf, pos + HEADER, a.payload)
    ensures Word(buf, pos + HEADER + |a.payload|) == CHECKSUM
  {
    hide Le32, Holds, Word;
    var m, i, v, n := Le32(DATA_MAGIC), Le32(a.id), Le32(RECORD_VERSION), Le32(|a.payload|);
    var p, c := a.payload, Le32(CHECKSUM);
    var r := Record(a);
    assert r == [] + m + (i + v + n + p + c);
    HoldsPart(buf, pos, [], m, i + v + n + p + c);
    assert r == m + i + (v + n + p + c);
    HoldsPart(buf, pos, m, i, v + n + p + c);
    assert r == (m + i + v) + n + (p + c);
    HoldsPart(buf, pos, m + i + v, n, p + c);
    assert r == (m + i + v + n) + p + c;
    HoldsPart(buf, pos, m + i + v + n, p, c);
    assert r == (m + i + v + n + p) + c + [];
    HoldsPart(buf, pos, m + i + v + n + p, c, []);
    HoldsLength(buf, pos, r);
    WordHeld(buf, pos, DATA_MAGIC);
    WordHeld(buf, pos + 4, a.id);
    WordHeld(buf, pos + 12, |a.payload|);
    WordHeld(buf, pos + HEADER + |a.payload|, CHECKSUM);
  }

  lemma HoldsLength(buf: seq<byte>, pos: nat, s: seq<byte>)
    requires Holds(buf, pos, s)
    ensures pos + |s| <= |buf|
  {
  }

  /** A written argument is read back exactly when it is asked for by its own type and
      size, provided its length fits the size field. A longer one is not read back. */
  lemma RecordReads(buf: seq<byte>, pos: nat, a: Arg, id: u32, size: nat)
    requires Holds(buf, pos, Record(a))
    ensures |a.payload| < TWO32 ==>
              ReadAt(buf, pos, id, size) ==
              if id == a.id && size == |a.payload| then Got(a.payload, pos + |Record(a)|) else Refused
    ensures |a.payload| >= TWO32 ==> ReadAt(buf, pos, a.id, |a.payload|) == Refused
  {
    hide Word;
    RecordFields(buf, pos, a);
  }

  lemma Le32OfUn32(s: seq<byte>)
    requires |s| == 4
    ensures Le32(Un32(s)) == s
  {
    var x := Un32(s);
    assert x / 0x100_0000 == s[3] as int;
    assert x / 0x1_0000 == s[2] as int + 0x100 * s[3] as int;
    assert x / 0x100 == s[1] as int + 0x100 * s[2] as int + 0x1_0000 * s[3] as int;
  }

  /** What is read, byte by byte: exactly a payload between the words of a record of that type and
      size, whatever the word of the version. */
  lemma ReadExactly(buf: seq<byte>, pos: nat, id: u32, size: nat, payload: seq<byte>)
    ensures ReadAt(buf, pos, id, size) == Got(payload, pos + size + 20) <==>
              && size < TWO32 && |payload| == size && pos + size + 20 <= |buf|
              && buf[pos..pos + 4] == [0x7a, 0xda, 0xed, 0xfe]
              && buf[pos + 4..pos + 8] == Le32(id)
              && buf[pos + 12..pos + 16] == Le32(size)
              && buf[pos + 16..pos + 16 + size] == payload
              && buf[pos + 16 + size..pos + 20 + size] == [0xff, 0xff, 0xff, 0xff]
  {
    hide Le32, Un32;
    if pos + size + 20 <= |buf| {
      assert Le32(DATA_MAGIC) == [0x7a, 0xda, 0xed, 0xfe] && Le32(CHECKSUM) == [0xff, 0xff, 0xff, 0xff] by {
        MagicBytes();
      }
      WordIs(buf, pos, DATA_MAGIC);
      WordIs(buf, pos + 4, id);
      if size < TWO32 {
        WordIs(buf, pos + 12, size);
      }
      WordIs(buf, pos + 16 + size, CHECKSUM);
    }
  }

  /** The bytes of a record. */
  lemma RecordBytes(a: Arg)
    ensures var s, n := Record(a), |a.payload|;
            && s[..4] == [0x7a, 0xda, 0xed, 0xfe]
            && s[4..8] == Le32(a.id)
            && s[8..12] == [2, 0, 0, 0]
            && s[12..16] == Le32(n)
            && s[16..16 + n] == a.payload
            && s[16 + n..] == [0xff, 0xff, 0xff, 0xff]
  {
    MagicBytes();
    hide Le32;
  }

  /** Two arguments as they are on the wire: 1 is the type of a 32-bit integer, 2 of a 64-bit one. */
  lemma PrintedBytes()
    ensures Record(Printed(U32(0x0102_0304))) ==
            [0x7a, 0xda, 0xed, 0xfe, 1, 0, 0, 0, 2, 0, 0, 0, 4, 0, 0, 0, 4, 3, 2, 1, 0xff, 0xff, 0xff, 0xff]
    ensures Record(Printed(I64(-2))) ==
            [0x7a, 0xda, 0xed, 0xfe, 2, 0, 0, 0, 2, 0, 0, 0, 8, 0, 0, 0,
             0xfe, 0xff, 0xff, 0xff, 0xff, 0xff, 0xff, 0xff, 0xff, 0xff, 0xff, 0xff]
    ensures Record(Printed(Blob([7]))) ==
            [0x7a, 0xda, 0xed, 0xfe, 0, 0, 0, 0, 2, 0, 0, 0, 1, 0, 0, 0, 7, 0xff, 0xff, 0xff, 0xff]
  {
    hide Le32, Le64, Record;
    ValueBytes();
    ShortRecord(1, [4, 3, 2, 1]);
    ShortRecord(2, [0xfe, 0xff, 0xff, 0xff, 0xff, 0xff, 0xff, 0xff]);
    ShortRecord(0, [7]);
  }

  lemma ShortRecord(id: nat, payload: seq<byte>)
    requires id < 0x100 && |payload| < 0x100
    ensures Record(Arg(id, payload)) ==
            [0x7a, 0xda, 0xed, 0xfe, id, 0, 0, 0, 2, 0, 0, 0, |payload|, 0, 0, 0] + payload + [0xff, 0xff, 0xff, 0xff]
  {
    hide Le32;
    MagicBytes();
    SmallBytes(id);
    SmallBytes(|payload|);
  }

  lemma ValueBytes()
    ensures Le32(0x0102_0304) == [4, 3, 2, 1]
    ensures Le64(-2) == [0xfe, 0xff, 0xff, 0xff, 0xff, 0xff, 0xff, 0xff]
  {
  }

  lemma MagicBytes()
    ensures Le32(DATA_MAGIC) == [0x7a, 0xda, 0xed, 0xfe] && Le32(CHECKSUM) == [0xff, 0xff, 0xff, 0xff]
    ensures Le32(CALL_MAGIC) == [0x11, 0xca, 0xed, 0xfe] && Le32(RECORD_VERSION) == [2, 0, 0, 0]
  {
  }

  lemma SmallBytes(x: nat)
    requires x < 0x100
    ensures Le32(x) == [x, 0, 0, 0]
  {
  }

  lemma WordIs(buf: seq<byte>, pos: nat, x: u32)
    requires pos + 4 <= |buf|
    ensures Word(buf, pos) == x <==> buf[pos..pos + 4] == Le32(x)
  {
    hide Le32, Un32;
    Un32OfLe32(x);
    Le32OfUn32(buf[pos..pos + 4]);
  }

  /** A parcel of a call header and a 32-bit argument without its footer: the argument is
      returned or refused for its checksum by the four bytes behind the parcel. */
  lemma MissingFooterIsReadPastEnd(call: seq<byte>, v: u32)
    requires |call| == HEADER
    ensures var buf := call + Le32(DATA_MAGIC) + Le32(WORD_DATA) + Le32(RECORD_VERSION) + Le32(4) + Le32(v);
            && |buf| == 36 && ReadAt(buf, HEADER, WORD_DATA, 4) == PastEnd(40) && Reach(buf, HEADER, WORD_DATA, 4) == 40
            && ReadIn(buf + Le32(CHECKSUM), |buf|, HEADER, WORD_DATA, 4) == Got(Le32(v), 40)
            && ReadIn(buf + Le32(0), |buf|, HEADER, WORD_DATA, 4) == BadChecksum(40)
  {
    hide Word, Holds, Le32;
    var front := call + Le32(DATA_MAGIC) + Le32(WORD_DATA) + Le32(RECORD_VERSION) + Le32(4) + Le32(v);
    RestOfRecord(call, v, CHECKSUM);
    RestOfRecord(call, v, 0);
    WordInside(front, Le32(0), HEADER);
    WordInside(front, Le32(0), HEADER + 4);
    WordInside(front, Le32(0), HEADER + 12);
  }

  lemma RestOfRecord(call: seq<byte>, v: u32, sum: int)
    requires |call| == HEADER
    ensures var buf := call + Le32(DATA_MAGIC) + Le32(WORD_DATA) + Le32(RECORD_VERSION) + Le32(4) + Le32(v) + Le32(sum);
            && Word(buf, HEADER) == DATA_MAGIC && Word(buf, HEADER + 4) == WORD_DATA && Word(buf, HEADER + 12) == 4
            && buf[HEADER + 16..HEADER + 20] == Le32(v) && Word(buf, HEADER + 20) == Wrap32(sum)
  {
    hide Word, Le32;
    var buf := call + Le32(DATA_MAGIC) + Le32(WORD_DATA) + Le32(RECORD_VERSION) + Le32(4) + Le32(v) + Le32(sum);
    assert buf[16..20] == Le32(DATA_MAGIC) && buf[20..24] == Le32(WORD_DATA) && buf[28..32] == Le32(4);
    assert buf[32..36] == Le32(v) && buf[36..40] == Le32(sum);
    WordHeld(buf, 16, DATA_MAGIC);
    WordHeld(buf, 20, WORD_DATA);
    WordHeld(buf, 28, 4);
    WordHeld(buf, 36, sum);
  }

  /** An argument asked for as it was printed. */
  lemma OwnRead(buf: seq<byte>, pos: nat, a: Arg)
    requires Holds(buf, pos, Record(a)) && |a.payload| < TWO32
    ensures pos + HEADER + |a.payload| + FOOTER <= |buf|
    ensures ReadAt(buf, pos, a.id, |a.payload|) == Got(a.payload, pos + |Record(a)|)
  {
    hide Holds, Record, Word, ReadAt;
    RecordFields(buf, pos, a);
    RecordReads(buf, pos, a, a.id, |a.payload|);
  }

  lemma HeadReads(buf: seq<byte>, pos: nat, a: Arg, s: seq<byte>)
    requires Holds(buf, pos, Record(a) + s) && |a.payload| < TWO32
    ensures pos + HEADER + |a.payload| + FOOTER <= |buf|
    ensures ReadAt(buf, pos, a.id, |a.payload|) == Got(a.payload, pos + |Record(a)|)
    ensures Holds(buf, pos + |Record(a)|, s)
  {
    hide Holds, Record, ReadAt;
    var r := Record(a);
    assert r + s == [] + r + s && r + s == r + s + [];
    HoldsPart(buf, pos, [], r, s);
    HoldsPart(buf, pos, r, s, []);
    OwnRead(buf, pos, a);
  }

  lemma {:induction false} StreamLength(args: seq<Arg>)
    ensures |Stream(args)| == TotalSize(args)
  {
    if args != [] {
      StreamLength(args[..|args| - 1]);
    }
  }

  lemma StreamAppend(args: seq<Arg>, a: Arg)
    ensures Stream(args + [a]) == Stream(args) + Record(a)
  {
    assert (args + [a])[..|args|] == args;
  }

  lemma {:induction false} StreamHead(a: Arg, args: seq<Arg>)
    ensures Stream([a] + args) == Record(a) + Stream(args)
    decreases |args|
  {
    hide Record;
    if args == [] {
      assert [a] + args == [] + [a];
      StreamAppend([], a);
    } else {
      var front, z := args[..|args| - 1], args[|args| - 1];
      StreamHead(a, front);
      assert [a] + args == ([a] + front) + [z];
      StreamAppend([a] + front, z);
      assert Record(a) + Stream(front) + Record(z) == Record(a) + (Stream(front) + Record(z));
    }
  }

  /** Where the `k`-th record starts. */
  lemma {:induction false} StreamHolds(args: seq<Arg>, k: nat)
    requires k < |args|
    ensures Holds(Stream(args), |Stream(args[..k])|, Record(args[k]))
    ensures |Stream(args[..k + 1])| == |Stream(args[..k])| + |Record(args[k])| <= |Stream(args)|
  {
    hide Record;
    var n := |args| - 1;
    assert args[..k + 1][..k] == args[..k];
    if k < n {
      var front := args[..n];
      StreamHolds(front, k);
      assert front[..k] == args[..k] && front[..k + 1] == args[..k + 1];
      HoldsLonger(Stream(front), |Stream(args[..k])|, Record(args[k]), Record(args[n]));
    } else {
      assert args[..k] == args[..n] && args[..k + 1] == args;
    }
  }

  lemma HoldsLonger(buf: seq<byte>, pos: nat, s: seq<byte>, more: seq<byte>)
    requires Holds(buf, pos, s)
    ensures Holds(buf + more, pos, s)
  {
    assert (buf + more)[pos..pos + |s|] == buf[pos..pos + |s|];
  }

  lemma HoldsShift(buf: seq<byte>, pos: nat, s: seq<byte>, at: nat, part: seq<byte>)
    requires Holds(buf, pos, s) && Holds(s, at, part)
    ensures Holds(buf, pos + at, part)
  {
    forall k | 0 <= k < |part| ensures buf[pos + at + k] == part[k] {
      assert part[k] == s[at..at + |part|][k] == s[at + k] == buf[pos..pos + |s|][at + k];
    }
  }

  /** Reading a printed parcel argument by argument, each by its type and size, yields the
      arguments in order. */
  lemma RoundTrip(buf: seq<byte>, args: seq<Arg>, k: nat)
    requires Holds(buf, HEADER, Stream(args)) && k < |args| && |args[k].payload| < TWO32
    ensures var pos := HEADER + |Stream(args[..k])|;
            && pos + |args[k].payload| + HEADER + FOOTER <= |buf|
            && ReadAt(buf, pos, args[k].id, |args[k].payload|)
               == Got(args[k].payload, HEADER + |Stream(args[..k + 1])|)
  {
    hide Record, Stream, ReadAt, Holds;
    StreamHolds(args, k);
    HoldsShift(buf, HEADER, Stream(args), |Stream(args[..k])|, Record(args[k]));
    OwnRead(buf, HEADER + |Stream(args[..k])|, args[k]);
  }

  // ---- growing ----

  function Grown(size: nat, len: nat): nat { (size + len) * 3 / 2 }

  /** A full buffer grown for a payload has room for its whole record exactly when the two
      together were not tiny, which the initial size guarantees. */
  lemma GrownHasRoom(size: nat, len: nat)
    ensures size + HEADER + len + FOOTER <= Grown(size, len) <==> size + len >= 40
    ensures size >= FIRST_SIZE ==> size + HEADER + len + FOOTER <= Grown(size, len)
  {
  }

  // ---- storing ----

  function Stored(buf: seq<byte>, at: nat, bytes: seq<byte>): seq<byte>
    requires at + |bytes| <= |buf|
  {
    buf[..at] + bytes + buf[at + |bytes|..]
  }

  lemma StoreNext(front: seq<byte>, bytes: seq<byte>, rest: seq<byte>)
    requires |bytes| <= |rest|
    ensures Stored(front + rest, |front|, bytes) == front + bytes + rest[|bytes|..]
  {
    assert (front + rest)[..|front|] == front;
    assert (front + rest)[|front| + |bytes|..] == rest[|bytes|..];
  }

  /** The five stores around a payload already in place make up its record. */
  lemma RecordStored(buf: seq<byte>, pos: nat, id: u32, payload: seq<byte>) returns (rest: seq<byte>)
    requires Holds(buf, pos + HEADER, payload) && pos + HEADER + |payload| + FOOTER <= |buf|
    ensures var b1 := Stored(buf, pos, Le32(DATA_MAGIC));
            var b2 := Stored(b1, pos + 4, Le32(id));
            var b3 := Stored(b2, pos + 8, Le32(RECORD_VERSION));
            var b4 := Stored(b3, pos + 12, Le32(|payload|));
            var b5 := Stored(b4, pos + HEADER + |payload|, Le32(CHECKSUM));
            b5 == buf[..pos] + Record(Arg(id, payload)) + rest && |b5| == |buf|
  {
    hide Le32, Stored, Holds, Record;
    HoldsLength(buf, pos + HEADER, payload);
    var b4 := FourStored(buf, pos, Le32(DATA_MAGIC), Le32(id), Le32(RECORD_VERSION), Le32(|payload|));
    var g := buf[..pos] + Le32(DATA_MAGIC) + Le32(id) + Le32(RECORD_VERSION) + Le32(|payload|);
    var tail := buf[pos + HEADER + |payload|..];
    assert buf[pos + HEADER..] == payload + tail by { TailHeld(buf, pos, payload); }
    assert b4 == (g + payload) + tail;
    StoreNext(g + payload, Le32(CHECKSUM), tail);
    rest := tail[4..];
    RecordParts(buf[..pos], id, payload);
  }

  lemma RecordParts(front: seq<byte>, id: u32, payload: seq<byte>)
    ensures front + Le32(DATA_MAGIC) + Le32(id) + Le32(RECORD_VERSION) + Le32(|payload|) + payload + Le32(CHECKSUM)
            == front + Record(Arg(id, payload))
  {
    hide Le32;
  }

  /** Four words stored one behind the other. */
  lemma FourStored(buf: seq<byte>, pos: nat, a: seq<byte>, b: seq<byte>, c: seq<byte>, d: seq<byte>)
    returns (b4: seq<byte>)
    requires |a| == |b| == |c| == |d| == 4 && pos + 16 <= |buf|
    ensures b4 == Stored(Stored(Stored(Stored(buf, pos, a), pos + 4, b), pos + 8, c), pos + 12, d)
    ensures b4 == buf[..pos] + a + b + c + d + buf[pos + 16..]
  {
    hide Stored;
    var f := buf[..pos];
    assert buf == f + buf[pos..];
    StoreNext(f, a, buf[pos..]);
    assert buf[pos..][4..] == buf[pos + 4..] && buf[pos + 4..][4..] == buf[pos + 8..];
    StoreNext(f + a, b, buf[pos + 4..]);
    StoreNext(f + a + b, c, buf[pos + 8..]);
    assert buf[pos + 8..][4..] == buf[pos + 12..] && buf[pos + 12..][4..] == buf[pos + 16..];
    StoreNext(f + a + b + c, d, buf[pos + 12..]);
    b4 := f + a + b + c + d + buf[pos + 16..];
  }

  lemma TailHeld(buf: seq<byte>, pos: nat, payload: seq<byte>)
    requires Holds(buf, pos + HEADER, payload)
    ensures buf[pos + HEADER..] == payload + buf[pos + HEADER + |payload|..]
  {
    var t := buf[pos + HEADER..];
    assert t[..|payload|] == buf[pos + HEADER..pos + HEADER + |payload|];
    assert t == t[..|payload|] + t[|payload|..];
    assert t[|payload|..] == buf[pos + HEADER + |payload|..];
  }

  /** A record written right behind the others joins them. */
  lemma RecordJoins(buf: seq<byte>, pos: nat, args: seq<Arg>, a: Arg, buf': seq<byte>, rest: seq<byte>)
    requires pos == HEADER + |Stream(args)| && pos <= |buf| && Holds(buf, HEADER, Stream(args))
    requires buf' == buf[..pos] + Record(a) + rest
    ensures Holds(buf', HEADER, Stream(args + [a])) && buf'[..HEADER] == buf[..HEADER]
    ensures HEADER + |Stream(args + [a])| == pos + |Record(a)|
  {
    hide Record, Stream;
    StreamAppend(args, a);
    var s := Stream(args);
    assert buf'[HEADER..pos] == buf[HEADER..pos] == s;
    assert buf'[HEADER..HEADER + |s + Record(a)|] == buf'[HEADER..pos] + buf'[pos..pos + |Record(a)|];
  }

  lemma StillHolds(before: seq<byte>, after: seq<byte>, pos: nat, s: seq<byte>)
    requires |before| <= |after| && after[..|before|] == before && Holds(before, pos, s)
    ensures Holds(after, pos, s)
  {
    assert after[pos..pos + |s|] == after[..|before|][pos..pos + |s|];
  }

  lemma FrontHeld(before: seq<byte>, after: seq<byte>, pos: nat, s: seq<byte>)
    requires |before| == |after| && pos <= |before| && HEADER + |s| == pos && Holds(before, HEADER, s)
    requires forall i :: 0 <= i < pos ==> after[i] == before[i]
    ensures Holds(after, HEADER, s) && after[..HEADER] == before[..HEADER]
  {
  }

  lemma PayloadIs(buf: seq<byte>, at: nat, bytes: seq<byte>)
    requires Holds(buf, at, bytes)
    ensures at + |bytes| <= |buf| && buf[at..at + |bytes|] == bytes
  {
  }

  lemma WordStored(buf: seq<byte>, at: nat, x: int)
    requires at + 4 <= |buf|
    ensures |Stored(buf, at, Le32(x))| == |buf|
    ensures Word(Stored(buf, at, Le32(x)), at) == Wrap32(x)
    ensures forall i :: 0 <= i < |buf| && !(at <= i < at + 4) ==> Stored(buf, at, Le32(x))[i] == buf[i]
  {
    hide Le32;
    PayloadStored(buf, at, Le32(x));
    WordHeld(Stored(buf, at, Le32(x)), at, x);
  }

  lemma WordSame(a: seq<byte>, b: seq<byte>, at: nat)
    requires at + 4 <= |a| && at + 4 <= |b| && forall i :: at <= i < at + 4 ==> a[i] == b[i]
    ensures Word(a, at) == Word(b, at)
  {
    assert a[at..at + 4] == b[at..at + 4];
  }

  lemma HeldSame(a: seq<byte>, b: seq<byte>, at: nat, s: seq<byte>)
    requires |a| == |b| && Holds(a, at, s) && forall i :: at <= i < at + |s| ==> a[i] == b[i]
    ensures Holds(b, at, s)
  {
    assert b[at..at + |s|] == a[at..at + |s|];
  }

  lemma CallParamsStored(b0: seq<byte>, magic: u32, opcode: u32, version: u32, b3: seq<byte>, s: seq<byte>)
    requires |b0| >= HEADER && Holds(b0, HEADER, s)
    requires b3 == Stored(Stored(Stored(b0, 0, Le32(magic)), 4, Le32(opcode)), 8, Le32(version))
    ensures Word(b3, 0) == magic && Word(b3, 4) == opcode && Word(b3, 8) == version && Holds(b3, HEADER, s)
  {
    hide Stored, Le32, Word, Holds;
    WordStored(b0, 0, magic);
    var b1 := Stored(b0, 0, Le32(magic));
    WordStored(b1, 4, opcode);
    var b2 := Stored(b1, 4, Le32(opcode));
    WordStored(b2, 8, version);
    WordSame(b1, b3, 0);
    WordSame(b2, b3, 4);
    PayloadIs(b0, HEADER, s);
    HeldSame(b0, b3, HEADER, s);
  }

  lemma FinalizeStores(b0: seq<byte>, b1: seq<byte>, b2: seq<byte>, args: seq<Arg>)
    requires |b0| >= HEADER && Holds(b0, HEADER, Stream(args)) && HEADER + |Stream(args)| + FOOTER <= |b0|
    requires b1 == Stored(b0, 12, Le32(|Stream(args)|))
    requires |b1| == |b0| && b2 == Stored(b1, HEADER + |Stream(args)|, Le32(CHECKSUM))
    ensures Finished(b2, args) && b2[..12] == b0[..12]
  {
    hide Stored, Le32, Word, Holds, Stream;
    StreamLength(args);
    var t := HEADER + |Stream(args)|;
    WordStored(b0, 12, |Stream(args)|);
    WordStored(b1, t, CHECKSUM);
    WordSame(b1, b2, 12);
    HeldSame(b0, b2, HEADER, Stream(args));
  }

  lemma PayloadStored(buf: seq<byte>, at: nat, bytes: seq<byte>)
    requires at + |bytes| <= |buf|
    ensures Holds(Stored(buf, at, bytes), at, bytes)
    ensures |Stored(buf, at, bytes)| == |buf| && forall i :: 0 <= i < at ==> Stored(buf, at, bytes)[i] == buf[i]
  {
  }

  // ---- the parcel ----

  class Payload {
    var data: array<byte>
    var dataPos: nat
    /** Arguments written since the last reset. */
    ghost var args: seq<Arg>

    /** A parcel being printed. */
    ghost predicate Valid()
      reads this, data
    {
      && data.Length >= FIRST_SIZE
      && dataPos == HEADER + |Stream(args)|
      && Holds(data[..], HEADER, Stream(args))
    }

    /** `gsl_rpc_parcel_init` */
    constructor ()
      ensures Valid() && fresh(data) && data.Length == FIRST_SIZE && dataPos == HEADER && args == []
    {
      data := new byte[FIRST_SIZE](_ => 0);
      dataPos := HEADER;
      args := [];
    }

    /** A received parcel, ready to be parsed. */
    constructor Received(bytes: seq<byte>)
      ensures fresh(data) && data[..] == bytes && dataPos == HEADER
    {
      data := new byte[|bytes|](i requires 0 <= i < |bytes| => bytes[i]);
      dataPos := HEADER;
      args := [];
    }

    /** `gsl_rpc_parcel_reset` */
    method Reset()
      requires data.Length >= FIRST_SIZE
      modifies this`dataPos, this`args, data
      ensures Valid() && args == [] && forall i :: 0 <= i < data.Length ==> data[i] == 0
    {
      dataPos := HEADER;
      forall i | 0 <= i < data.Length {
        data[i] := 0;
      }
      args := [];
    }

    /** `grow_data`; `memory` tells whether the allocation succeeds. */
    method Grow(len: nat, memory: bool) returns (ok: bool)
      modifies this`data
      ensures ok == memory
      ensures !ok ==> data == old(data)
      ensures ok ==> fresh(data) && data.Length == Grown(old(data.Length), len)
      ensures ok ==> data.Length >= old(data.Length) && data[..old(data.Length)] == old(data[..])
    {
      if !memory {
        return false;
      }
      var newData := new byte[Grown(data.Length, len)];
      forall i | 0 <= i < data.Length {
        newData[i] := data[i];
      }
      data := newData;
      ok := true;
    }

    method Store(at: nat, bytes: seq<byte>)
      requires at + |bytes| <= data.Length
      modifies data
      ensures data[..] == Stored(old(data[..]), at, bytes)
    {
      forall i | 0 <= i < |bytes| {
        data[at + i] := bytes[i];
      }
    }

    /** Makes room for `len` bytes of payload, or reports that it could not. */
    method MakeRoom(need: nat, len: nat, memory: bool) returns (ok: bool)
      requires Valid() && need <= HEADER + len + FOOTER
      modifies this`data
      ensures ok <==> memory || dataPos + need <= old(data.Length)
      ensures Valid() && (data == old(data) || fresh(data)) && (!ok ==> data == old(data))
      ensures !memory ==> data == old(data)
      ensures ok ==> dataPos + need <= data.Length
      ensures old(data.Length) <= data.Length && data[..old(data.Length)] == old(data[..])
      ensures forall n :: 0 <= n <= HEADER ==> data[..n] == old(data[..n])
    {
      hide Stream;
      ok := true;
      if dataPos + need > data.Length {
        GrownHasRoom(data.Length, len);
        ghost var before := data[..];
        assert dataPos <= data.Length;
        ok := Grow(len, memory);
        if ok {
          StillHolds(before, data[..], HEADER, Stream(args));
          forall n | 0 <= n <= HEADER ensures data[..n] == before[..n] {
            assert data[..|before|][..n] == data[..n];
          }
        }
      }
    }

    method StorePayload(pos: nat, payload: Option<seq<byte>>, ghost s: seq<byte>)
      requires payload.Some? ==> pos + HEADER + |payload.value| <= data.Length
      requires pos <= data.Length && HEADER + |s| == pos && Holds(data[..], HEADER, s)
      modifies data
      ensures payload.Some? ==> data[pos + HEADER..pos + HEADER + |payload.value|] == payload.value
      ensures Holds(data[..], HEADER, s) && data[..HEADER] == old(data[..HEADER])
    {
      hide Holds, Stored;
      ghost var before := data[..];
      if payload.Some? {
        PayloadStored(before, pos + HEADER, payload.value);
        Store(pos + HEADER, payload.value);
        FrontHeld(before, data[..], pos, s);
        PayloadIs(data[..], pos + HEADER, payload.value);
      }
    }

    /** Header fields and footer around a payload already in place. */
    method PutRecord(pos: nat, id: u32, len: nat) returns (ghost rest: seq<byte>)
      requires pos + HEADER + len + FOOTER <= data.Length
      modifies data
      ensures data[..] == old(data[..pos]) + Record(Arg(id, old(data[pos + HEADER..pos + HEADER + len]))) + rest
    {
      hide Record, Le32, Stored;
      rest := RecordStored(data[..], pos, id, data[pos + HEADER..pos + HEADER + len]);
      Store(pos, Le32(DATA_MAGIC));
      Store(pos + 4, Le32(id));
      Store(pos + 8, Le32(RECORD_VERSION));
      Store(pos + 12, Le32(len));
      Store(pos + HEADER + len, Le32(CHECKSUM));
    }

    /** `GSL_RPC_WRITE_DATA`: appends one record, growing the buffer as needed, or changes
        nothing. With no payload given the record's bytes are what the buffer held. */
    method WriteData(id: u32, len: nat, payload: Option<seq<byte>>, memory: bool)
      returns (ok: bool, ghost written: seq<byte>)
      requires Valid() && (payload.Some? ==> |payload.value| == len)
      modifies this, data
      ensures Valid() && (data == old(data) || fresh(data))
      ensures ok <==> memory || old(dataPos) + HEADER + len + FOOTER <= old(data.Length)
      ensures !memory ==> data == old(data)
      ensures ok ==> args == old(args) + [Arg(id, written)] && |written| == len
      ensures ok && payload.Some? ==> written == payload.value
      ensures !ok ==> args == old(args) && dataPos == old(dataPos)
      ensures data[..HEADER] == old(data[..HEADER])
    {
      hide Record, Stream, Le32, Holds;
      written := [];
      ok := MakeRoom(HEADER + len + FOOTER, len, memory);
      if ok {
        var pos := dataPos;
        StorePayload(pos, payload, Stream(args));
        ghost var filled := data[..];
        written := data[pos + HEADER..pos + HEADER + len];
        ghost var rest := PutRecord(pos, id, len);
        RecordJoins(filled, pos, args, Arg(id, written), data[..], rest);
        dataPos := pos + len + HEADER + FOOTER;
        args := args + [Arg(id, written)];
      }
    }

    /** `gsl_rpc_finalize` */
    method Finalize(memory: bool) returns (ok: bool)
      requires Valid()
      modifies this`data, this`dataPos, data
      ensures ok <==> memory || old(dataPos) + FOOTER <= old(data.Length)
      ensures data == old(data) || fresh(data)
      ensures !ok ==> Valid()
      ensures ok ==> Finished(data[..], args) && dataPos == old(dataPos) + FOOTER
      ensures ok ==> data[..12] == old(data[..12])
    {
      hide Stream, Le32, Holds;
      ok := MakeRoom(FOOTER, FOOTER, memory);
      if ok {
        ghost var before := data[..];
        Store(12, Le32(dataPos - HEADER));
        ghost var between := data[..];
        Store(dataPos, Le32(CHECKSUM));
        FinalizeStores(before, between, data[..], args);
        dataPos := dataPos + FOOTER;
      }
    }

    /** `gsl_rpc_set_call_params` */
    method SetCallParams(opcode: u32, version: u32)
      requires Valid()
      modifies data
      ensures Valid()
      ensures Word(data[..], 0) == CALL_MAGIC && Word(data[..], 4) == opcode && Word(data[..], 8) == version
    {
      hide Stream, Le32, Holds, Word;
      ghost var before := data[..];
      Store(0, Le32(CALL_MAGIC));
      Store(4, Le32(opcode));
      Store(8, Le32(version));
      CallParamsStored(before, CALL_MAGIC, opcode, version, data[..], Stream(args));
    }

    /** `gsl_rpc_get_arg_ptr`: the position moves past a record whose header matches.
        `reach` is where the furthest byte ends that was looked at; the footer is not looked
        at here when it is not all inside. */
    method GetArg(id: u32, size: nat) returns (r: Read, ghost reach: nat)
      modifies this`dataPos
      ensures r == ReadAt(data[..], old(dataPos), id, size)
      ensures dataPos == if r.Refused? then old(dataPos) else r.next
      ensures reach == Reach(data[..], old(dataPos), id, size)
    {
      r, reach := Refused, 0;
      if dataPos + size + HEADER <= data.Length {
        ghost var buf := data[..];
        var magic, argId, argSize := WordAt(dataPos), WordAt(dataPos + 4), WordAt(dataPos + 12);
        reach := dataPos + HEADER;
        if magic == DATA_MAGIC && argId == id && argSize == size {
          var payload := data[dataPos + HEADER..dataPos + HEADER + size];
          assert payload == buf[dataPos + HEADER..dataPos + HEADER + size];
          dataPos := dataPos + size + HEADER;
          reach := dataPos + FOOTER;
          if dataPos + FOOTER > data.Length {
            dataPos := dataPos + FOOTER;
            r := PastEnd(dataPos);
          } else {
            var sum := WordAt(dataPos);
            dataPos := dataPos + FOOTER;
            r := if sum == CHECKSUM then Got(payload, dataPos) else BadChecksum(dataPos);
          }
        } else {
          reach := Max(reach, DumpEnd(WordAt(12), data.Length));
        }
      }
    }

    function WordAt(pos: nat): (w: u32)
      requires pos + 4 <= data.Length
      reads this, data
      ensures w == Word(data[..], pos)
    {
      assert data[pos..pos + 4] == data[..][pos..pos + 4];
      Un32(data[pos..pos + 4])
    }

    // The typed printers and parsers.

    method WriteWord(v: u32, memory: bool) returns (ok: bool)
      requires Valid()
      modifies this, data
      ensures Valid() && (data == old(data) || fresh(data))
      ensures ok <==> memory || old(dataPos) + HEADER + 4 + FOOTER <= old(data.Length)
      ensures !memory ==> data == old(data)
      ensures data[..HEADER] == old(data[..HEADER])
      ensures args == if ok then old(args) + [Arg(WORD_DATA, Le32(v))] else old(args)
    {
      ghost var written;
      ok, written := WriteData(WORD_DATA, 4, Some(Le32(v)), memory);
    }

    method WriteLong(v: u64, memory: bool) returns (ok: bool)
      requires Valid()
      modifies this, data
      ensures Valid() && (data == old(data) || fresh(data))
      ensures ok <==> memory || old(dataPos) + HEADER + 8 + FOOTER <= old(data.Length)
      ensures !memory ==> data == old(data)
      ensures data[..HEADER] == old(data[..HEADER])
      ensures args == if ok then old(args) + [Arg(LONG_DATA, Le64(v))] else old(args)
    {
      ghost var written;
      ok, written := WriteData(LONG_DATA, 8, Some(Le64(v)), memory);
    }

    /** `gsl_rpc_write`: with no data the record holds whatever the buffer held. */
    method WriteBlob(blob: Option<seq<byte>>, len: nat, memory: bool) returns (ok: bool)
      requires Valid() && (blob.Some? ==> |blob.value| == len)
      modifies this, data
      ensures Valid() && (data == old(data) || fresh(data))
      ensures ok <==> memory || old(dataPos) + HEADER + len + FOOTER <= old(data.Length)
      ensures !memory ==> data == old(data)
      ensures data[..HEADER] == old(data[..HEADER])
      ensures !ok ==> args == old(args)
      ensures ok ==>
                exists p :: |p| == len && (blob.Some? ==> p == blob.value) && args == old(args) + [Arg(BLOB_DATA, p)]
    {
      ghost var written;
      ok, written := WriteData(BLOB_DATA, len, blob, memory);
    }

    /** Any typed value: a blob, or an integer of either width and sign. */
    method WriteValue(v: Value, memory: bool) returns (ok: bool)
      requires Valid()
      modifies this, data
      ensures Valid() && (data == old(data) || fresh(data))
      ensures ok <==> memory || old(dataPos) + |Record(Printed(v))| <= old(data.Length)
      ensures !memory ==> data == old(data)
      ensures data[..HEADER] == old(data[..HEADER])
      ensures args == if ok then old(args) + [Printed(v)] else old(args)
    {
      hide Stream, Holds, Le32, Le64;
      match v {
        case Blob(bytes) => ok := WriteBlob(Some(bytes), |bytes|, memory);
        case U32(x) => ok := WriteWord(x, memory);
        case U64(x) => ok := WriteLong(x, memory);
        case I32(x) =>
          Le32OfLow(x);
          ok := WriteWord(Wrap32(x), memory);
        case I64(x) =>
          Le64OfLow(x);
          ok := WriteLong(Wrap64(x), memory);
      }
    }

    /** A sequence of values, one after another until one cannot be written: the first that
        does not fit a buffer that cannot grow. `n` is the number of those written. */
    method WriteAll(vs: seq<Value>, memory: bool) returns (ok: bool, ghost n: nat)
      requires Valid()
      modifies this, data
      ensures Valid() && (data == old(data) || fresh(data)) && (!memory ==> data == old(data))
      ensures ok <==> memory || old(dataPos) + TotalSize(PrintedAll(vs)) <= old(data.Length)
      ensures n <= |vs| && (ok <==> n == |vs|) && args == old(args) + PrintedAll(vs[..n])
      ensures !ok ==> old(dataPos) + TotalSize(PrintedAll(vs[..n])) <= data.Length
                      < old(dataPos) + TotalSize(PrintedAll(vs[..n + 1]))
      ensures data[..HEADER] == old(data[..HEADER])
    {
      hide Stream, Holds, Printed, Record, PrintedAll, TotalSize;
      ok, n := true, 0;
      var i := 0;
      PrintedSnoc([], vs, 0);
      NoneTotal(vs);
      ValidRoom();
      while i < |vs|
        invariant 0 <= i <= |vs| && n == i && ok && Valid() && (data == old(data) || fresh(data))
        invariant args == old(args) + PrintedAll(vs[..i])
        invariant dataPos == old(dataPos) + TotalSize(PrintedAll(vs[..i])) <= data.Length
        invariant !memory ==> data == old(data)
        invariant data[..HEADER] == old(data[..HEADER])
      {
        PrintedSnoc(old(args), vs, i);
        TotalSnoc(vs, i);
        TotalPrefix(vs, i + 1);
        ok := WriteValue(vs[i], memory);
        ValidRoom();
        if !ok {
          return;
        }
        StreamSnoc(old(args) + PrintedAll(vs[..i]), Printed(vs[i]));
        i, n := i + 1, n + 1;
      }
      assert vs[..i] == vs;
    }

    lemma ValidRoom()
      requires Valid()
      ensures dataPos == HEADER + |Stream(args)| <= data.Length
    {
    }

    /** The typed parsers: the next argument, if it is there in the type and size of `like`. */
    method ReadValue(like: Value) returns (r: Option<Value>)
      modifies this`dataPos
      ensures var got := ReadAt(data[..], old(dataPos), Printed(like).id, |Printed(like).payload|);
              && (r.Some? <==> got.Got?)
              && (got.Got? ==> r.value == Parsed(like, got.payload))
              && dataPos == if got.Refused? then old(dataPos) else got.next
    {
      hide Parsed, Printed;
      var want := Printed(like);
      var got;
      ghost var reach;
      got, reach := GetArg(want.id, |want.payload|);
      r := if got.Got? then Some(Parsed(like, got.payload)) else None;
    }

    /** Values of the types of `like`, one after another until one is not there. */
    method ReadAll(like: seq<Value>) returns (r: Option<seq<Value>>)
      modifies this`dataPos
      ensures r == ParseAll(data[..], old(dataPos), like)
    {
      hide ParseAll, Parsed, Printed, ReadAt;
      var vs := [];
      var i := 0;
      ghost var start := dataPos;
      assert like[0..] == like && forall v: seq<Value> :: [] + v == v;
      while i < |like|
        invariant 0 <= i <= |like|
        invariant ParseAll(data[..], start, like) == Prepended(vs, ParseAll(data[..], dataPos, like[i..]))
      {
        ParseNext(data[..], dataPos, like, i);
        var v := ReadValue(like[i]);
        if v.None? {
          return None;
        }
        PrependOne(vs, v.value, ParseAll(data[..], dataPos, like[i + 1..]));
        vs := vs + [v.value];
        i := i + 1;
      }
      ParseNone(data[..], dataPos);
      assert like[i..] == [] && vs + [] == vs;
      r := Some(vs);
    }
  }

  lemma PrintedSnoc(args: seq<Arg>, vs: seq<Value>, i: nat)
    requires i <= |vs|
    ensures PrintedAll(vs[..0]) == [] && forall args: seq<Arg> :: args + [] == args
    ensures i < |vs| ==> args + PrintedAll(vs[..i + 1]) == args + PrintedAll(vs[..i]) + [Printed(vs[i])]
  {
    hide Printed;
    if i < |vs| {
      assert PrintedAll(vs[..i + 1]) == PrintedAll(vs[..i]) + [Printed(vs[i])];
    }
  }

  lemma NoneTotal(vs: seq<Value>)
    ensures TotalSize(PrintedAll(vs[..0])) == 0
  {
  }

  lemma TotalSnoc(vs: seq<Value>, i: nat)
    requires i < |vs|
    ensures TotalSize(PrintedAll(vs[..i + 1])) == TotalSize(PrintedAll(vs[..i])) + |Record(Printed(vs[i]))|
  {
    hide Printed, Le32;
    var a := PrintedAll(vs[..i + 1]);
    assert a[..i] == PrintedAll(vs[..i]) && a[i] == Printed(vs[i]);
    RecordLength(a[i]);
  }

  lemma RecordLength(a: Arg)
    ensures |Record(a)| == HEADER + |a.payload| + FOOTER
  {
  }

  lemma {:induction false} TotalPrefix(vs: seq<Value>, i: nat)
    requires i <= |vs|
    ensures TotalSize(PrintedAll(vs[..i])) <= TotalSize(PrintedAll(vs))
    decreases |vs| - i
  {
    hide Printed, Record, TotalSize, PrintedAll;
    if i == |vs| {
      assert vs[..i] == vs;
    } else {
      TotalSnoc(vs, i);
      TotalPrefix(vs, i + 1);
    }
  }

  lemma StreamSnoc(args: seq<Arg>, a: Arg)
    ensures |Stream(args + [a])| == |Stream(args)| + |Record(a)|
  {
    hide Record;
    StreamAppend(args, a);
  }

  function Prepended(vs: seq<Value>, r: Option<seq<Value>>): Option<seq<Value>> {
    if r.None? then None else Some(vs + r.value)
  }

  lemma PrependOne(vs: seq<Value>, v: Value, r: Option<seq<Value>>)
    ensures Prepended(vs, Prepended([v], r)) == Prepended(vs + [v], r)
  {
    if r.Some? {
      assert vs + ([v] + r.value) == vs + [v] + r.value;
    }
  }

  lemma ParseNone(buf: seq<byte>, pos: nat)
    ensures ParseAll(buf, pos, []) == Some([])
  {
  }

  lemma ParseNext(buf: seq<byte>, pos: nat, like: seq<Value>, i: nat)
    requires i < |like|
    ensures var got := ReadAt(buf, pos, Printed(like[i]).id, |Printed(like[i]).payload|);
            ParseAll(buf, pos, like[i..]) ==
            if !got.Got? then None
            else Prepended([Parsed(like[i], got.payload)], ParseAll(buf, got.next, like[i + 1..]))
  {
    hide ReadAt, Parsed, Printed;
    assert like[i..][0] == like[i] && like[i..][1..] == like[i + 1..];
  }

  /** A call from end to end: print, finish, hand the bytes over, parse. The other side gets
      exactly the values that were sent, if and only if there is memory to grow or all fits the
      first buffer, and every value is one its type can hold; without room nothing is sent. */
  method Exchange(opcode: u32, version: u32, vs: seq<Value>, memory: bool) returns (r: Option<seq<Value>>)
    ensures var room := memory || HEADER + TotalSize(PrintedAll(vs)) + FOOTER <= FIRST_SIZE;
            && (r == Some(vs) <==> room && forall v <- vs :: InRange(v))
            && (!room ==> r == None)
  {
    hide Stream, Holds, Finished, ParseAll, InRange, TotalSize, PrintedAll;
    var p := new Payload();
    p.SetCallParams(opcode, version);
    var ok;
    ghost var n;
    ok, n := p.WriteAll(vs, memory);
    if !ok {
      return None;
    }
    assert vs[..n] == vs;
    p.ValidRoom();
    StreamLength(PrintedAll(vs));
    assert p.args == PrintedAll(vs);
    ok := p.Finalize(memory);
    if !ok {
      return None;
    }
    if forall v <- vs :: InRange(v) {
      ValuesRoundTrip(p.data[..], vs);
    }
    ParsedAreInRange(p.data[..], HEADER, vs);
    var q := new Payload.Received(p.data[..]);
    r := q.ReadAll(vs);
  }

  /** Whatever is parsed is a value of its type. */
  lemma {:induction false} ParsedAreInRange(buf: seq<byte>, pos: nat, like: seq<Value>)
    ensures var r := ParseAll(buf, pos, like); r.Some? ==> forall v <- r.value :: InRange(v)
    decreases |like|
  {
    hide ReadAt, Parsed, Printed, InRange;
    if like != [] {
      var want := Printed(like[0]);
      var r := ReadAt(buf, pos, want.id, |want.payload|);
      if r.Got? {
        GotIsShort(buf, pos, want.id, |want.payload|);
        ParsedInRange(like[0], r.payload);
        ParsedAreInRange(buf, r.next, like[1..]);
      }
    }
  }

  lemma GotIsShort(buf: seq<byte>, pos: nat, id: u32, size: nat)
    ensures ReadAt(buf, pos, id, size).Got? ==> |ReadAt(buf, pos, id, size).payload| == size < TWO32
  {
  }

  lemma ParsedInRange(like: Value, payload: seq<byte>)
    requires |payload| == |Printed(like).payload| && |payload| < TWO32
    ensures InRange(Parsed(like, payload))
  {
    hide Un32, Un64;
  }

  lemma SameByte(a: int, k: int)
    ensures (a + 0x100 * k) % 256 == a % 256
  {
  }

  lemma LowQuotients(y: int, q: int)
    ensures (y + TWO32 * q) / 0x100 == y / 0x100 + 0x100_0000 * q
    ensures (y + TWO32 * q) / 0x1_0000 == y / 0x1_0000 + 0x1_0000 * q
    ensures (y + TWO32 * q) / 0x100_0000 == y / 0x100_0000 + 0x100 * q
  {
  }

  lemma Le32OfLow(x: int)
    ensures Le32(Wrap32(x)) == Le32(x)
  {
    var y, q := Wrap32(x), x / TWO32;
    assert x == y + TWO32 * q;
    LowQuotients(y, q);
    SameByte(y, 0x100_0000 * q);
    SameByte(y / 0x100, 0x1_0000 * q);
    SameByte(y / 0x1_0000, 0x100 * q);
    SameByte(y / 0x100_0000, q);
  }

  lemma Le64OfLow(x: int)
    ensures Le64(Wrap64(x)) == Le64(x)
  {
    hide Le32;
    var y, q := Wrap64(x), x / TWO64;
    assert x == y + TWO64 * q;
    assert x / TWO32 == y / TWO32 + TWO32 * q;
    Le32OfLow(x);
    Le32OfLow(y);
    Le32OfLow(x / TWO32);
    Le32OfLow(y / TWO32);
    SameLow(x, y, q);
  }

  lemma SameLow(x: int, y: int, q: int)
    requires x == y + TWO64 * q
    ensures Wrap32(x) == Wrap32(y) && Wrap32(x / TWO32) == Wrap32(y / TWO32)
  {
  }

  /** A finished parcel: records, then the footer; the call header's size field holds the
      total size of the records. */
  ghost predicate Finished(buf: seq<byte>, args: seq<Arg>) {
    && Holds(buf, HEADER, Stream(args))
    && HEADER + TotalSize(args) + FOOTER <= |buf|
    && Word(buf, 12) == Wrap32(TotalSize(args))
    && Word(buf, HEADER + TotalSize(args)) == CHECKSUM
  }

  lemma ArgReads(buf: seq<byte>, args: seq<Arg>, k: nat, id: u32, size: nat)
    requires Finished(buf, args) && k < |args| && |args[k].payload| < TWO32
    ensures ReadAt(buf, HEADER + |Stream(args[..k])|, id, size) ==
            if id == args[k].id && size == |args[k].payload| then Got(args[k].payload, HEADER + |Stream(args[..k + 1])|)
            else Refused
  {
    hide Record, Stream, ReadAt, Word, Holds;
    StreamHolds(args, k);
    HoldsShift(buf, HEADER, Stream(args), |Stream(args[..k])|, Record(args[k]));
    RecordReads(buf, HEADER + |Stream(args[..k])|, args[k], id, size);
  }

  // ---- typed values ----

  /** What callers print, and ask for when they parse. */
  datatype Value = Blob(bytes: seq<byte>) | U32(u32: u32) | U64(u64: u64) | I32(i32: int) | I64(i64: int)

  predicate InRange(v: Value) {
    match v
    case Blob(bytes) => |bytes| < TWO32
    case U32(_) => true
    case U64(_) => true
    case I32(x) => -TWO31 <= x < TWO31
    case I64(x) => -TWO63 <= x < TWO63
  }

  function Printed(v: Value): Arg {
    match v
    case Blob(bytes) => Arg(BLOB_DATA, bytes)
    case U32(x) => Arg(WORD_DATA, Le32(x))
    case U64(x) => Arg(LONG_DATA, Le64(x))
    case I32(x) => Arg(WORD_DATA, Le32(x))
    case I64(x) => Arg(LONG_DATA, Le64(x))
  }

  function PrintedAll(vs: seq<Value>): (args: seq<Arg>)
    ensures |args| == |vs| && forall i :: 0 <= i < |vs| ==> args[i] == Printed(vs[i])
  {
    if vs == [] then [] else [Printed(vs[0])] + PrintedAll(vs[1..])
  }

  /** The payload taken for a value of the type of `like`. */
  function Parsed(like: Value, payload: seq<byte>): Value
    requires |payload| == |Printed(like).payload|
  {
    match like
    case Blob(_) => Blob(payload)
    case U32(_) => U32(Un32(payload))
    case U64(_) => U64(Un64(payload))
    case I32(_) => I32(Signed32(Un32(payload)))
    case I64(_) => I64(Signed64(Un64(payload)))
  }

  lemma PrintedParses(v: Value)
    requires InRange(v)
    ensures Parsed(v, Printed(v).payload) == v
  {
    hide Le32, Un32, Le64, Un64;
    match v
    case Blob(_) =>
    case U32(x) => Un32OfLe32(x);
    case U64(x) => Un64OfLe64(x);
    case I32(x) => SignedRoundTrip(x);
    case I64(x) => SignedRoundTrip(x);
  }

  /** Parsing from `pos` on, asking for the types and sizes of `like`. */
  function ParseAll(buf: seq<byte>, pos: nat, like: seq<Value>): Option<seq<Value>>
    decreases |like|
  {
    if like == [] then Some([])
    else
      var want := Printed(like[0]);
      var r := ReadAt(buf, pos, want.id, |want.payload|);
      if !r.Got? then None
      else
        var rest := ParseAll(buf, r.next, like[1..]);
        if rest.None? then None else Some([Parsed(like[0], r.payload)] + rest.value)
  }

  lemma PrintedHead(v: Value, more: seq<Value>)
    ensures Stream(PrintedAll([v] + more)) == Record(Printed(v)) + Stream(PrintedAll(more))
  {
    hide Record, Stream, Printed;
    assert ([v] + more)[1..] == more;
    assert [Printed(v)] + PrintedAll(more) == PrintedAll([v] + more);
    StreamHead(Printed(v), PrintedAll(more));
  }

  lemma {:induction false} ParseFrom(buf: seq<byte>, pos: nat, vs: seq<Value>)
    requires Holds(buf, pos, Stream(PrintedAll(vs))) && forall v <- vs :: InRange(v)
    ensures ParseAll(buf, pos, vs) == Some(vs)
    decreases |vs|
  {
    hide Record, Stream, ReadAt, Parsed, Printed, InRange, Holds, PrintedAll;
    if vs == [] {
    } else {
      hide ParseAll;
      var v, more := vs[0], vs[1..];
      assert vs == [v] + more;
      PrintedHead(v, more);
      ShortPayload(v);
      HeadReads(buf, pos, Printed(v), Stream(PrintedAll(more)));
      PrintedParses(v);
      var next := pos + |Record(Printed(v))|;
      ParseFrom(buf, next, more);
      ParseStep(buf, pos, v, more, Printed(v).payload, next, more);
    }
  }

  lemma ParseStep(buf: seq<byte>, pos: nat, v: Value, more: seq<Value>, payload: seq<byte>, next: nat, rest: seq<Value>)
    requires ReadAt(buf, pos, Printed(v).id, |Printed(v).payload|) == Got(payload, next)
    requires |payload| == |Printed(v).payload| && ParseAll(buf, next, more) == Some(rest)
    ensures ParseAll(buf, pos, [v] + more) == Some([Parsed(v, payload)] + rest)
  {
    hide ReadAt, Parsed;
    assert ([v] + more)[1..] == more;
  }

  lemma ShortPayload(v: Value)
    requires InRange(v)
    ensures |Printed(v).payload| < TWO32
  {
  }

  /** The parser, asked for the same types and sizes, returns exactly the values printed,
      whatever their number and however often the buffer grew. */
  lemma ValuesRoundTrip(buf: seq<byte>, vs: seq<Value>)
    requires Finished(buf, PrintedAll(vs)) && forall v <- vs :: InRange(v)
    ensures ParseAll(buf, HEADER, vs) == Some(vs)
  {
    ParseFrom(buf, HEADER, vs);
  }
}
