/** Wrapping timestamps: the half-range comparison of `hgsl.h` and the choice of the
    next context timestamp in `hgsl.c`.

    A register holds `Wrap32(t)` for an unbounded time `t`. The comparison is right
    about unbounded times as long as they are less than half a turn apart. */
module Timestamps {
  import opened Units

  type u32 = x: int | 0 <= x < 0x1_0000_0000
  type u64 = x: int | 0 <= x < 0x1_0000_0000_0000_0000

  function Wrap32(t: int): u32 { t % 0x1_0000_0000 }

  function Wrap64(t: int): u64 { t % 0x1_0000_0000_0000_0000 }

  /** `hgsl_ts32_ge` */
  predicate Ts32Ge(a: u32, b: u32) { (a - b) % 0x1_0000_0000 < 0x8000_0000 }

  /** `hgsl_ts64_ge` */
  predicate Ts64Ge(a: u64, b: u64) { (a - b) % 0x1_0000_0000_0000_0000 < 0x8000_0000_0000_0000 }

  /** `hgsl_ts_ge`: 32-bit comparisons cast both sides first. */
  predicate TsGe(a: u64, b: u64, is64: bool) {
    if is64 then Ts64Ge(a, b) else Ts32Ge(Wrap32(a), Wrap32(b))
  }

  /** Width of a timeline counter and half of it. */
  function Half(is64: bool): int { if is64 then TWO63 else TWO31 }

  /** How far `to` is ahead of `from`, going forward. */
  function Ahead32(from: u32, to: u32): u32 { (to - from) % 0x1_0000_0000 }

  lemma WrapDifference32(a: int, b: int)
    ensures (Wrap32(a) - Wrap32(b)) % TWO32 == (a - b) % TWO32
  {
    var qa, qb := a / TWO32, b / TWO32;
    assert a == qa * TWO32 + Wrap32(a) && b == qb * TWO32 + Wrap32(b);
  }

  lemma WrapDifference64(a: int, b: int)
    ensures (Wrap64(a) - Wrap64(b)) % TWO64 == (a - b) % TWO64
  {
    var qa, qb := a / TWO64, b / TWO64;
    assert a == qa * TWO64 + Wrap64(a) && b == qb * TWO64 + Wrap64(b);
  }

  /** The comparison agrees with the order of unbounded times exactly when the number
      of half turns between them is even going forward, odd going back: in particular
      for every difference in [-2^31, 2^31). */
  lemma Ts32GeAgreesWithOrder(a: int, b: int)
    ensures (Ts32Ge(Wrap32(a), Wrap32(b)) <==> a >= b)
       <==> ((a - b) / TWO31) % 2 == (if a >= b then 0 else 1)
    ensures -TWO31 <= a - b < TWO31 ==> (Ts32Ge(Wrap32(a), Wrap32(b)) <==> a >= b)
  {
    WrapDifference32(a, b);
  }

  lemma Ts64GeAgreesWithOrder(a: int, b: int)
    ensures (Ts64Ge(Wrap64(a), Wrap64(b)) <==> a >= b)
       <==> ((a - b) / TWO63) % 2 == (if a >= b then 0 else 1)
    ensures -TWO63 <= a - b < TWO63 ==> (Ts64Ge(Wrap64(a), Wrap64(b)) <==> a >= b)
  {
    WrapDifference64(a, b);
  }

  /** Half a turn away the two registers are each "not at or after" the other. */
  lemma HalfTurnIsUnordered(a: int)
    ensures !Ts32Ge(Wrap32(a), Wrap32(a + TWO31)) && !Ts32Ge(Wrap32(a + TWO31), Wrap32(a))
  {
    WrapDifference32(a, a + TWO31);
    WrapDifference32(a + TWO31, a);
  }

  // ---- the next timestamp of a context (hgsl_db_next_timestamp) ----

  /** The three settings of the two context flags. A context with
      CLIENT_GENERATED_TS also has USER_GENERATED_TS. */
  datatype Mode = Unchecked | Client | Driver

  datatype Result<T> = Ok(value: T) | Err(code: int)

  const ERANGE: int := -34

  /** The timestamp the driver assigns after `queued`. */
  function Assign(queued: u32): u32 {
    var n := Wrap32(queued + 1);
    if n == UINT_MAX then 1 else n
  }

  function NextTimestamp(mode: Mode, queued: u32, given: u32): Result<u32> {
    match mode
    case Unchecked => Ok(given)
    case Client => if Ts32Ge(queued, given) then Err(ERANGE) else Ok(given)
    case Driver => Ok(Assign(queued))
  }

  /** Unbounded time of the register value `ts`, read as being ahead of time `from`. */
  function Lift(from: int, ts: u32): int { from + Ahead32(Wrap32(from), ts) }

  lemma LiftWraps(from: int, ts: u32)
    ensures Wrap32(Lift(from, ts)) == ts
  {
    var q := from / TWO32;
    assert from == q * TWO32 + Wrap32(from);
  }

  lemma AssignIsAhead(queued: u32)
    ensures 1 <= Ahead32(queued, Assign(queued)) <= 3
  {}

  /** An accepted timestamp lies ahead of `queued` by at least one and at most half a
      turn; a client's value is refused exactly when it does not. */
  lemma NextTimestampIsLater(mode: Mode, queued: int, given: u32)
    requires mode != Unchecked
    ensures var r := NextTimestamp(mode, Wrap32(queued), given);
            && (r.Ok? <==> mode == Driver || 0 < Lift(queued, given) - queued <= TWO31)
            && (r.Ok? ==> 0 < Lift(queued, r.value) - queued <= TWO31
                          && Wrap32(Lift(queued, r.value)) == r.value)
            && (r.Ok? && mode == Client ==> r.value == given)
            && (r.Err? ==> r.code == -34)
  {
    LiftWraps(queued, given);
    if mode == Driver {
      AssignIsAhead(Wrap32(queued));
      LiftWraps(queued, Assign(Wrap32(queued)));
    }
  }

  /** The value 0 is assigned exactly after 2^32 - 1, which the driver itself never
      assigns; 2^32 - 1 is never assigned. */
  lemma AssignAvoidsSpecialValues(queued: u32)
    ensures Assign(queued) != UINT_MAX
    ensures Assign(queued) == 0 <==> queued == UINT_MAX
  {}

  /** What the driver assigns is the next time, unless that reads all ones: then it skips that one
      and the zero after it. */
  lemma AssignIsNext(queued: int)
    ensures Lift(queued, Assign(Wrap32(queued))) == queued + if Wrap32(queued + 1) == UINT_MAX then 3 else 1
  {
    var q := queued / TWO32;
    assert queued == q * TWO32 + Wrap32(queued);
  }

  /** Time of the `n`th driver-assigned timestamp of a context that starts at 0. */
  function AssignedTime(n: nat): int {
    if n == 0 then 0 else Lift(AssignedTime(n - 1), Assign(Wrap32(AssignedTime(n - 1))))
  }

  lemma AssignStep(t: int)
    requires Wrap32(t) != UINT_MAX
    ensures var u := Lift(t, Assign(Wrap32(t)));
            1 <= u - t <= 3 && Wrap32(u) != UINT_MAX && Wrap32(u) != 0
  {
    AssignIsAhead(Wrap32(t));
    AssignAvoidsSpecialValues(Wrap32(t));
    LiftWraps(t, Assign(Wrap32(t)));
  }

  lemma {:induction false} AssignedTimeSteps(n: nat)
    ensures Wrap32(AssignedTime(n)) != UINT_MAX
    ensures n > 0 ==> Wrap32(AssignedTime(n)) != 0 && 1 <= AssignedTime(n) - AssignedTime(n - 1) <= 3
  {
    if n > 0 {
      hide Lift, Wrap32, Assign;
      AssignedTimeSteps(n - 1);
      AssignStep(AssignedTime(n - 1));
    }
  }

  lemma {:induction false} AssignedTimesIncrease(i: nat, j: nat)
    requires i <= j
    ensures j - i <= AssignedTime(j) - AssignedTime(i) <= 3 * (j - i)
    decreases j
  {
    if i < j {
      AssignedTimesIncrease(i, j - 1);
      AssignedTimeSteps(j);
    }
  }

  /** Every driver-assigned timestamp of an unbounded run is later than every one
      before it, is never 0 or 2^32 - 1, and the registers say so for any two fewer
      than 2^31 / 3 assignments apart. */
  lemma DriverTimestampsNeverRepeatOrSpecial(i: nat, j: nat)
    requires i < j
    ensures AssignedTime(i) < AssignedTime(j)
    ensures Wrap32(AssignedTime(j)) != 0 && Wrap32(AssignedTime(j)) != UINT_MAX
    ensures 3 * (j - i) < TWO31 ==>
              Ts32Ge(Wrap32(AssignedTime(j)), Wrap32(AssignedTime(i)))
              && !Ts32Ge(Wrap32(AssignedTime(i)), Wrap32(AssignedTime(j)))
  {
    AssignedTimesIncrease(i, j);
    AssignedTimeSteps(j);
    Ts32GeAgreesWithOrder(AssignedTime(j), AssignedTime(i));
    Ts32GeAgreesWithOrder(AssignedTime(i), AssignedTime(j));
  }
}
