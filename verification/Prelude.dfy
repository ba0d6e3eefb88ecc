/** Fixed-width integers and the option, result and outcome types the other modules share. */
module Prelude {
  const U8_LIMIT := 0x100
  const U16_LIMIT := 0x1_0000
  const U32_LIMIT := 0x1_0000_0000
  const U64_LIMIT := 0x1_0000_0000_0000_0000
  const U32_MAX: u32 := 0xffff_ffff
  const U64_MAX: u64 := 0xffff_ffff_ffff_ffff

  type u8 = x: int | 0 <= x < U8_LIMIT
  type u16 = x: int | 0 <= x < U16_LIMIT
  type u32 = x: int | 0 <= x < U32_LIMIT
  type u64 = x: int | 0 <= x < U64_LIMIT

  datatype Option<+T> = None | Some(value: T)

  datatype Result<+T, +E> = Ok(value: T) | Err(error: E) {
    predicate IsFailure() {
      Err?
    }

    function PropagateFailure<U>(): Result<U, E>
      requires Err?
    {
      Err(error)
    }

    function Extract(): T
      requires Ok?
    {
      value
    }
  }

  datatype Outcome<+E> = Pass | Fail(error: E) {
    predicate IsFailure() {
      Fail?
    }

    function PropagateFailure<U>(): Result<U, E>
      requires Fail?
    {
      Err(error)
    }
  }

  function Min(a: int, b: int): int {
    if a <= b then a else b
  }

  /** `checked_add` on u64. */
  function CheckedAdd64(a: u64, b: u64): Option<u64> {
    if a + b < U64_LIMIT then Some(a + b) else None
  }

  /** `saturating_add` on u32. */
  function SaturatingAdd32(a: u32, b: u32): u32 {
    if a + b < U32_LIMIT then a + b else U32_MAX
  }

  /** The sequence view of a slot that holds at most one element. */
  function Slot<T>(slot: Option<T>): seq<T> {
    match slot
    case None => []
    case Some(x) => [x]
  }

  // ---- Little-endian bytes

  function FromLe16(b0: u8, b1: u8): u16 {
    b0 + 0x100 * b1
  }

  function FromLe32(b0: u8, b1: u8, b2: u8, b3: u8): u32 {
    FromLe16(b0, b1) + 0x1_0000 * FromLe16(b2, b3)
  }

  function Le16(v: u16): (bytes: seq<u8>)
    ensures |bytes| == 2
  {
    [v % 0x100, v / 0x100]
  }

  function Le32(v: u32): (bytes: seq<u8>)
    ensures |bytes| == 4
  {
    Le16(v % 0x1_0000) + Le16(v / 0x1_0000)
  }

  lemma Le16Inverse(v: u16, b0: u8, b1: u8)
    ensures Le16(v) == [b0, b1] <==> v == FromLe16(b0, b1)
  {
  }

  lemma Le32Inverse(v: u32, b0: u8, b1: u8, b2: u8, b3: u8)
    ensures Le32(v) == [b0, b1, b2, b3] <==> v == FromLe32(b0, b1, b2, b3)
  {
    var lo, hi := v % 0x1_0000, v / 0x1_0000;
    Le16Inverse(lo, b0, b1);
    Le16Inverse(hi, b2, b3);
    hide FromLe16;
    assert [b0, b1, b2, b3] == [b0, b1] + [b2, b3];
    if Le32(v) == [b0, b1, b2, b3] {
      assert Le16(lo) == Le32(v)[..2] == [b0, b1];
      assert Le16(hi) == Le32(v)[2..] == [b2, b3];
    }
  }

  // ---- Products and quotients

  lemma {:induction false} MultiplesGrow(i: nat, j: nat, interval: nat)
    requires i <= j
    ensures i * interval <= j * interval
    ensures (i + 1) * interval == i * interval + interval
  {
  }

  lemma QuotientIsUnique(a: nat, b: nat, p: nat, x: nat)
    requires p > 0 && a * p <= x < (a + 1) * p && b * p <= x < (b + 1) * p
    ensures a == b
  {
    if a < b {
      MultiplesGrow(a + 1, b, p);
    } else if b < a {
      MultiplesGrow(b + 1, a, p);
    }
  }
}
