/** Sizes and limits of the machine, and the smaller and greater of two numbers. */
module Units {

  const TWO31: int := 0x8000_0000
  const TWO32: int := 0x1_0000_0000
  const TWO63: int := 0x8000_0000_0000_0000
  const TWO64: int := 0x1_0000_0000_0000_0000
  const UINT_MAX: int := 0xFFFF_FFFF
  const PAGE_SIZE: int := 4096

  function Min(a: int, b: int): int { if a < b then a else b }

  function Max(a: int, b: int): int { if a < b then b else a }
}
