/** What several modules need: bytes and words, the smaller and the larger of two numbers, regrouped sequences. */
module Basics {

  const U32_RANGE: nat := 0x1_0000_0000

  newtype byte = x: int | 0 <= x < 256

  function Max(a: int, b: int): int { if a >= b then a else b }

  function Min(a: int, b: int): int { if a <= b then a else b }

  lemma Regroup<T>(a: seq<T>, b: seq<T>, c: seq<T>)
    ensures (a + b) + c == a + (b + c)
  {
  }
}
