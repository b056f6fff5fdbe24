/** 64-bit unsigned words: the source's uint64. */
module Words {

  const TWO_TO_THE_64: nat := 0x1_0000_0000_0000_0000
  const MAX_WORD: nat := TWO_TO_THE_64 - 1

  type u64 = n: nat | n < TWO_TO_THE_64

  /** Addition that wraps. */
  function Add64(a: u64, b: u64): u64 {
    if a + b < TWO_TO_THE_64 then a + b else a + b - TWO_TO_THE_64
  }
}
