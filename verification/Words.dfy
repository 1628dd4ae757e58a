/** The machine words and the small value types that every other module shares. */
module Words {

  datatype Option<+T> = None | Some(value: T)

  const WORD: int := 0x1_0000_0000_0000_0000

  /** A 64-bit size_t: every amount of the ledger is one. */
  type Word = n: int | 0 <= n < 0x1_0000_0000_0000_0000

  /** size_t addition, which wraps around. */
  function Add(a: Word, b: Word): Word {
    if a + b < WORD then a + b else a + b - WORD
  }

  /** size_t subtraction, which wraps around. */
  function Sub(a: Word, b: Word): Word {
    if b <= a then a - b else a - b + WORD
  }

  function Min(a: nat, b: nat): nat {
    if a <= b then a else b
  }
}
