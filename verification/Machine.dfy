/** The 32-bit machine the code runs on: bytes, unsigned words, and alignment to RT_ALIGN_SIZE, which is 4. */
module Machine {

  type Byte = b: int | 0 <= b < 256

  const WORD_LIMIT := 0x1_0000_0000

  /** The unsigned 32-bit word that x is stored as. */
  function Wrap(x: int): (w: nat)
    ensures w < WORD_LIMIT
    ensures 0 <= x < WORD_LIMIT ==> w == x
    ensures 0 <= x ==> w <= x
  {
    x % 0x1_0000_0000
  }

  /** RT_ALIGN: the sum wraps around. */
  function AlignUp(n: nat): nat {
    Wrap(n + 3) / 4 * 4
  }

  /** RT_ALIGN_DOWN. */
  function AlignDown(n: nat): (d: nat)
    ensures d <= n && d % 4 == 0
  {
    n / 4 * 4
  }

  /** Every word becomes a multiple of 4, and a multiple of 4 stays as it is. */
  lemma Aligns(n: nat)
    ensures AlignUp(n) % 4 == 0 && AlignUp(n) < WORD_LIMIT
    ensures n % 4 == 0 && n < WORD_LIMIT ==> AlignUp(n) == n
  {}

  /** Aligning never gives less than was asked for, except where the sum wraps. */
  lemma AlignsUpIff(n: nat)
    requires n < WORD_LIMIT
    ensures AlignUp(n) >= n <==> n <= WORD_LIMIT - 4
    ensures n <= WORD_LIMIT - 4 ==> AlignUp(n) < n + 4
  {}
}
