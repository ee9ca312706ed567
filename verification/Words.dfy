/** The machine word of the simulated OpenRISC. */
module Words {
  const WORD: nat := 0x1_0000_0000

  /** A 32-bit machine word. */
  type Word = w: int | 0 <= w < WORD
}
