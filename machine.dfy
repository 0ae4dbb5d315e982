/** Integer widths of the AVR target. */
module Machine {

  /** `usize::MAX` on AVR, where `usize` is 16 bits wide. */
  const USIZE_MAX: nat := 0xFFFF
}
