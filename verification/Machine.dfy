/** The sizes of the machine: its words and its pages. */
module Machine {
  const WORD: nat := 0x1_0000_0000_0000_0000
  const MAX_UINT64: nat := 0xFFFF_FFFF_FFFF_FFFF
  const PAGE_SIZE: nat := 4096
  const WORD_PAGES: nat := 0x10_0000_0000_0000
}
