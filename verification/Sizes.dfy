/** Sizes of the 32-bit build. */
module Sizes {

  /** Bits in a word. */
  const WORDSZ: nat := 32

  /** Bytes in a heap block. */
  const HBLKSIZE: nat := 4096

  /** Words in a heap block. */
  const HBLK_WORDS: nat := 1024

  /** Words in a page hash table, and bits in it. */
  const PHT_SIZE: nat := 2048
  const PHT_ENTRIES: nat := 65536
}
