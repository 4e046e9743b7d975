/** Disk blocks as byte sequences, and the 32-bit little-endian words the kernel
    reads and writes inside them by casting a block to an array of uint. */
module Blocks {
  const BSIZE: nat := 512

  /** uint entries per block: NINDIRECT, and room for the log header. */
  const WORDS: nat := 128

  type byte = x: int | 0 <= x < 256
  type word = x: int | 0 <= x < 0x1_0000_0000

  type Block = b: seq<byte> | |b| == BSIZE witness seq(BSIZE, _ => 0)

  /** A zeroed block. */
  function Zeros(): (b: Block)
    ensures forall i :: 0 <= i < BSIZE ==> b[i] == 0
  {
    seq(BSIZE, _ => 0)
  }

  function GetWord(b: Block, i: nat): word
    requires i < WORDS
  {
    b[4 * i] as int + 0x100 * (b[4 * i + 1] as int) + 0x1_0000 * (b[4 * i + 2] as int) + 0x100_0000 * (b[4 * i + 3] as int)
  }

  function PutWord(b: Block, i: nat, w: word): Block
    requires i < WORDS
  {
    b[4 * i := w % 0x100]
     [4 * i + 1 := w / 0x100 % 0x100]
     [4 * i + 2 := w / 0x1_0000 % 0x100]
     [4 * i + 3 := w / 0x100_0000]
  }

  /** The 16-bit and 32-bit little-endian numbers at a byte offset. */
  function ShortAt(blk: Block, o: nat): nat
    requires o + 2 <= BSIZE
  {
    blk[o] as int + 256 * (blk[o + 1] as int)
  }

  function UintAt(blk: Block, o: nat): nat
    requires o + 4 <= BSIZE
  {
    ShortAt(blk, o) + 65536 * ShortAt(blk, o + 2)
  }

  /** Storing a word changes that word and no other. */
  lemma PutGetWord(b: Block, i: nat, w: word, j: nat)
    requires i < WORDS && j < WORDS
    ensures GetWord(PutWord(b, i, w), j) == if i == j then w else GetWord(b, j)
  {
    WordBytes(w);
  }

  lemma WordBytes(w: word)
    ensures w == w % 0x100 + 0x100 * (w / 0x100 % 0x100) + 0x1_0000 * (w / 0x1_0000 % 0x100) + 0x100_0000 * (w / 0x100_0000)
  {
    assert w / 0x1_0000 == w / 0x100 / 0x100 && w / 0x100_0000 == w / 0x1_0000 / 0x100;
  }

  lemma ZeroWord(i: nat)
    requires i < WORDS
    ensures GetWord(Zeros(), i) == 0
  {
  }
}
