/** Disk blocks as the kernel sees them: BSIZE bytes, which the log header, the
    indirect block and the bitmap read as little-endian 32-bit words. */
module Blocks {
  const BSIZE := 1024
  const WORDS := 256

  type Byte = x: int | 0 <= x < 256
  type Word32 = x: int | 0 <= x < 0x1_0000_0000
  type Block = b: seq<Byte> | |b| == BSIZE witness seq(BSIZE, _ => 0)

  const ZERO_BLOCK: Block := seq(BSIZE, _ => 0)

  /** Word `j` of a block: `((uint*)bp->data)[j]` on a little-endian machine. */
  function Word(b: Block, j: nat): (w: Word32)
    requires j < WORDS
  {
    var b0: int, b1: int, b2: int, b3: int := b[4 * j], b[4 * j + 1], b[4 * j + 2], b[4 * j + 3];
    b0 + 256 * b1 + 65536 * b2 + 16777216 * b3
  }

  function PutWord(b: Block, j: nat, w: Word32): (r: Block)
    requires j < WORDS
  {
    b[4 * j := w % 256]
     [4 * j + 1 := (w / 256) % 256]
     [4 * j + 2 := (w / 65536) % 256]
     [4 * j + 3 := w / 16777216]
  }

  /** Storing a word and loading it back gives the word; every other word is untouched. */
  lemma WordAfterPut(b: Block, j: nat, w: Word32, k: nat)
    requires j < WORDS && k < WORDS
    ensures Word(PutWord(b, j, w), k) == if k == j then w else Word(b, k)
  {
    if k == j {
      BytesOfWord(w);
    }
  }

  lemma BytesOfWord(w: Word32)
    ensures w == w % 256 + 256 * ((w / 256) % 256) + 65536 * ((w / 65536) % 256) + 16777216 * (w / 16777216)
  {
    var a, b, c := w / 256, w / 65536, w / 16777216;
    assert b == a / 256 && c == b / 256;
  }

  lemma ZeroWords(j: nat)
    requires j < WORDS
    ensures Word(ZERO_BLOCK, j) == 0
  {
  }
}
