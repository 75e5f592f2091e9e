/** Disk blocks, the little-endian words laid out in them, and the flat disk that
    the buffer cache presents to the layers above it. */
module Disk {

  const BSIZE := 512
  const WORDS_PER_BLOCK := 128

  type Byte = x: int | 0 <= x < 0x100
  type Word = x: int | 0 <= x < 0x1_0000_0000

  type Block = b: seq<Byte> | |b| == BSIZE witness seq(BSIZE, _ => 0)
  type Blocks = seq<Block>

  const ZERO_BLOCK: Block := ZeroBlock()

  function ZeroBlock(): (b: Block) {
    seq(BSIZE, _ => 0)
  }

  /** The `i`th 32-bit word of a block, as the kernel reads it through a `uint*`. */
  function GetWord(b: Block, i: nat): (w: Word)
    requires i < WORDS_PER_BLOCK
  {
    var b0: int, b1: int, b2: int, b3: int := b[4 * i], b[4 * i + 1], b[4 * i + 2], b[4 * i + 3];
    b0 + 0x100 * b1 + 0x1_0000 * b2 + 0x100_0000 * b3
  }

  function PutWord(b: Block, i: nat, w: Word): (r: Block)
    requires i < WORDS_PER_BLOCK
  {
    b[4 * i := w % 0x100]
     [4 * i + 1 := w / 0x100 % 0x100]
     [4 * i + 2 := w / 0x1_0000 % 0x100]
     [4 * i + 3 := w / 0x100_0000]
  }

  /** Storing a word is read back, and disturbs no other word. */
  lemma GetPutWord(b: Block, i: nat, w: Word, j: nat)
    requires i < WORDS_PER_BLOCK && j < WORDS_PER_BLOCK
    ensures GetWord(PutWord(b, i, w), j) == if i == j then w else GetWord(b, j)
  {
    if i == j {
      var h := w / 0x100;
      assert w == 0x100 * h + w % 0x100;
      assert h / 0x100 == w / 0x1_0000 && h / 0x100 / 0x100 == w / 0x100_0000;
    }
  }

  /** Storing the same word twice is storing it once. */
  lemma PutWordIdempotent(b: Block, i: nat, w: Word)
    requires i < WORDS_PER_BLOCK
    ensures PutWord(PutWord(b, i, w), i, w) == PutWord(b, i, w)
  {
  }

  /** The storage seen through the buffer cache: `disk` is what a crash leaves behind,
      `view` is what the next `bread` of each block returns, and `dirty` holds the
      blocks whose latest contents exist only in pinned buffers. */
  datatype Flat = Flat(disk: Blocks, view: Blocks, dirty: set<nat>) {

    ghost predicate Ok() {
      && |view| == |disk|
      && (forall b <- dirty :: b < |disk|)
      && (forall b: nat | b < |disk| && b !in dirty :: view[b] == disk[b])
    }

    /** `bwrite`: the contents reach the disk at once and the buffer is clean. */
    function Write(b: nat, data: Block): (f: Flat)
      requires b < |disk| == |view|
    {
      Flat(disk[b := data], view[b := data], dirty - {b})
    }

    /** `log_write`: the contents become current but stay in a pinned buffer. */
    function Defer(b: nat, data: Block): (f: Flat)
      requires b < |disk| == |view|
    {
      Flat(disk, view[b := data], dirty + {b})
    }
  }

  /** A freshly booted machine sees exactly what is on disk. */
  function Boot(d: Blocks): (f: Flat) {
    Flat(d, d, {})
  }
}
