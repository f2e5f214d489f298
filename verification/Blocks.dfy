/** Disk blocks as byte strings, and the 32-bit little-endian words that the
    kernel overlays on them (the log header, indirect blocks). */
module Blocks {

  const BSIZE := 1024
  const WORDS := 256

  type Byte = x: int | 0 <= x < 0x100

  type Word32 = x: int | 0 <= x < 0x1_0000_0000

  type Block = b: seq<Byte> | |b| == BSIZE witness seq(BSIZE, _ => 0)

  function ZeroBlock(): (b: Block) {
    seq(BSIZE, _ => 0)
  }

  /** The `i`-th 32-bit word of a block. */
  function Word(b: Block, i: nat): (w: Word32)
    requires i < WORDS
  {
    var b0: int, b1: int, b2: int, b3: int := b[4 * i], b[4 * i + 1], b[4 * i + 2], b[4 * i + 3];
    b0 + 0x100 * b1 + 0x1_0000 * b2 + 0x100_0000 * b3
  }

  /** The block after storing word `v` at word index `i`. */
  function SetWord(b: Block, i: nat, v: Word32): (r: Block)
    requires i < WORDS
  {
    b[4 * i := v % 0x100]
     [4 * i + 1 := v / 0x100 % 0x100]
     [4 * i + 2 := v / 0x1_0000 % 0x100]
     [4 * i + 3 := v / 0x100_0000]
  }

  /** A stored word reads back, and no other word of the block changes. */
  lemma WordOfSetWord(b: Block, i: nat, v: Word32, j: nat)
    requires i < WORDS && j < WORDS
    ensures Word(SetWord(b, i, v), j) == if i == j then v else Word(b, j)
  {
    var r := SetWord(b, i, v);
    if i == j {
      var v1 := v / 0x100;
      var v2 := v1 / 0x100;
      assert v / 0x1_0000 == v2 && v / 0x100_0000 == v2 / 0x100;
    } else {
      assert forall k :: 0 <= k < BSIZE && k / 4 != i ==> r[k] == b[k];
    }
  }

  lemma WordOfZero(i: nat)
    requires i < WORDS
    ensures Word(ZeroBlock(), i) == 0
  {}
}
