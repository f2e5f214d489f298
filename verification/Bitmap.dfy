/** The free-block bitmap: bit `i` of a block is bit `i % 8` of byte `i / 8`
    (kernel/fs.c, mkfs/mkfs.c). */
module Bitmap {
  import opened Blocks

  /** Bits per bitmap block. */
  const BPB := BSIZE * 8

  /** `(x & (1 << k)) != 0` */
  predicate TestBit(x: nat, k: nat) {
    if k == 0 then x % 2 == 1 else TestBit(x / 2, k - 1)
  }

  /** `x | (1 << k)`, or `x & ~(1 << k)` when `on` is false. */
  function PutBit(x: nat, k: nat, on: bool): (y: nat) {
    if k == 0 then x / 2 * 2 + (if on then 1 else 0) else PutBit(x / 2, k - 1, on) * 2 + x % 2
  }

  lemma {:induction false} TestOfPut(x: nat, k: nat, on: bool, j: nat)
    ensures TestBit(PutBit(x, k, on), j) == if j == k then on else TestBit(x, j)
  {
    if k > 0 {
      assert PutBit(x, k, on) / 2 == PutBit(x / 2, k - 1, on);
      if j > 0 {
        TestOfPut(x / 2, k - 1, on, j - 1);
      }
    } else if j > 0 {
      assert PutBit(x, k, on) / 2 == x / 2;
    }
  }

  function Pow2(n: nat): (p: nat) {
    if n == 0 then 1 else 2 * Pow2(n - 1)
  }

  lemma {:induction false} PutBound(x: nat, k: nat, on: bool, n: nat)
    requires x < Pow2(n) && k < n
    ensures PutBit(x, k, on) < Pow2(n)
  {
    assert Pow2(n) == 2 * Pow2(n - 1) && x / 2 < Pow2(n - 1);
    if k > 0 {
      PutBound(x / 2, k - 1, on, n - 1);
    }
  }

  /** Bit `i` of a bitmap block. */
  predicate Bit(b: Block, i: nat)
    requires i < BPB
  {
    TestBit(b[i / 8], i % 8)
  }

  function SetBit(b: Block, i: nat, on: bool): (r: Block)
    requires i < BPB
  {
    PutBound(b[i / 8], i % 8, on, 8);
    assert Pow2(8) == 0x100;
    b[i / 8 := PutBit(b[i / 8], i % 8, on)]
  }

  /** Marking or clearing a block in the bitmap touches that block's bit alone. */
  lemma BitOfSetBit(b: Block, i: nat, on: bool, j: nat)
    requires i < BPB && j < BPB
    ensures Bit(SetBit(b, i, on), j) == if i == j then on else Bit(b, j)
  {
    TestOfPut(b[i / 8], i % 8, on, j % 8);
  }
}
