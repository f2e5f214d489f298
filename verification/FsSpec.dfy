/** The block layer of kernel/fs.c on values: which inode slot owns each data
    block, and the byte string that an inode's block map stands for. */
module FsSpec {
  import opened Blocks
  import opened Bitmap
  import LogSpec

  const NDIRECT := 12
  const NINDIRECT := WORDS
  const MAXFILE := NDIRECT + NINDIRECT

  /** Inodes per block: BSIZE / sizeof(struct dinode). */
  const IPB := 16

  /** Places for a block number in an inode: the direct ones, the indirect
      root (slot NDIRECT), and the entries of the indirect block. */
  const SLOTS := NDIRECT + 1 + NINDIRECT

  type Addrs = a: seq<Word32> | |a| == NDIRECT + 1 witness seq(NDIRECT + 1, _ => 0)

  datatype Inode = Inode(typ: nat, major: nat, minor: nat, nlink: nat, size: nat, addrs: Addrs)

  datatype Slot = Slot(inum: nat, k: nat)

  /** Disk layout: boot block, superblock, log, inodes and bitmap come before `nmeta`. */
  datatype Layout = Layout(size: nat, ninodes: nat, inodestart: nat, bmapstart: nat, nmeta: nat) {
    ghost predicate Ok() {
      && 0 < nmeta <= size < 0x1_0000_0000
      && inodestart + ninodes / IPB < bmapstart
      && bmapstart + (size - 1) / BPB < nmeta
    }

    function Bblock(b: nat): (n: nat) {
      b / BPB + bmapstart
    }

    predicate IsBitmap(n: nat) {
      size > 0 && bmapstart <= n <= bmapstart + (size - 1) / BPB
    }

    function Iblock(inum: nat): (n: nat) {
      inum / IPB + inodestart
    }
  }

  /** Blocks with their latest contents, in-memory inodes, block owners, and the blocks
      that other processes have taken from the bitmap but not put into an inode yet. */
  datatype Fs = Fs(disk: seq<Block>, inodes: seq<Inode>, owner: map<nat, Slot>, others: set<nat>)

  /** The block number in slot `k`; 0 if there is none. */
  function Addr(ip: Inode, disk: seq<Block>, k: nat): (a: Word32)
    requires k < SLOTS
  {
    if k <= NDIRECT then ip.addrs[k]
    else if 0 < ip.addrs[NDIRECT] < |disk| then Word(disk[ip.addrs[NDIRECT]], k - NDIRECT - 1)
    else 0
  }

  /** The slot of the file's `bn`-th data block. */
  function DataSlot(bn: nat): (k: nat)
    requires bn < MAXFILE
    ensures k < SLOTS && k != NDIRECT
  {
    if bn < NDIRECT then bn else bn + 1
  }

  // ----- Ownership -----

  /** Every block number in an inode is owned by the slot that holds it. */
  ghost predicate Held(s: Fs) {
    forall i, k :: 0 <= i < |s.inodes| && 0 <= k < SLOTS && Addr(s.inodes[i], s.disk, k) != 0 ==>
      var a := Addr(s.inodes[i], s.disk, k); a in s.owner && s.owner[a] == Slot(i, k)
  }

  /** Every owned block is a data block and sits in its owner's slot. */
  ghost predicate Rooted(s: Fs, l: Layout) {
    forall b :: b in s.owner ==>
      && l.nmeta <= b < l.size && s.owner[b].inum < |s.inodes| && s.owner[b].k < SLOTS
      && Addr(s.inodes[s.owner[b].inum], s.disk, s.owner[b].k) == b
  }

  predicate Marked(l: Layout, disk: seq<Block>, b: nat) {
    b < l.size && l.Bblock(b) < |disk| && Bit(disk[l.Bblock(b)], b % BPB)
  }

  /** The bitmap marks the metadata, the owned blocks, and those of `loose`. */
  ghost predicate Bits(l: Layout, disk: seq<Block>, owner: map<nat, Slot>, loose: set<nat>) {
    forall b :: 0 <= b < l.size ==> (Marked(l, disk, b) <==> b < l.nmeta || b in owner || b in loose)
  }

  ghost predicate Loose(l: Layout, owner: map<nat, Slot>, loose: set<nat>) {
    forall b :: b in loose ==> l.nmeta <= b < l.size && b !in owner
  }

  /** The invariant of the block layer; `loose` blocks, as those of other processes, are
      marked but owned by no inode. */
  ghost predicate FsOk(l: Layout, s: Fs, loose: set<nat>) {
    && l.Ok() && |s.disk| == l.size && |s.inodes| == l.ninodes && loose !! s.others
    && Held(s) && Rooted(s, l) && Bits(l, s.disk, s.owner, loose + s.others) && Loose(l, s.owner, loose + s.others)
  }

  /** No block number appears twice in the file system. */
  lemma BlocksAreDistinct(l: Layout, s: Fs, loose: set<nat>, i: nat, k: nat, j: nat, m: nat)
    requires FsOk(l, s, loose) && i < |s.inodes| && j < |s.inodes| && k < SLOTS && m < SLOTS
    requires Addr(s.inodes[i], s.disk, k) == Addr(s.inodes[j], s.disk, m) != 0
    ensures i == j && k == m
  {}

  // ----- Attaching a fresh block -----

  /** Put block number `b` into an empty slot. */
  function Attached(s: Fs, inum: nat, k: nat, b: Word32): (r: Fs)
    requires inum < |s.inodes| && k < SLOTS
    requires k > NDIRECT ==> s.inodes[inum].addrs[NDIRECT] < |s.disk|
  {
    var ip := s.inodes[inum];
    if k <= NDIRECT then
      s.(inodes := s.inodes[inum := ip.(addrs := ip.addrs[k := b])], owner := s.owner[b := Slot(inum, k)])
    else
      var root := ip.addrs[NDIRECT];
      s.(disk := s.disk[root := SetWord(s.disk[root], k - NDIRECT - 1, b)], owner := s.owner[b := Slot(inum, k)])
  }

  /** Attaching fills that slot and no other. */
  lemma AttachedAddr(l: Layout, s: Fs, loose: set<nat>, inum: nat, k: nat, b: nat, i: nat, j: nat)
    requires FsOk(l, s, loose) && b in loose && s.disk[b] == ZeroBlock()
    requires inum < |s.inodes| && k < SLOTS && Addr(s.inodes[inum], s.disk, k) == 0
    requires k > NDIRECT ==> s.inodes[inum].addrs[NDIRECT] != 0
    requires i < |s.inodes| && j < SLOTS
    ensures k > NDIRECT ==> s.inodes[inum].addrs[NDIRECT] < |s.disk|
    ensures
      var r := Attached(s, inum, k, b);
      Addr(r.inodes[i], r.disk, j) == if i == inum && j == k then b else Addr(s.inodes[i], s.disk, j)
  {
    hide Bits, SetWord, Word, ZeroBlock;
    var ip := s.inodes[inum];
    if k > NDIRECT {
      var root := ip.addrs[NDIRECT];
      assert Addr(ip, s.disk, NDIRECT) == root;
      if j > NDIRECT && s.inodes[i].addrs[NDIRECT] == root {
        assert Addr(s.inodes[i], s.disk, NDIRECT) == root;
        WordOfSetWord(s.disk[root], k - NDIRECT - 1, b, j - NDIRECT - 1);
      }
    } else if k == NDIRECT && i == inum && j > NDIRECT {
      WordOfZero(j - NDIRECT - 1);
    }
  }

  lemma AttachedOk(l: Layout, s: Fs, loose: set<nat>, inum: nat, k: nat, b: nat)
    requires FsOk(l, s, loose) && b in loose && s.disk[b] == ZeroBlock()
    requires inum < |s.inodes| && k < SLOTS && Addr(s.inodes[inum], s.disk, k) == 0
    requires k > NDIRECT ==> s.inodes[inum].addrs[NDIRECT] != 0
    ensures k > NDIRECT ==> s.inodes[inum].addrs[NDIRECT] < |s.disk|
    ensures FsOk(l, Attached(s, inum, k, b), loose - {b})
  {
    hide Addr, SetWord, Bits, Held, Rooted;
    if k > NDIRECT {
      AttachedAddr(l, s, loose, inum, k, b, inum, k);
      IndirectRootOwned(l, s, loose, inum);
    }
    var r := Attached(s, inum, k, b);
    forall i, j | 0 <= i < |s.inodes| && 0 <= j < SLOTS
      ensures Addr(r.inodes[i], r.disk, j) == if i == inum && j == k then b else Addr(s.inodes[i], s.disk, j)
    {
      AttachedAddr(l, s, loose, inum, k, b, i, j);
    }
    AttachedHeld(l, s, r, inum, k, b);
    BitsAttach(l, s.disk, r.disk, s.owner, loose + s.others, b, Slot(inum, k));
    assert loose + s.others - {b} == loose - {b} + s.others;
  }

  lemma IndirectRootOwned(l: Layout, s: Fs, loose: set<nat>, inum: nat)
    requires FsOk(l, s, loose) && inum < |s.inodes| && s.inodes[inum].addrs[NDIRECT] != 0
    ensures
      var root := s.inodes[inum].addrs[NDIRECT];
      root in s.owner && s.owner[root] == Slot(inum, NDIRECT) && l.nmeta <= root < |s.disk|
  {
    assert Addr(s.inodes[inum], s.disk, NDIRECT) == s.inodes[inum].addrs[NDIRECT];
  }

  lemma AttachedHeld(l: Layout, s: Fs, r: Fs, inum: nat, k: nat, b: nat)
    requires Held(s) && Rooted(s, l) && b !in s.owner && l.nmeta <= b < l.size && 0 < l.nmeta
    requires |r.inodes| == |s.inodes|
    requires inum < |s.inodes| && k < SLOTS && Addr(s.inodes[inum], s.disk, k) == 0
    requires forall i, j :: 0 <= i < |s.inodes| && 0 <= j < SLOTS ==>
      Addr(r.inodes[i], r.disk, j) == if i == inum && j == k then b else Addr(s.inodes[i], s.disk, j)
    requires r.owner == s.owner[b := Slot(inum, k)]
    ensures Held(r) && Rooted(r, l)
  {
    hide Addr;
  }

  /** The bitmap lies in the metadata, and what it says of one more owned block. */
  lemma BitsAttach(l: Layout, d: seq<Block>, d': seq<Block>, owner: map<nat, Slot>, loose: set<nat>, b: nat, slot: Slot)
    requires l.Ok() && Bits(l, d, owner, loose) && b in loose
    requires |d'| == |d| == l.size && forall n :: 0 <= n < l.nmeta ==> d'[n] == d[n]
    ensures Bits(l, d', owner[b := slot], loose - {b})
  {
    hide Bit;
    forall x | 0 <= x < l.size
      ensures Marked(l, d', x) == Marked(l, d, x)
    {
      BitmapIsMeta(l, x);
    }
  }

  lemma BitmapIsMeta(l: Layout, x: nat)
    requires l.Ok() && x < l.size
    ensures l.bmapstart <= l.Bblock(x) < l.nmeta && l.IsBitmap(l.Bblock(x))
  {
    assert x / BPB <= (l.size - 1) / BPB;
  }

  // ----- Other changes of the disk -----

  /** The disk agrees on the indirect blocks, so the block maps do. */
  lemma SameAddrs(l: Layout, s: Fs, d: seq<Block>, loose: set<nat>, i: nat, k: nat)
    requires FsOk(l, s, loose) && |d| == |s.disk| && i < |s.inodes| && k < SLOTS
    requires forall x :: x in s.owner && s.owner[x].k == NDIRECT ==> x < |d| && d[x] == s.disk[x]
    ensures Addr(s.inodes[i], d, k) == Addr(s.inodes[i], s.disk, k)
  {
    hide Word, Bits;
    if k > NDIRECT && s.inodes[i].addrs[NDIRECT] != 0 {
      IndirectRootOwned(l, s, loose, i);
    }
  }

  lemma SameAddrsOk(l: Layout, s: Fs, d: seq<Block>, loose: set<nat>)
    requires FsOk(l, s, loose) && |d| == |s.disk|
    requires forall x :: x in s.owner && s.owner[x].k == NDIRECT ==> x < |d| && d[x] == s.disk[x]
    ensures Held(s.(disk := d)) && Rooted(s.(disk := d), l)
  {
    hide Addr, Bits;
    forall i, k | 0 <= i < |s.inodes| && 0 <= k < SLOTS
      ensures Addr(s.inodes[i], d, k) == Addr(s.inodes[i], s.disk, k)
    {
      SameAddrs(l, s, d, loose, i, k);
    }
  }

  /** The disk with the bitmap's bit for block `b` switched. */
  function WithBit(l: Layout, disk: seq<Block>, b: nat, on: bool): (d: seq<Block>)
    requires l.Bblock(b) < |disk|
    ensures |d| == |disk|
  {
    disk[l.Bblock(b) := SetBit(disk[l.Bblock(b)], b % BPB, on)]
  }

  lemma WithBitMarks(l: Layout, disk: seq<Block>, b: nat, on: bool, x: nat)
    requires l.Ok() && |disk| == l.size && b < l.size && x < l.size
    ensures l.Bblock(b) < l.nmeta
    ensures Marked(l, WithBit(l, disk, b, on), x) == if x == b then on else Marked(l, disk, x)
  {
    hide SetBit, Bit;
    BitmapIsMeta(l, b);
    BitmapIsMeta(l, x);
    if l.Bblock(x) == l.Bblock(b) {
      BitOfSetBit(disk[l.Bblock(b)], b % BPB, on, x % BPB);
    }
  }

  /** An unmarked block is a data block that no inode owns: balloc may take it. */
  lemma AllocatedOk(l: Layout, s: Fs, loose: set<nat>, b: nat)
    requires FsOk(l, s, loose) && b < l.size && !Marked(l, s.disk, b)
    ensures l.nmeta <= b && b !in s.owner && b !in loose && l.Bblock(b) < |s.disk|
    ensures
      var d := WithBit(l, s.disk, b, true)[b := ZeroBlock()];
      && FsOk(l, s.(disk := d), loose + {b})
      && forall x :: l.nmeta <= x < l.size && x != b ==> d[x] == s.disk[x]
  {
    hide SetBit, Bit, Held, Rooted, ZeroBlock, Marked;
    BitmapIsMeta(l, b);
    var d0 := WithBit(l, s.disk, b, true);
    var d := d0[b := ZeroBlock()];
    RootedRange(l, s);
    SameAddrsOk(l, s, d, loose);
    forall x | 0 <= x < l.size
      ensures Marked(l, d, x) == (x == b || Marked(l, s.disk, x))
    {
      WithBitMarks(l, s.disk, b, true, x);
      SameBitmap(l, d0, d, x);
    }
  }

  lemma RootedRange(l: Layout, s: Fs)
    requires Rooted(s, l)
    ensures forall x :: x in s.owner ==> l.nmeta <= x < l.size
  {}

  lemma SameBitmap(l: Layout, d: seq<Block>, d': seq<Block>, x: nat)
    requires l.Ok() && |d| == |d'| == l.size && x < l.size && forall n :: 0 <= n < l.nmeta ==> d'[n] == d[n]
    ensures Marked(l, d', x) == Marked(l, d, x)
  {
    BitmapIsMeta(l, x);
  }

  /** Freeing a block that is marked but owned by nobody. */
  lemma FreedOk(l: Layout, s: Fs, loose: set<nat>, b: nat)
    requires FsOk(l, s, loose) && b in loose
    ensures l.Bblock(b) < |s.disk| && Marked(l, s.disk, b)
    ensures
      var d := WithBit(l, s.disk, b, false);
      && FsOk(l, s.(disk := d), loose - {b})
      && forall x :: l.nmeta <= x < l.size ==> d[x] == s.disk[x]
  {
    hide SetBit, Bit, Held, Rooted, Marked;
    BitmapIsMeta(l, b);
    var d := WithBit(l, s.disk, b, false);
    RootedRange(l, s);
    SameAddrsOk(l, s, d, loose);
    forall x | 0 <= x < l.size
      ensures Marked(l, d, x) == (x != b && Marked(l, s.disk, x))
    {
      WithBitMarks(l, s.disk, b, false, x);
    }
  }

  /** Overwriting a data block. */
  lemma WrittenOk(l: Layout, s: Fs, loose: set<nat>, b: nat, data: Block)
    requires FsOk(l, s, loose) && b in s.owner && s.owner[b].k != NDIRECT
    ensures b < |s.disk| && FsOk(l, s.(disk := s.disk[b := data]), loose)
  {
    hide Held, Rooted, Marked;
    RootedRange(l, s);
    var d := s.disk[b := data];
    SameAddrsOk(l, s, d, loose);
    forall x | 0 <= x < l.size
      ensures Marked(l, d, x) == Marked(l, s.disk, x)
    {
      SameBitmap(l, s.disk, d, x);
    }
  }

  // ----- Files as byte strings -----

  /** Byte `x` of a file. Where the file has no block it reads as zero, since that is
      what the block that bmap allocates there holds. */
  function FileByte(s: Fs, inum: nat, x: nat): (c: Byte)
    requires inum < |s.inodes| && x < MAXFILE * BSIZE
  {
    var a := Addr(s.inodes[inum], s.disk, DataSlot(x / BSIZE));
    if 0 < a < |s.disk| then s.disk[a][x % BSIZE] else 0
  }

  /** Where the bytes of a file are: the first 12 blocks are named in the inode, the next
      256 by the words of the block that comes 13th there. */
  lemma FileLayout(s: Fs, inum: nat, bn: nat, x: nat)
    requires inum < |s.inodes| && x < 1024 && bn < 12 + 256
    ensures bn < 12 && 0 < s.inodes[inum].addrs[bn] < |s.disk| ==>
      FileByte(s, inum, bn * 1024 + x) == s.disk[s.inodes[inum].addrs[bn]][x]
    ensures bn >= 12 && 0 < s.inodes[inum].addrs[12] < |s.disk| ==>
      var a := Word(s.disk[s.inodes[inum].addrs[12]], bn - 12);
      0 < a < |s.disk| ==> FileByte(s, inum, bn * 1024 + x) == s.disk[a][x]
  {
    assert (bn * 1024 + x) / BSIZE == bn && (bn * 1024 + x) % BSIZE == x;
  }

  /** The file has a block for each of its first `size` bytes. */
  ghost predicate NoHoles(s: Fs, inum: nat, size: nat)
    requires inum < |s.inodes|
  {
    size <= MAXFILE * BSIZE &&
    forall bn :: 0 <= bn && bn * BSIZE < size ==> bn < MAXFILE && Addr(s.inodes[inum], s.disk, DataSlot(bn)) != 0
  }

  /** The byte string that an inode stands for. */
  ghost function Contents(s: Fs, inum: nat): (c: seq<Byte>)
    requires inum < |s.inodes| && s.inodes[inum].size <= MAXFILE * BSIZE
    ensures |c| == s.inodes[inum].size
  {
    seq(s.inodes[inum].size, x requires 0 <= x < s.inodes[inum].size => FileByte(s, inum, x))
  }

  /** All owned blocks keep their owner, and all data blocks but those of
      `changed` keep their contents; new blocks belong to `inum`, and new data blocks
      but those of `changed` are zero. */
  ghost predicate SameBlocks(a: Fs, b: Fs, inum: nat, changed: set<nat>) {
    && b.others == a.others
    && (forall x :: x in a.owner ==>
          && x in b.owner && b.owner[x] == a.owner[x]
          && (a.owner[x].k != NDIRECT && x !in changed && x < |a.disk| ==> x < |b.disk| && b.disk[x] == a.disk[x]))
    && (forall x :: x in b.owner && x !in a.owner ==>
          && b.owner[x].inum == inum
          && (b.owner[x].k != NDIRECT && x !in changed && x < |b.disk| ==> b.disk[x] == ZeroBlock()))
  }

  lemma SameBlocksAddr(l: Layout, a: Fs, b: Fs, inum: nat, changed: set<nat>, i: nat, k: nat)
    requires FsOk(l, a, {}) && FsOk(l, b, {}) && SameBlocks(a, b, inum, changed) && i < |a.inodes| && k < SLOTS
    ensures
      var u, v := Addr(a.inodes[i], a.disk, k), Addr(b.inodes[i], b.disk, k);
      && (u != 0 || i != inum ==> v == u)
      && (v != 0 ==> v in b.owner && b.owner[v] == Slot(i, k) && v < |b.disk|)
      && (u == 0 && v != 0 ==> v !in a.owner && (k != NDIRECT && v !in changed ==> b.disk[v] == ZeroBlock()))
      && (u != 0 ==> u < |a.disk| && u in a.owner && a.owner[u] == Slot(i, k))
  {
    hide Addr, Bits, ZeroBlock;
  }

  lemma SameBlocksByte(l: Layout, a: Fs, b: Fs, inum: nat, changed: set<nat>, i: nat, x: nat)
    requires FsOk(l, a, {}) && FsOk(l, b, {}) && SameBlocks(a, b, inum, changed)
    requires i < |a.inodes| && x < MAXFILE * BSIZE
    ensures Addr(a.inodes[i], a.disk, DataSlot(x / BSIZE)) != 0 || i != inum ==>
      Addr(b.inodes[i], b.disk, DataSlot(x / BSIZE)) == Addr(a.inodes[i], a.disk, DataSlot(x / BSIZE))
    ensures Addr(b.inodes[i], b.disk, DataSlot(x / BSIZE)) !in changed ==> FileByte(b, i, x) == FileByte(a, i, x)
  {
    hide Addr, FsOk;
    SameBlocksAddr(l, a, b, inum, changed, i, DataSlot(x / BSIZE));
  }

  lemma BitmapPosition(l: Layout, base: nat, bi: nat)
    requires base % BPB == 0 && bi < BPB
    ensures l.Bblock(base + bi) == l.Bblock(base) && (base + bi) % BPB == bi && (base + BPB) % BPB == 0
  {}

  /** Filling an empty slot with a fresh block disturbs no block of any file. */
  lemma AttachedSame(l: Layout, a: Fs, s: Fs, inum: nat, k: nat, b: nat)
    requires FsOk(l, a, {}) && FsOk(l, s, {b}) && s.inodes == a.inodes && s.owner == a.owner && |s.disk| == |a.disk|
    requires s.others == a.others && forall x :: l.nmeta <= x < l.size && x != b ==> s.disk[x] == a.disk[x]
    requires s.disk[b] == ZeroBlock() && inum < |s.inodes| && k < SLOTS && Addr(s.inodes[inum], s.disk, k) == 0
    requires k > NDIRECT ==> s.inodes[inum].addrs[NDIRECT] != 0
    ensures k > NDIRECT ==> s.inodes[inum].addrs[NDIRECT] < |s.disk|
    ensures
      var r := Attached(s, inum, k, b);
      && FsOk(l, r, {}) && SameBlocks(a, r, inum, {})
      && Addr(r.inodes[inum], r.disk, k) == b && (k != NDIRECT ==> r.disk[b] == ZeroBlock())
      && forall j :: 0 <= j < SLOTS && j != k ==> Addr(r.inodes[inum], r.disk, j) == Addr(s.inodes[inum], s.disk, j)
  {
    hide Addr, SetWord, Bits, Held, ZeroBlock;
    AttachedOk(l, s, {b}, inum, k, b);
    assert {b} - {b} == {};
    var r := Attached(s, inum, k, b);
    if k > NDIRECT {
      IndirectRootOwned(l, s, {b}, inum);
    }
    forall j | 0 <= j < SLOTS
      ensures Addr(r.inodes[inum], r.disk, j) == if j == k then b else Addr(s.inodes[inum], s.disk, j)
    {
      AttachedAddr(l, s, {b}, inum, k, b, inum, j);
    }
  }

  lemma SameSlots(l: Layout, a: Fs, d: seq<Block>, b: nat, inum: nat)
    requires FsOk(l, a, {}) && b !in a.owner && |d| == |a.disk| && inum < |a.inodes|
    requires forall x :: l.nmeta <= x < l.size && x != b ==> d[x] == a.disk[x]
    ensures forall k :: 0 <= k < SLOTS ==> Addr(a.inodes[inum], d, k) == Addr(a.inodes[inum], a.disk, k)
  {
    hide Addr, Bits, Held;
    forall k | 0 <= k < SLOTS
      ensures Addr(a.inodes[inum], d, k) == Addr(a.inodes[inum], a.disk, k)
    {
      SameAddrs(l, a, d, {}, inum, k);
    }
  }

  // ----- Writing into a file -----

  /** A block with `bytes` copied over it from position `at` on. */
  function Patch(b: Block, at: nat, bytes: seq<Byte>): (r: Block)
    requires at + |bytes| <= BSIZE
  {
    b[..at] + bytes + b[at + |bytes|..]
  }

  function PatchBlock(s: Fs, addr: nat, at: nat, bytes: seq<Byte>): (r: Fs)
    requires addr < |s.disk| && at + |bytes| <= BSIZE
  {
    s.(disk := s.disk[addr := Patch(s.disk[addr], at, bytes)])
  }

  /** Patching the file's block `bn` changes those bytes of the file and no others. */
  lemma PatchByte(l: Layout, s: Fs, inum: nat, bn: nat, addr: nat, at: nat, bytes: seq<Byte>, x: nat)
    requires FsOk(l, s, {}) && inum < |s.inodes| && bn < MAXFILE && at + |bytes| <= BSIZE && x < MAXFILE * BSIZE
    requires addr == Addr(s.inodes[inum], s.disk, DataSlot(bn)) != 0
    ensures addr in s.owner && s.owner[addr] == Slot(inum, DataSlot(bn)) && addr < |s.disk|
    ensures
      var r := PatchBlock(s, addr, at, bytes);
      && Addr(r.inodes[inum], r.disk, DataSlot(x / BSIZE)) == Addr(s.inodes[inum], s.disk, DataSlot(x / BSIZE))
      && FileByte(r, inum, x) ==
         if x / BSIZE == bn && at <= x % BSIZE < at + |bytes| then bytes[x % BSIZE - at] else FileByte(s, inum, x)
  {
    hide Addr, Bits, Patch;
    RootedRange(l, s);
    var r := PatchBlock(s, addr, at, bytes);
    SameAddrs(l, s, r.disk, {}, inum, DataSlot(x / BSIZE));
    PatchAt(s.disk[addr], at, bytes, x % BSIZE);
    if Addr(s.inodes[inum], s.disk, DataSlot(x / BSIZE)) == addr {
      BlocksAreDistinct(l, s, {}, inum, DataSlot(x / BSIZE), inum, DataSlot(bn));
    }
  }

  lemma PatchAt(b: Block, at: nat, bytes: seq<Byte>, i: nat)
    requires at + |bytes| <= BSIZE && i < BSIZE
    ensures Patch(b, at, bytes)[i] == if at <= i < at + |bytes| then bytes[i - at] else b[i]
  {}

  lemma PatchOk(l: Layout, s: Fs, inum: nat, bn: nat, addr: nat, at: nat, bytes: seq<Byte>)
    requires FsOk(l, s, {}) && inum < |s.inodes| && bn < MAXFILE && at + |bytes| <= BSIZE
    requires addr == Addr(s.inodes[inum], s.disk, DataSlot(bn)) != 0
    ensures addr < |s.disk| && addr in s.owner && s.owner[addr].inum == inum
    ensures FsOk(l, PatchBlock(s, addr, at, bytes), {}) && SameBlocks(s, PatchBlock(s, addr, at, bytes), inum, {addr})
  {
    hide Addr, Bits, Patch, Rooted, Marked;
    RootedRange(l, s);
    WrittenOk(l, s, {}, addr, Patch(s.disk[addr], at, bytes));
  }

  lemma SameBlocksTrans(a: Fs, b: Fs, c: Fs, inum: nat, u: set<nat>, v: set<nat>)
    requires SameBlocks(a, b, inum, u) && SameBlocks(b, c, inum, v) && |a.disk| == |b.disk| == |c.disk|
    ensures SameBlocks(a, c, inum, u + v)
    ensures u == v ==> SameBlocks(a, c, inum, u)
  {
    hide ZeroBlock;
    assert u == v ==> u + v == u;
  }

  lemma SlotInRange(l: Layout, s: Fs, loose: set<nat>, inum: nat, k: nat)
    requires FsOk(l, s, loose) && inum < |s.inodes| && k < SLOTS
    ensures Addr(s.inodes[inum], s.disk, k) < |s.disk|
  {}

  /** Every block whose contents changed has been passed to log_write. */
  ghost predicate Covered(d: seq<Block>, d': seq<Block>, logged: set<nat>) {
    |d| == |d'| && forall n :: 0 <= n < |d| && d'[n] != d[n] ==> n in logged
  }

  lemma CoveredSelf(d: seq<Block>, u: set<nat>)
    ensures Covered(d, d, u)
  {}

  lemma CoveredTrans(a: seq<Block>, b: seq<Block>, c: seq<Block>, u: set<nat>, v: set<nat>)
    requires Covered(a, b, u) && Covered(b, c, v) && u <= v
    ensures Covered(a, c, v)
  {}

  /** Every changed block is logged, all but one at most. */
  ghost predicate Strays(d: seq<Block>, d': seq<Block>, logged: set<nat>, stray: set<nat>) {
    |stray| <= 1 && Covered(d, d', logged + stray)
  }

  lemma NoStrays(d: seq<Block>, d': seq<Block>, logged: set<nat>)
    ensures Covered(d, d', logged) ==> Strays(d, d', logged, {})
  {}

  lemma StraysSelf(d: seq<Block>, logged: set<nat>)
    ensures Strays(d, d, logged, {})
  {}

  /** A metadata block makes no difference to that. */
  lemma StraysInode(l: Layout, d: seq<Block>, d': seq<Block>, logged: set<nat>, stray: set<nat>, b: nat)
    requires Strays(d, d', logged, stray) && b < l.nmeta && forall x :: x in stray ==> l.nmeta <= x
    ensures Strays(d, d', logged + {b}, stray) && (Covered(d, d', logged + {b}) <==> Covered(d, d', logged))
  {}

  /** The blocks of all operations. */
  ghost function AllOf(ops: seq<set<nat>>): (r: set<nat>) {
    if ops == [] then {} else AllOf(ops[..|ops| - 1]) + ops[|ops| - 1]
  }

  /** Every changed block is logged by one of the operations, all but one at
      most, and each operation logs at most `max` blocks. */
  ghost predicate OpsLog(d: seq<Block>, d': seq<Block>, ops: seq<set<nat>>, stray: set<nat>, max: nat) {
    Strays(d, d', AllOf(ops), stray) && forall op :: op in ops ==> |op| <= max
  }

  lemma OpsLogNone(d: seq<Block>, max: nat)
    ensures OpsLog(d, d, [], {}, max)
  {}

  lemma OpsLogMore(d0: seq<Block>, d: seq<Block>, d': seq<Block>, ops: seq<set<nat>>, op: set<nat>, stray: set<nat>,
      max: nat)
    requires OpsLog(d0, d, ops, {}, max) && Strays(d, d', op, stray) && |op| <= max
    ensures OpsLog(d0, d', ops + [op], stray, max)
  {
    assert (ops + [op])[..|ops|] == ops;
    assert AllOf(ops + [op]) == AllOf(ops) + op;
  }

  /** A block number as a set, 0 standing for none. */
  function Just(b: nat): (r: set<nat>) {
    if b == 0 then {} else {b}
  }

  lemma SameBlocksTrivial(a: Fs, inum: nat)
    ensures SameBlocks(a, a, inum, {})
  {}

  function Min(a: nat, b: nat): (m: nat) {
    if a < b then a else b
  }

  /** How much of the bytes from `off` on fits in the block of `off`. */
  function Chunk(off: nat, left: nat): (m: nat)
    ensures m <= left && off % BSIZE + m <= BSIZE && (left > 0 ==> m > 0)
  {
    Min(left, BSIZE - off % BSIZE)
  }

  /** Within a chunk, file positions and block positions run in step. */
  lemma ChunkPosition(off: nat, i: nat)
    requires off % BSIZE + i < BSIZE
    ensures (off + i) / BSIZE == off / BSIZE && (off + i) % BSIZE == off % BSIZE + i
  {}

  /** A chunk of a file's block is that part of the file's contents. */
  lemma ChunkOfContents(s: Fs, inum: nat, off: nat, m: nat)
    requires inum < |s.inodes| && s.inodes[inum].size <= MAXFILE * BSIZE && off + m <= s.inodes[inum].size
    requires 0 < m && off % BSIZE + m <= BSIZE
    requires 0 < Addr(s.inodes[inum], s.disk, DataSlot(off / BSIZE)) < |s.disk|
    ensures
      var a := Addr(s.inodes[inum], s.disk, DataSlot(off / BSIZE));
      s.disk[a][off % BSIZE..off % BSIZE + m] == Contents(s, inum)[off..off + m]
  {
    hide Addr;
    var a := Addr(s.inodes[inum], s.disk, DataSlot(off / BSIZE));
    var u, v := s.disk[a][off % BSIZE..off % BSIZE + m], Contents(s, inum)[off..off + m];
    forall i | 0 <= i < m
      ensures u[i] == v[i]
    {
      ChunkPosition(off, i);
      assert v[i] == FileByte(s, inum, off + i);
      assert u[i] == s.disk[a][off % BSIZE + i];
    }
  }

  /** So a prefix of what was asked for grows by the chunk. */
  lemma ReadChunk(s: Fs, inum: nat, offset: nat, tot: nat, data: seq<Byte>, m: nat)
    requires inum < |s.inodes| && s.inodes[inum].size <= MAXFILE * BSIZE && offset + tot + m <= s.inodes[inum].size
    requires 0 < m && (offset + tot) % BSIZE + m <= BSIZE && data == Contents(s, inum)[offset..offset + tot]
    requires 0 < Addr(s.inodes[inum], s.disk, DataSlot((offset + tot) / BSIZE)) < |s.disk|
    ensures
      var a, at := Addr(s.inodes[inum], s.disk, DataSlot((offset + tot) / BSIZE)), (offset + tot) % BSIZE;
      data + s.disk[a][at..at + m] == Contents(s, inum)[offset..offset + tot + m]
  {
    hide Addr, Contents;
    ChunkOfContents(s, inum, offset + tot, m);
  }

  // ----- Reading a file -----

  /** The file has a block for each of `n` bytes from `offset` on. */
  ghost predicate AllPresent(s: Fs, inum: nat, offset: nat, n: nat)
    requires inum < |s.inodes|
  {
    n > 0 ==> forall bn :: offset / BSIZE <= bn <= (offset + n - 1) / BSIZE ==> Present(s, inum, bn)
  }

  ghost predicate Present(s: Fs, inum: nat, bn: nat)
    requires inum < |s.inodes|
  {
    bn < MAXFILE && Addr(s.inodes[inum], s.disk, DataSlot(bn)) != 0
  }

  lemma SolidIsPresent(s: Fs, inum: nat, offset: nat, n: nat)
    requires inum < |s.inodes| && Solid(s, inum) && (n > 0 ==> offset + n <= s.inodes[inum].size)
    ensures AllPresent(s, inum, offset, n)
  {
    hide Addr;
    if n > 0 {
      forall bn | offset / BSIZE <= bn <= (offset + n - 1) / BSIZE
        ensures Present(s, inum, bn)
      {
        assert bn * BSIZE <= (offset + n - 1) / BSIZE * BSIZE <= offset + n - 1;
      }
    }
  }

  /** One more chunk, which lies in one more block. */
  lemma PresentMore(s: Fs, inum: nat, offset: nat, tot: nat, m: nat)
    requires inum < |s.inodes| && m > 0 && (offset + tot) % BSIZE + m <= BSIZE
    requires (tot > 0 ==> (offset + tot) % BSIZE == 0)
    requires (offset + tot) / BSIZE < MAXFILE
    ensures AllPresent(s, inum, offset, tot + m) <==>
      AllPresent(s, inum, offset, tot) && Addr(s.inodes[inum], s.disk, DataSlot((offset + tot) / BSIZE)) != 0
  {
    hide Addr;
    ChunkPosition(offset + tot, m - 1);
    var bn := (offset + tot) / BSIZE;
    assert (offset + (tot + m) - 1) / BSIZE == bn;
    assert tot > 0 ==> (offset + tot - 1) / BSIZE == bn - 1;
    assert Present(s, inum, bn) <==> Addr(s.inodes[inum], s.disk, DataSlot(bn)) != 0;
  }

  /** Any part of a chunk lies in the same block as the whole. */
  lemma PresentSame(s: Fs, inum: nat, offset: nat, tot: nat, m: nat, k: nat)
    requires inum < |s.inodes| && 0 < k <= m && (offset + tot) % BSIZE + m <= BSIZE
    ensures AllPresent(s, inum, offset, tot + k) <==> AllPresent(s, inum, offset, tot + m)
  {
    hide Addr;
    ChunkPosition(offset + tot, m - 1);
    ChunkPosition(offset + tot, k - 1);
    assert (offset + (tot + m) - 1) / BSIZE == (offset + (tot + k) - 1) / BSIZE;
  }

  /** bmap gave the file more blocks, and changed nothing else. */
  ghost predicate Grown(l: Layout, s0: Fs, s: Fs, inum: nat) {
    && FsOk(l, s0, {}) && FsOk(l, s, {}) && inum < |s0.inodes| && SameBlocks(s0, s, inum, {})
    && s.inodes == s0.inodes[inum := s0.inodes[inum].(addrs := s.inodes[inum].addrs)]
  }

  lemma GrownNot(l: Layout, s: Fs, inum: nat)
    requires FsOk(l, s, {}) && inum < |s.inodes|
    ensures Grown(l, s, s, inum)
  {
    hide FsOk;
    SameBlocksTrivial(s, inum);
  }

  lemma GrownOk(l: Layout, s0: Fs, s: Fs, inum: nat)
    requires Grown(l, s0, s, inum)
    ensures FsOk(l, s0, {}) && FsOk(l, s, {}) && inum < |s0.inodes| == |s.inodes|
    ensures s.inodes == s0.inodes[inum := s0.inodes[inum].(addrs := s.inodes[inum].addrs)]
    ensures s.inodes[inum].size == s0.inodes[inum].size
  {}

  lemma GrownKeeps(l: Layout, s0: Fs, s: Fs, inum: nat)
    requires Grown(l, s0, s, inum)
    ensures forall x :: x in s0.owner ==> x in s.owner && s.owner[x] == s0.owner[x]
  {}

  lemma ChunkEnds(off: nat, left: nat)
    requires left > 0
    ensures Chunk(off, left) < left ==> (off + Chunk(off, left)) % BSIZE == 0
  {}

  /** The bytes whose blocks a read of `n` bytes comes to, when the destination ends
      after `room`. */
  function Touched(n: nat, room: nat): (t: nat) {
    Min(n, room + 1)
  }

  /** The chunk in which a read ends or fails is the last one it comes to. */
  lemma TouchedHere(s: Fs, inum: nat, offset: nat, tot: nat, m: nat, n: nat, room: nat)
    requires inum < |s.inodes| && 0 < m && tot + m <= n && tot <= room && (offset + tot) % BSIZE + m <= BSIZE
    ensures tot + m > room || tot + m == n ==>
      (AllPresent(s, inum, offset, Touched(n, room)) <==> AllPresent(s, inum, offset, tot + m))
    ensures AllPresent(s, inum, offset, Touched(n, room)) ==>
      AllPresent(s, inum, offset, tot + m) || tot + m > Touched(n, room)
  {
    hide Addr, AllPresent;
    var t := Touched(n, room);
    if tot + m > room {
      PresentSame(s, inum, offset, tot, m, t - tot);
    } else {
      PresentLess(s, inum, offset, tot + m, t);
    }
  }

  /** The inode itself names the block, or the indirect block that would name it. */
  ghost predicate InMap(s: Fs, inum: nat, bn: nat)
    requires inum < |s.inodes|
  {
    bn < MAXFILE && s.inodes[inum].addrs[if bn < NDIRECT then bn else NDIRECT] != 0
  }

  ghost predicate AllInMap(s: Fs, inum: nat, offset: nat, n: nat)
    requires inum < |s.inodes|
  {
    n > 0 ==> forall bn :: offset / BSIZE <= bn <= (offset + n - 1) / BSIZE ==> InMap(s, inum, bn)
  }

  /** A range of bytes that ends in a chunk lies in the blocks before it and the chunk's. */
  lemma RangeMore(offset: nat, tot: nat, m: nat, bn: nat)
    requires m > 0 && (offset + tot) % BSIZE + m <= BSIZE
    ensures offset / BSIZE <= bn <= (offset + (tot + m) - 1) / BSIZE <==>
      bn == (offset + tot) / BSIZE || (tot > 0 && offset / BSIZE <= bn <= (offset + tot - 1) / BSIZE)
  {
    ChunkPosition(offset + tot, m - 1);
    assert (offset + (tot + m) - 1) / BSIZE == (offset + tot) / BSIZE;
    assert tot > 0 ==> (offset + tot) / BSIZE - 1 <= (offset + tot - 1) / BSIZE <= (offset + tot) / BSIZE;
  }

  lemma MoreBlocks(s: Fs, inum: nat, offset: nat, tot: nat, m: nat)
    requires inum < |s.inodes| && m > 0 && (offset + tot) % BSIZE + m <= BSIZE
    ensures AllInMap(s, inum, offset, tot + m) <==>
      AllInMap(s, inum, offset, tot) && InMap(s, inum, (offset + tot) / BSIZE)
    ensures AllPresent(s, inum, offset, tot + m) <==>
      AllPresent(s, inum, offset, tot) && Present(s, inum, (offset + tot) / BSIZE)
  {
    hide Addr, Present, InMap;
    var b := (offset + tot) / BSIZE;
    RangeMore(offset, tot, m, b);
    forall bn | tot > 0 && offset / BSIZE <= bn <= (offset + tot - 1) / BSIZE
      ensures AllInMap(s, inum, offset, tot + m) ==> InMap(s, inum, bn)
      ensures AllPresent(s, inum, offset, tot + m) ==> Present(s, inum, bn)
    {
      RangeMore(offset, tot, m, bn);
    }
    forall bn | offset / BSIZE <= bn <= (offset + (tot + m) - 1) / BSIZE
      ensures AllInMap(s, inum, offset, tot) && InMap(s, inum, b) ==> InMap(s, inum, bn)
      ensures AllPresent(s, inum, offset, tot) && Present(s, inum, b) ==> Present(s, inum, bn)
    {
      RangeMore(offset, tot, m, bn);
    }
  }

  /** The first block that the inode has no place for is the first one missing. */
  lemma FirstMissing(s: Fs, inum: nat, offset: nat, tot: nat)
    requires inum < |s.inodes| && AllInMap(s, inum, offset, tot)
    requires (offset + tot) / BSIZE < MAXFILE && !InMap(s, inum, (offset + tot) / BSIZE)
    ensures AllPresent(s, inum, offset, tot)
  {
    if tot > 0 {
      forall bn | offset / BSIZE <= bn <= (offset + tot - 1) / BSIZE
        ensures Present(s, inum, bn)
      {
        assert InMap(s, inum, bn);
        assert bn <= (offset + tot) / BSIZE;
      }
    }
  }

  /** What the inode has a place for in the end, it has a place for before. */
  lemma InMapLess(s: Fs, inum: nat, offset: nat, k: nat, n: nat)
    requires inum < |s.inodes| && k <= n
    ensures AllInMap(s, inum, offset, n) ==> AllInMap(s, inum, offset, k)
  {
    hide InMap;
    assert k > 0 ==> (offset + k - 1) / BSIZE <= (offset + n - 1) / BSIZE;
  }

  /** Behind the indirect block, if there is one, the inode has a place for everything. */
  lemma InMapOn(s: Fs, inum: nat, offset: nat, tot: nat, m: nat, n: nat)
    requires inum < |s.inodes| && 0 < m && tot + m <= n && offset + n <= MAXFILE * BSIZE
    requires AllInMap(s, inum, offset, tot + m) && NDIRECT <= (offset + tot) / BSIZE
    ensures AllInMap(s, inum, offset, n)
  {
    var b := (offset + tot + m - 1) / BSIZE;
    assert (offset + tot) / BSIZE <= b && offset / BSIZE <= b && (offset + n - 1) / BSIZE < MAXFILE;
    assert InMap(s, inum, b);
    forall bn | offset / BSIZE <= bn <= (offset + n - 1) / BSIZE
      ensures InMap(s, inum, bn)
    {
      assert bn <= b ==> InMap(s, inum, bn);
    }
  }

  /** Block numbers in an inode stay. */
  lemma InodesGrow(l: Layout, a: Fs, b: Fs, c: Fs, inum: nat)
    requires Grown(l, a, b, inum) && Grown(l, b, c, inum) && c.inodes == a.inodes
    ensures b.inodes == a.inodes
  {
    hide FsOk, SameBlocks;
    GrownOk(l, a, b, inum);
    GrownOk(l, b, c, inum);
    forall k | 0 <= k < NDIRECT + 1
      ensures b.inodes[inum].addrs[k] == a.inodes[inum].addrs[k]
    {
      GrownAddr(l, a, b, inum, k);
      GrownAddr(l, b, c, inum, k);
    }
    assert b.inodes[inum].addrs == a.inodes[inum].addrs;
  }

  lemma PresentLess(s: Fs, inum: nat, offset: nat, k: nat, n: nat)
    requires inum < |s.inodes| && k <= n
    ensures AllPresent(s, inum, offset, n) ==> AllPresent(s, inum, offset, k)
  {
    hide Addr;
    assert k > 0 ==> (offset + k - 1) / BSIZE <= (offset + n - 1) / BSIZE;
  }

  lemma GrownMore(l: Layout, a: Fs, b: Fs, c: Fs, inum: nat)
    requires Grown(l, a, b, inum) && Grown(l, b, c, inum)
    ensures Grown(l, a, c, inum)
  {
    hide FsOk, SameBlocks;
    SameSizes(l, a, b, c);
    SameBlocksTrans(a, b, c, inum, {}, {});
  }

  /** That changes the contents of no file. */
  lemma GrownContents(l: Layout, s0: Fs, s: Fs, inum: nat)
    requires Grown(l, s0, s, inum) && s0.inodes[inum].size <= MAXFILE * BSIZE
    ensures Contents(s, inum) == Contents(s0, inum) && OthersKept(s0, s, inum) && (Solid(s0, inum) ==> Solid(s, inum))
  {
    hide FsOk, SameBlocks, Written, Contents, OthersKept, Addr;
    WrittenNothing(l, s0, inum, 0, []);
    WrittenMapped(l, s0, s0, s, inum, 0, [], 0, {});
    WrittenEnd(l, s0, s, inum, 0, [], 0, 0, {});
    ResizedSame(s, inum);
    AfterWriteNothing(s0, inum, 0, []);
  }

  lemma ResizedSame(s: Fs, inum: nat)
    requires inum < |s.inodes|
    ensures Resized(s, inum, s.inodes[inum].size) == s
  {}

  /** A block that the file lacks at first and then has is a new one. */
  lemma GrownAddr(l: Layout, s0: Fs, s: Fs, inum: nat, k: nat)
    requires Grown(l, s0, s, inum) && k < SLOTS
    ensures
      var u, v := Addr(s0.inodes[inum], s0.disk, k), Addr(s.inodes[inum], s.disk, k);
      (u != 0 ==> v == u) && (u == 0 && v != 0 ==> v in s.owner && v !in s0.owner)
  {
    hide Addr, FsOk, SameBlocks;
    SameBlocksAddr(l, s0, s, inum, {}, inum, k);
  }

  lemma RootStays(l: Layout, b: Fs, c: Fs, inum: nat, x: nat)
    requires Grown(l, b, c, inum) && x in b.owner && b.owner[x].k > NDIRECT && b.owner[x].inum == inum
    ensures c.inodes[inum].addrs[NDIRECT] == b.inodes[inum].addrs[NDIRECT] != 0
  {
    hide Bits, Held;
    GrownAddr(l, b, c, inum, NDIRECT);
  }

  function Max(a: nat, b: nat): (m: nat) {
    if a < b then b else a
  }

  /** `s` is `s0` after `src[..tot]` went into the file from `offset` on (the
      in-memory size still unchanged); `changed` are the data blocks written. */
  ghost predicate Written(l: Layout, s0: Fs, s: Fs, inum: nat, offset: nat, src: seq<Byte>, tot: nat,
      changed: set<nat>) {
    && FsOk(l, s0, {}) && FsOk(l, s, {}) && inum < |s0.inodes| && tot <= |src| && offset + |src| <= MAXFILE * BSIZE
    && s.inodes == s0.inodes[inum := s0.inodes[inum].(addrs := s.inodes[inum].addrs)]
    && SameBlocks(s0, s, inum, changed) && (forall c :: c in changed ==> c in s.owner && s.owner[c].inum == inum)
    && WrittenBytes(s0, s, inum, offset, src, tot, Max(s0.inodes[inum].size, offset + tot))
  }

  ghost predicate WrittenBytes(s0: Fs, s: Fs, inum: nat, offset: nat, src: seq<Byte>, tot: nat, size: nat)
    requires inum < |s.inodes| && inum < |s0.inodes| && tot <= |src|
  {
    && size <= MAXFILE * BSIZE && (NoHoles(s0, inum, s0.inodes[inum].size) ==> NoHoles(s, inum, size))
    && forall x :: 0 <= x < MAXFILE * BSIZE ==>
         FileByte(s, inum, x) == if offset <= x < offset + tot then src[x - offset] else FileByte(s0, inum, x)
  }

  lemma WrittenNothing(l: Layout, s: Fs, inum: nat, offset: nat, src: seq<Byte>)
    requires FsOk(l, s, {}) && inum < |s.inodes| && offset <= s.inodes[inum].size && offset + |src| <= MAXFILE * BSIZE
    requires s.inodes[inum].size <= MAXFILE * BSIZE
    ensures Written(l, s, s, inum, offset, src, 0, {})
  {
    hide Addr, Bits, Held, Rooted;
  }

  /** bmap in the middle of a write keeps what is written. */
  lemma WrittenMapped(l: Layout, s0: Fs, s: Fs, t: Fs, inum: nat, offset: nat, src: seq<Byte>, tot: nat,
      changed: set<nat>)
    requires Written(l, s0, s, inum, offset, src, tot, changed) && FsOk(l, t, {}) && SameBlocks(s, t, inum, {})
    requires t.inodes == s.inodes[inum := s.inodes[inum].(addrs := t.inodes[inum].addrs)]
    ensures Written(l, s0, t, inum, offset, src, tot, changed)
  {
    hide Addr, FsOk, SameBlocks, FileByte;
    SameSizes(l, s0, s, t);
    SameBlocksTrans(s0, s, t, inum, changed, {});
    assert changed + {} == changed;
    var size := Max(s0.inodes[inum].size, offset + tot);
    forall x | 0 <= x < MAXFILE * BSIZE
      ensures FileByte(t, inum, x) == FileByte(s, inum, x)
      ensures Addr(s.inodes[inum], s.disk, DataSlot(x / BSIZE)) != 0 ==>
        Addr(t.inodes[inum], t.disk, DataSlot(x / BSIZE)) != 0
    {
      SameBlocksByte(l, s, t, inum, {}, inum, x);
    }
    if NoHoles(s, inum, size) {
      NoHolesAt(s, inum, size);
      NoHolesByBytes(t, inum, size);
    }
    OwnedStill(s, t, inum, changed);
  }

  lemma SameSizes(l: Layout, a: Fs, b: Fs, c: Fs)
    requires FsOk(l, a, {}) && FsOk(l, b, {}) && FsOk(l, c, {})
    ensures |a.disk| == |b.disk| == |c.disk|
  {}

  lemma OwnedStill(s: Fs, t: Fs, inum: nat, changed: set<nat>)
    requires SameBlocks(s, t, inum, {}) && forall c :: c in changed ==> c in s.owner && s.owner[c].inum == inum
    ensures forall c :: c in changed ==> c in t.owner && t.owner[c].inum == inum
  {}

  lemma NoHolesAt(s: Fs, inum: nat, size: nat)
    requires inum < |s.inodes| && NoHoles(s, inum, size)
    ensures forall x :: 0 <= x < size ==> Addr(s.inodes[inum], s.disk, DataSlot(x / BSIZE)) != 0
  {
    hide Addr;
    forall x | 0 <= x < size
      ensures Addr(s.inodes[inum], s.disk, DataSlot(x / BSIZE)) != 0
    {
      assert x / BSIZE * BSIZE <= x;
    }
  }

  lemma NoHolesByBytes(s: Fs, inum: nat, size: nat)
    requires inum < |s.inodes| && size <= MAXFILE * BSIZE
    requires forall x :: 0 <= x < size ==> Addr(s.inodes[inum], s.disk, DataSlot(x / BSIZE)) != 0
    ensures NoHoles(s, inum, size)
  {
    forall bn | 0 <= bn && bn * BSIZE < size
      ensures bn < MAXFILE && Addr(s.inodes[inum], s.disk, DataSlot(bn)) != 0
    {
      assert bn * BSIZE / BSIZE == bn;
    }
  }

  /** Copying the next chunk into its block. */
  lemma WrittenChunk(l: Layout, s0: Fs, s: Fs, inum: nat, offset: nat, src: seq<Byte>, tot: nat, m: nat, addr: nat,
      changed: set<nat>)
    requires Written(l, s0, s, inum, offset, src, tot, changed) && tot < |src| && tot + m <= |src|
    requires (offset + tot) % BSIZE + m <= BSIZE && offset <= s0.inodes[inum].size
    requires addr == Addr(s.inodes[inum], s.disk, DataSlot((offset + tot) / BSIZE)) != 0
    ensures addr < |s.disk|
    ensures Written(l, s0, PatchBlock(s, addr, (offset + tot) % BSIZE, src[tot..tot + m]), inum, offset, src,
      tot + m, changed + {addr})
  {
    hide Addr, FsOk, Patch;
    var off, bytes := offset + tot, src[tot..tot + m];
    var bn, at := off / BSIZE, off % BSIZE;
    PatchOk(l, s, inum, bn, addr, at, bytes);
    var r := PatchBlock(s, addr, at, bytes);
    SameSizes(l, s0, s, r);
    SameBlocksTrans(s0, s, r, inum, changed, {addr});
    var size := Max(s0.inodes[inum].size, off + m);
    forall x | 0 <= x < MAXFILE * BSIZE
      ensures FileByte(r, inum, x) == if offset <= x < off + m then src[x - offset] else FileByte(s0, inum, x)
      ensures Addr(r.inodes[inum], r.disk, DataSlot(x / BSIZE)) == Addr(s.inodes[inum], s.disk, DataSlot(x / BSIZE))
      ensures off <= x < off + m ==> Addr(s.inodes[inum], s.disk, DataSlot(x / BSIZE)) != 0
    {
      PatchByte(l, s, inum, bn, addr, at, bytes, x);
      if off <= x < off + m {
        ChunkPosition(off, x - off);
      } else if x / BSIZE == bn {
        assert !(at <= x % BSIZE < at + m) by { BlockPosition(off, x, m); }
      }
    }
    if NoHoles(s, inum, Max(s0.inodes[inum].size, off)) {
      NoHolesAt(s, inum, Max(s0.inodes[inum].size, off));
      NoHolesByBytes(r, inum, size);
    }
  }

  lemma BlockPosition(off: nat, x: nat, m: nat)
    requires x / BSIZE == off / BSIZE && !(off <= x < off + m)
    ensures !(off % BSIZE <= x % BSIZE < off % BSIZE + m)
  {}

  /** No block is left for balloc. */
  ghost predicate Full(l: Layout, disk: seq<Block>) {
    forall x :: 0 <= x < l.size ==> Marked(l, disk, x)
  }

  function Resized(s: Fs, inum: nat, size: nat): (r: Fs)
    requires inum < |s.inodes|
  {
    s.(inodes := s.inodes[inum := s.inodes[inum].(size := size)])
  }

  /** The size field has no part in the block maps. */
  lemma ResizedOk(l: Layout, s: Fs, loose: set<nat>, inum: nat, size: nat)
    requires FsOk(l, s, loose) && inum < |s.inodes|
    ensures FsOk(l, Resized(s, inum, size), loose)
  {
    hide Bits;
    var r := Resized(s, inum, size);
    assert forall i, k :: 0 <= i < |s.inodes| && 0 <= k < SLOTS ==>
      Addr(r.inodes[i], r.disk, k) == Addr(s.inodes[i], s.disk, k);
  }

  /** A byte string overwritten from `off` on, and extended if need be. */
  function Splice(c: seq<Byte>, off: nat, bytes: seq<Byte>): (r: seq<Byte>)
    requires off <= |c|
  {
    c[..off] + bytes + (if off + |bytes| < |c| then c[off + |bytes|..] else [])
  }

  /** What the file holds after a write of which `tot` bytes were accounted for
      and `seen` bytes reached the cached blocks. */
  function AfterWrite(c: seq<Byte>, off: nat, src: seq<Byte>, tot: nat, seen: nat): (r: seq<Byte>)
    requires off <= |c| && tot <= seen <= |src|
  {
    Splice(c, off, src[..seen])[..Max(|c|, off + tot)]
  }

  /** The bookkeeping at the end of writei turns written bytes into contents. */
  lemma WrittenContents(l: Layout, s0: Fs, s: Fs, inum: nat, offset: nat, src: seq<Byte>, tot: nat, seen: nat,
      changed: set<nat>)
    requires Written(l, s0, s, inum, offset, src, seen, changed) && tot <= seen && offset <= s0.inodes[inum].size
    requires s0.inodes[inum].size <= MAXFILE * BSIZE
    ensures
      var size := Max(s0.inodes[inum].size, offset + tot);
      var r := Resized(s, inum, size);
      && (NoHoles(s0, inum, s0.inodes[inum].size) ==> NoHoles(r, inum, size)) && size <= MAXFILE * BSIZE
      && Contents(r, inum) == AfterWrite(Contents(s0, inum), offset, src, tot, seen)
  {
    hide Addr, FsOk, SameBlocks;
    var size := Max(s0.inodes[inum].size, offset + tot);
    var r := Resized(s, inum, size);
    assert forall k :: 0 <= k < SLOTS ==> Addr(r.inodes[inum], r.disk, k) == Addr(s.inodes[inum], s.disk, k) by {
      ResizedAddr(s, inum, size);
    }
    var c, c' := Contents(s0, inum), Contents(r, inum);
    var w := AfterWrite(c, offset, src, tot, seen);
    forall x | 0 <= x < size
      ensures c'[x] == w[x]
    {
      assert c'[x] == FileByte(s, inum, x);
    }
  }

  /** iupdate's and writei's changes to the inode, and what the file then holds. */
  lemma WrittenEnd(l: Layout, s0: Fs, s: Fs, inum: nat, offset: nat, src: seq<Byte>, tot: nat, seen: nat,
      changed: set<nat>)
    requires Written(l, s0, s, inum, offset, src, seen, changed) && tot <= seen && offset <= s0.inodes[inum].size
    requires s0.inodes[inum].size <= MAXFILE * BSIZE
    ensures
      var size := Max(s0.inodes[inum].size, offset + tot);
      var r := Resized(s, inum, size);
      && FsOk(l, r, {}) && r.inodes == s0.inodes[inum := s0.inodes[inum].(addrs := s.inodes[inum].addrs, size := size)]
      && (NoHoles(s0, inum, s0.inodes[inum].size) ==> NoHoles(r, inum, size)) && size <= MAXFILE * BSIZE
      && Contents(r, inum) == AfterWrite(Contents(s0, inum), offset, src, tot, seen)
      && OthersKept(s0, r, inum)
  {
    hide FsOk, AfterWrite, Splice, WrittenBytes, Addr, Contents, SameBlocks;
    var size := Max(s0.inodes[inum].size, offset + tot);
    ResizedOk(l, s, {}, inum, size);
    WrittenContents(l, s0, s, inum, offset, src, tot, seen, changed);
    forall i | 0 <= i < |s0.inodes| && i != inum && s0.inodes[i].size <= MAXFILE * BSIZE
      ensures FileKept(s0, Resized(s, inum, size), i)
    {
      OtherContents(l, s0, s, inum, offset, src, seen, changed, size, i);
    }
  }

  /** A file's bytes are the same, even beyond its size. */
  ghost predicate BytesKept(s0: Fs, r: Fs, i: nat)
    requires i < |s0.inodes| && i < |r.inodes|
  {
    forall x :: 0 <= x < MAXFILE * BSIZE ==> FileByte(r, i, x) == FileByte(s0, i, x)
  }

  /** A file keeps its inode and its contents, and gets no holes. */
  ghost predicate FileKept(s0: Fs, r: Fs, i: nat)
    requires i < |s0.inodes| && s0.inodes[i].size <= MAXFILE * BSIZE
  {
    && i < |r.inodes| && r.inodes[i] == s0.inodes[i] && Contents(r, i) == Contents(s0, i) && BytesKept(s0, r, i)
    && (NoHoles(s0, i, s0.inodes[i].size) ==> NoHoles(r, i, r.inodes[i].size))
  }

  /** So does every file but `inum`. */
  ghost predicate OthersKept(s0: Fs, r: Fs, inum: nat) {
    forall i :: 0 <= i < |s0.inodes| && i != inum && s0.inodes[i].size <= MAXFILE * BSIZE ==> FileKept(s0, r, i)
  }

  lemma OthersKeptTrans(a: Fs, b: Fs, c: Fs, inum: nat)
    requires OthersKept(a, b, inum) && OthersKept(b, c, inum)
    ensures OthersKept(a, c, inum)
  {
    hide NoHoles, Contents;
  }

  lemma OthersKeptTransIf(a: Fs, b: Fs, c: Fs, inum: nat, moved: bool)
    requires OthersKept(a, b, inum) && if moved then OthersKept(b, c, inum) else c == b
    ensures OthersKept(a, c, inum)
  {
    hide OthersKept;
    if moved {
      OthersKeptTrans(a, b, c, inum);
    }
  }

  lemma AfterWriteAt(c: seq<Byte>, off: nat, src: seq<Byte>, tot: nat, seen: nat)
    requires off <= |c| && tot <= seen <= |src|
    ensures
      var w := AfterWrite(c, off, src, tot, seen);
      && |w| == Max(|c|, off + tot)
      && forall x :: 0 <= x < |w| ==> w[x] == if off <= x < off + seen then src[x - off] else c[x]
  {}

  /** Two writes in a row are one write. */
  lemma AfterWriteTwice(c: seq<Byte>, off: nat, src: seq<Byte>, i: nat, part: seq<Byte>, tot: nat, seen: nat)
    requires off <= |c| && i + |part| <= |src| && part == src[i..i + |part|] && tot <= seen <= |part|
    ensures off + i <= |AfterWrite(c, off, src, i, i)|
    ensures AfterWrite(AfterWrite(c, off, src, i, i), off + i, part, tot, seen) ==
      AfterWrite(c, off, src, i + tot, i + seen)
  {
    hide AfterWrite;
    AfterWriteAt(c, off, src, i, i);
    var d := AfterWrite(c, off, src, i, i);
    AfterWriteAt(d, off + i, part, tot, seen);
    AfterWriteAt(c, off, src, i + tot, i + seen);
    var e, f := AfterWrite(d, off + i, part, tot, seen), AfterWrite(c, off, src, i + tot, i + seen);
    assert |e| == |f|;
    forall x | 0 <= x < |e|
      ensures e[x] == f[x]
    {}
  }

  lemma ResizedAddr(s: Fs, inum: nat, size: nat)
    requires inum < |s.inodes|
    ensures
      var r := Resized(s, inum, size);
      forall k :: 0 <= k < SLOTS ==> Addr(r.inodes[inum], r.disk, k) == Addr(s.inodes[inum], s.disk, k)
  {}

  /** Writing one file leaves the contents of every other alone. */
  lemma OtherContents(l: Layout, s0: Fs, s: Fs, inum: nat, offset: nat, src: seq<Byte>, seen: nat, changed: set<nat>,
      size: nat, i: nat)
    requires Written(l, s0, s, inum, offset, src, seen, changed) && i < |s0.inodes| && i != inum
    requires s0.inodes[i].size <= MAXFILE * BSIZE
    ensures FileKept(s0, Resized(s, inum, size), i)
  {
    hide Addr, FsOk, WrittenBytes, SameBlocks, NoHoles;
    var r := Resized(s, inum, size);
    assert r.inodes[i] == s.inodes[i] == s0.inodes[i];
    forall x | 0 <= x < MAXFILE * BSIZE
      ensures FileByte(r, i, x) == FileByte(s0, i, x)
      ensures Addr(r.inodes[i], r.disk, DataSlot(x / BSIZE)) == Addr(s0.inodes[i], s0.disk, DataSlot(x / BSIZE))
    {
      SameBlocksByte(l, s0, s, inum, changed, i, x);
      SameBlocksAddr(l, s0, s, inum, changed, i, DataSlot(x / BSIZE));
    }
    SameBytes(s0, r, i);
  }

  lemma SameBytes(a: Fs, b: Fs, i: nat)
    requires i < |a.inodes| && i < |b.inodes| && b.inodes[i] == a.inodes[i] && a.inodes[i].size <= MAXFILE * BSIZE
    requires forall x :: 0 <= x < MAXFILE * BSIZE ==>
      && FileByte(b, i, x) == FileByte(a, i, x)
      && Addr(b.inodes[i], b.disk, DataSlot(x / BSIZE)) == Addr(a.inodes[i], a.disk, DataSlot(x / BSIZE))
    ensures FileKept(a, b, i)
  {
    hide Addr, FileByte;
    if NoHoles(a, i, a.inodes[i].size) {
      NoHolesAt(a, i, a.inodes[i].size);
      NoHolesByBytes(b, i, a.inodes[i].size);
    }
  }

  ghost predicate Solid(s: Fs, inum: nat)
    requires inum < |s.inodes|
  {
    NoHoles(s, inum, s.inodes[inum].size)
  }

  /** filewrite's unit. */
  const WRITE_MAX := (LogSpec.MAXOPBLOCKS - 1 - 1 - 2) / 2 * BSIZE

  lemma AfterWriteNothing(s: Fs, inum: nat, off: nat, src: seq<Byte>)
    requires inum < |s.inodes| && off <= s.inodes[inum].size <= MAXFILE * BSIZE
    ensures Contents(s, inum) == AfterWrite(Contents(s, inum), off, src, 0, 0)
  {
    hide Contents;
  }

  lemma OthersKeptSelf(s: Fs, inum: nat)
    ensures OthersKept(s, s, inum)
  {}

  // ----- Truncation -----

  /** The blocks in slots `lo` to `hi` of an inode. */
  ghost function InSlots(s: Fs, inum: nat, lo: nat, hi: nat): (r: set<nat>) {
    set x | x in s.owner && s.owner[x].inum == inum && lo <= s.owner[x].k < hi
  }

  function Zeroed(a: Addrs, n: nat): (r: Addrs) {
    seq(NDIRECT + 1, i requires 0 <= i < NDIRECT + 1 => if i < n then 0 else a[i])
  }

  /** Taking the block numbers of `gone` out of the block maps. */
  lemma DetachedOk(l: Layout, s: Fs, r: Fs, loose: set<nat>, gone: set<nat>)
    requires FsOk(l, s, loose) && r.disk == s.disk && |r.inodes| == |s.inodes| && gone <= s.owner.Keys
    requires r.owner == s.owner - gone && r.others == s.others
    requires forall i, k :: 0 <= i < |s.inodes| && 0 <= k < SLOTS ==>
      Addr(r.inodes[i], r.disk, k) == if Addr(s.inodes[i], s.disk, k) in gone then 0 else Addr(s.inodes[i], s.disk, k)
    ensures FsOk(l, r, loose + gone)
  {
    hide Addr, Marked;
  }

  /** The file system with slots below `n` of an inode cleared, and the blocks
      they held not yet freed. */
  ghost function Cleared(s0: Fs, disk: seq<Block>, inum: nat, n: nat): (r: Fs)
    requires inum < |s0.inodes|
  {
    Fs(disk, s0.inodes[inum := s0.inodes[inum].(addrs := Zeroed(s0.inodes[inum].addrs, n))],
      s0.owner - InSlots(s0, inum, 0, n), s0.others)
  }

  ghost predicate SameData(l: Layout, a: seq<Block>, b: seq<Block>) {
    |a| == |b| == l.size && forall x :: l.nmeta <= x < l.size ==> a[x] == b[x]
  }

  /** Clearing direct slot `k` as well. */
  lemma ClearDirect(l: Layout, s0: Fs, disk: seq<Block>, inum: nat, k: nat)
    requires inum < |s0.inodes| && k < NDIRECT && FsOk(l, s0, {}) && FsOk(l, Cleared(s0, disk, inum, k), {})
    ensures FsOk(l, Cleared(s0, disk, inum, k + 1), Just(s0.inodes[inum].addrs[k]))
  {
    hide Bits, Addr, Held, Rooted, Cleared;
    var s, r := Cleared(s0, disk, inum, k), Cleared(s0, disk, inum, k + 1);
    var b := s0.inodes[inum].addrs[k];
    var gone := Just(b);
    ClearedOwner(l, s0, disk, inum, k);
    forall i, j | 0 <= i < |s.inodes| && 0 <= j < SLOTS
      ensures Addr(r.inodes[i], r.disk, j) ==
        if Addr(s.inodes[i], s.disk, j) in gone then 0 else Addr(s.inodes[i], s.disk, j)
    {
      ClearedAddr(s0, disk, inum, k, i, j);
      if Addr(s.inodes[i], s.disk, j) == b != 0 {
        BlocksAreDistinct(l, s, {}, i, j, inum, k);
      }
    }
    DetachedOk(l, s, r, {}, gone);
    assert {} + gone == gone;
  }

  lemma ClearedAddr(s0: Fs, disk: seq<Block>, inum: nat, k: nat, i: nat, j: nat)
    requires inum < |s0.inodes| && k < NDIRECT && i < |s0.inodes| && j < SLOTS
    ensures
      var s, r := Cleared(s0, disk, inum, k), Cleared(s0, disk, inum, k + 1);
      && r.disk == s.disk && |r.inodes| == |s.inodes| == |s0.inodes|
      && Addr(s.inodes[inum], s.disk, k) == s0.inodes[inum].addrs[k]
      && Addr(r.inodes[i], r.disk, j) == if i == inum && j == k then 0 else Addr(s.inodes[i], s.disk, j)
  {
    hide InSlots;
  }

  lemma ClearedOwner(l: Layout, s0: Fs, disk: seq<Block>, inum: nat, k: nat)
    requires inum < |s0.inodes| && k <= NDIRECT && FsOk(l, s0, {})
    ensures
      var s, r, gone := Cleared(s0, disk, inum, k), Cleared(s0, disk, inum, k + 1), Just(s0.inodes[inum].addrs[k]);
      && gone <= s.owner.Keys && r.owner == s.owner - gone && r.disk == s.disk == disk
      && |r.inodes| == |s.inodes| == |s0.inodes| && r.others == s.others == s0.others
  {
    hide Zeroed, Bits, Held, Rooted, FsOk;
    SlotBlock(l, s0, inum, k);
    assert InSlots(s0, inum, 0, k + 1) == InSlots(s0, inum, 0, k) + InSlots(s0, inum, k, k + 1);
    assert InSlots(s0, inum, 0, k) !! InSlots(s0, inum, k, k + 1);
  }

  /** A slot holds the one block it owns, or none. */
  lemma SlotBlock(l: Layout, s: Fs, inum: nat, k: nat)
    requires FsOk(l, s, {}) && inum < |s.inodes| && k < SLOTS
    ensures InSlots(s, inum, k, k + 1) == Just(Addr(s.inodes[inum], s.disk, k))
  {
    hide Addr, Bits;
  }

  /** Clearing the indirect root cuts off every block that it leads to. */
  lemma ClearIndirect(l: Layout, s0: Fs, disk: seq<Block>, inum: nat)
    requires inum < |s0.inodes| && FsOk(l, s0, {}) && FsOk(l, Cleared(s0, disk, inum, NDIRECT), {})
    ensures FsOk(l, Cleared(s0, disk, inum, SLOTS), InSlots(s0, inum, NDIRECT, SLOTS))
  {
    hide Bits, Addr, Held, Rooted;
    var s, r := Cleared(s0, disk, inum, NDIRECT), Cleared(s0, disk, inum, SLOTS);
    var gone := InSlots(s0, inum, NDIRECT, SLOTS);
    assert InSlots(s0, inum, 0, SLOTS) == InSlots(s0, inum, 0, NDIRECT) + gone;
    forall i, j | 0 <= i < |s.inodes| && 0 <= j < SLOTS
      ensures Addr(r.inodes[i], r.disk, j) ==
        if Addr(s.inodes[i], s.disk, j) in gone then 0 else Addr(s.inodes[i], s.disk, j)
    {
      CutAddr(l, s0, disk, inum, i, j);
    }
    DetachedOk(l, s, r, {}, gone);
    assert {} + gone == gone;
  }

  lemma CutAddr(l: Layout, s0: Fs, disk: seq<Block>, inum: nat, i: nat, j: nat)
    requires inum < |s0.inodes| && i < |s0.inodes| && j < SLOTS
    requires FsOk(l, s0, {}) && FsOk(l, Cleared(s0, disk, inum, NDIRECT), {})
    ensures
      var s, r := Cleared(s0, disk, inum, NDIRECT), Cleared(s0, disk, inum, SLOTS);
      var a := Addr(s.inodes[i], s.disk, j);
      Addr(r.inodes[i], r.disk, j) == if a in InSlots(s0, inum, NDIRECT, SLOTS) then 0 else a
  {
    hide Bits, Word;
  }

  /** Of the blocks that were cut off, those still to be freed when the first
      `j` entries of the indirect block are done. */
  lemma EntryFreed(l: Layout, s: Fs, inum: nat, j: nat)
    requires FsOk(l, s, {}) && inum < |s.inodes| && j < NINDIRECT && s.inodes[inum].addrs[NDIRECT] != 0
    ensures
      var root, lo := s.inodes[inum].addrs[NDIRECT], NDIRECT + 1 + j;
      && root < |s.disk|
      && (var b := Word(s.disk[root], j);
          if b == 0 then InSlots(s, inum, lo, SLOTS) == InSlots(s, inum, lo + 1, SLOTS)
          else
            && b in InSlots(s, inum, lo, SLOTS)
            && InSlots(s, inum, lo, SLOTS) + {root} - {b} == InSlots(s, inum, lo + 1, SLOTS) + {root})
  {
    hide Bits, Addr, Held, Rooted;
    var root, lo := s.inodes[inum].addrs[NDIRECT], NDIRECT + 1 + j;
    IndirectRootOwned(l, s, {}, inum);
    SlotBlock(l, s, inum, lo);
    EntryAddr(s, inum, j);
    assert InSlots(s, inum, lo, SLOTS) == InSlots(s, inum, lo, lo + 1) + InSlots(s, inum, lo + 1, SLOTS);
    assert InSlots(s, inum, lo, lo + 1) !! InSlots(s, inum, lo + 1, SLOTS);
  }

  /** The slots in the inode itself; without an indirect block there are no others. */
  lemma DirectAddr(s: Fs, inum: nat, bn: nat)
    requires inum < |s.inodes| && bn < MAXFILE
    ensures bn < NDIRECT ==> Addr(s.inodes[inum], s.disk, DataSlot(bn)) == s.inodes[inum].addrs[bn]
    ensures Addr(s.inodes[inum], s.disk, NDIRECT) == s.inodes[inum].addrs[NDIRECT]
    ensures bn >= NDIRECT && s.inodes[inum].addrs[NDIRECT] == 0 ==> Addr(s.inodes[inum], s.disk, DataSlot(bn)) == 0
  {}

  lemma EntryAddr(s: Fs, inum: nat, j: nat)
    requires inum < |s.inodes| && j < NINDIRECT && 0 < s.inodes[inum].addrs[NDIRECT] < |s.disk|
    ensures Addr(s.inodes[inum], s.disk, NDIRECT + 1 + j) == Word(s.disk[s.inodes[inum].addrs[NDIRECT]], j)
  {}

  lemma IndirectBlocks(l: Layout, s: Fs, inum: nat)
    requires FsOk(l, s, {}) && inum < |s.inodes|
    ensures
      var root := s.inodes[inum].addrs[NDIRECT];
      && InSlots(s, inum, NDIRECT, SLOTS) == (if root == 0 then {} else InSlots(s, inum, NDIRECT + 1, SLOTS) + {root})
      && (root != 0 ==> l.nmeta <= root < l.size)
  {
    hide Bits;
    SlotBlock(l, s, inum, NDIRECT);
    assert InSlots(s, inum, NDIRECT, SLOTS) ==
      InSlots(s, inum, NDIRECT, NDIRECT + 1) + InSlots(s, inum, NDIRECT + 1, SLOTS);
  }

  /** Truncating one file leaves the contents of every other alone. */
  lemma ClearedOthers(l: Layout, s0: Fs, disk: seq<Block>, inum: nat, size: nat)
    requires FsOk(l, s0, {}) && inum < |s0.inodes| && SameData(l, s0.disk, disk)
    ensures OthersKept(s0, Resized(Cleared(s0, disk, inum, SLOTS), inum, size), inum)
  {
    hide Addr, Bits;
    var r := Resized(Cleared(s0, disk, inum, SLOTS), inum, size);
    RootedRange(l, s0);
    forall i | 0 <= i < |s0.inodes| && i != inum && s0.inodes[i].size <= MAXFILE * BSIZE
      ensures FileKept(s0, r, i)
    {
      forall k | 0 <= k < SLOTS
        ensures Addr(r.inodes[i], r.disk, k) == Addr(s0.inodes[i], s0.disk, k)
      {
        SameAddrs(l, s0, disk, {}, i, k);
      }
      SameFile(l, s0, r, i);
    }
  }

  lemma SameFile(l: Layout, a: Fs, b: Fs, i: nat)
    requires FsOk(l, a, {}) && SameData(l, a.disk, b.disk) && i < |a.inodes| && i < |b.inodes|
    requires b.inodes[i] == a.inodes[i]
    requires forall k :: 0 <= k < SLOTS ==> Addr(b.inodes[i], b.disk, k) == Addr(a.inodes[i], a.disk, k)
    requires a.inodes[i].size <= MAXFILE * BSIZE
    ensures FileKept(a, b, i)
  {
    hide Addr, FsOk;
    forall x | 0 <= x < MAXFILE * BSIZE
      ensures FileByte(b, i, x) == FileByte(a, i, x)
    {
      SlotOwned(l, a, i, DataSlot(x / BSIZE));
    }
    SameBytes(a, b, i);
  }

  lemma SlotOwned(l: Layout, s: Fs, i: nat, k: nat)
    requires FsOk(l, s, {}) && i < |s.inodes| && k < SLOTS
    ensures Addr(s.inodes[i], s.disk, k) != 0 ==> l.nmeta <= Addr(s.inodes[i], s.disk, k) < l.size == |s.disk|
  {
    hide Addr, Bits;
  }

  /** Only bitmap blocks were passed to log_write. */
  ghost predicate BitmapLogged(l: Layout, before: set<nat>, after: set<nat>) {
    before <= after && forall n :: n in after ==> n in before || l.IsBitmap(n)
  }

  lemma ClearStart(l: Layout, s: Fs, inum: nat, logged: set<nat>)
    requires FsOk(l, s, {}) && inum < |s.inodes|
    ensures Cleared(s, s.disk, inum, 0) == s && SameData(l, s.disk, s.disk) && Covered(s.disk, s.disk, logged)
    ensures BitmapLogged(l, logged, logged)
  {
    assert Zeroed(s.inodes[inum].addrs, 0) == s.inodes[inum].addrs;
  }

  lemma ClearStep(s0: Fs, disk: seq<Block>, inum: nat, k: nat)
    requires inum < |s0.inodes| && k <= NDIRECT
    ensures
      var ips, ips' := Cleared(s0, disk, inum, k).inodes, Cleared(s0, disk, inum, k + 1).inodes;
      && ips' == ips[inum := ips[inum].(addrs := ips[inum].addrs[k := 0])]
      && ips[inum].addrs[k] == s0.inodes[inum].addrs[k]
      && (ips[inum].addrs[k] == 0 ==> ips' == ips)
  {
    hide InSlots;
    var a := s0.inodes[inum].addrs;
    assert Zeroed(a, k + 1) == Zeroed(a, k)[k := 0];
    if a[k] == 0 {
      assert Zeroed(a, k + 1) == Zeroed(a, k);
    }
  }

  lemma AfterFree(l: Layout, a: seq<Block>, b: seq<Block>, c: seq<Block>, u: set<nat>, v: set<nat>, w: set<nat>, n: nat)
    requires SameData(l, a, b) && SameData(l, b, c) && Covered(a, b, v) && Covered(b, c, w)
    requires BitmapLogged(l, u, v) && w == v + {n} && l.IsBitmap(n)
    ensures SameData(l, a, c) && Covered(a, c, w) && BitmapLogged(l, u, w)
  {
    CoveredTrans(a, b, c, v, w);
  }

  lemma ClearedDisk(s0: Fs, d: seq<Block>, d': seq<Block>, inum: nat, n: nat)
    requires inum < |s0.inodes|
    ensures Cleared(s0, d', inum, n) == Cleared(s0, d, inum, n).(disk := d')
  {}

  /** With the last slot of the inode cleared, none is left. */
  lemma ClearLast(s0: Fs, disk: seq<Block>, inum: nat)
    requires inum < |s0.inodes|
    ensures
      var ips, ips' := Cleared(s0, disk, inum, NDIRECT).inodes, Cleared(s0, disk, inum, SLOTS).inodes;
      && inum < |ips| && ips' == ips[inum := ips[inum].(addrs := ips[inum].addrs[NDIRECT := 0])]
      && ips[inum].addrs[NDIRECT] == s0.inodes[inum].addrs[NDIRECT]
      && (ips[inum].addrs[NDIRECT] == 0 ==> ips' == ips)
      && InSlots(s0, inum, SLOTS, SLOTS) == {} && Cleared(s0, disk, inum, SLOTS).others == s0.others
      && Cleared(s0, disk, inum, NDIRECT).others == s0.others
  {
    hide InSlots;
    ClearStep(s0, disk, inum, NDIRECT);
    assert Zeroed(s0.inodes[inum].addrs, SLOTS) == Zeroed(s0.inodes[inum].addrs, NDIRECT + 1);
    NoSlots(s0, inum, SLOTS);
  }

  lemma NoSlots(s: Fs, inum: nat, k: nat)
    ensures InSlots(s, inum, k, k) == {}
  {}

  // ----- A file written in several operations -----

  /** `i` of `n` bytes went out in `k` operations. */
  ghost predicate InUnits(i: nat, k: nat, n: nat) {
    i <= n && if i < n then i == k * WRITE_MAX else n <= k * WRITE_MAX < n + WRITE_MAX
  }

  lemma NoUnits(n: nat)
    ensures InUnits(0, 0, n)
  {}

  lemma UnitsDone(i: nat, k: nat, n: nat)
    ensures InUnits(i, k, n) && i == n ==> n <= k * WRITE_MAX < n + WRITE_MAX
  {}

  lemma NextUnit(i: nat, k: nat, n: nat)
    requires InUnits(i, k, n) && i < n
    ensures InUnits(i + Min(n - i, WRITE_MAX), k + 1, n)
  {
    assert WRITE_MAX == 3072;
  }

  /** `tot` bytes of `src` accounted for so far, `seen` in the cached blocks. */
  ghost predicate FileWritten(s0: Fs, s: Fs, inum: nat, off: nat, src: seq<Byte>, tot: nat, seen: nat) {
    && inum < |s0.inodes| && inum < |s.inodes| && tot <= seen <= |src|
    && s0.inodes[inum].size <= MAXFILE * BSIZE && s.inodes[inum].size <= MAXFILE * BSIZE
    && (Solid(s0, inum) ==> Solid(s, inum)) && OthersKept(s0, s, inum)
    && if off <= s0.inodes[inum].size
       then off + tot <= s.inodes[inum].size && Contents(s, inum) == AfterWrite(Contents(s0, inum), off, src, tot, seen)
       else s == s0 && seen == 0
  }

  lemma FileWrittenNothing(s: Fs, inum: nat, off: nat, src: seq<Byte>)
    requires inum < |s.inodes| && s.inodes[inum].size <= MAXFILE * BSIZE
    ensures FileWritten(s, s, inum, off, src, 0, 0)
  {
    hide Contents, OthersKept, AfterWrite;
    OthersKeptSelf(s, inum);
    if off <= s.inodes[inum].size {
      AfterWriteNothing(s, inum, off, src);
    }
  }

  lemma FileWrittenMore(s0: Fs, s: Fs, t: Fs, inum: nat, off: nat, src: seq<Byte>, i: nat, part: seq<Byte>, w: nat,
      got: nat)
    requires FileWritten(s0, s, inum, off, src, i, i) && off + i <= s.inodes[inum].size
    requires i + |part| <= |src| && part == src[i..i + |part|] && w <= got <= |part|
    requires inum < |t.inodes| && t.inodes[inum].size <= MAXFILE * BSIZE && (Solid(s, inum) ==> Solid(t, inum))
    requires OthersKept(s, t, inum)
    requires Contents(t, inum) == AfterWrite(Contents(s, inum), off + i, part, w, got)
    ensures FileWritten(s0, t, inum, off, src, i + w, i + got)
  {
    hide OthersKept, AfterWrite, Addr;
    OthersKeptTrans(s0, s, t, inum);
    if off <= s0.inodes[inum].size {
      AfterWriteTwice(Contents(s0, inum), off, src, i, part, w, got);
      AfterWriteAt(Contents(s, inum), off + i, part, w, got);
    }
  }

  lemma FileWrittenFacts(s0: Fs, s: Fs, inum: nat, off: nat, src: seq<Byte>, tot: nat, seen: nat)
    requires FileWritten(s0, s, inum, off, src, tot, seen)
    ensures inum < |s.inodes| && s.inodes[inum].size <= MAXFILE * BSIZE && (Solid(s0, inum) ==> Solid(s, inum))
    ensures off + tot <= s.inodes[inum].size <==> off <= s0.inodes[inum].size
    ensures off + tot <= s.inodes[inum].size || (s == s0 && seen == 0)
  {}
}
