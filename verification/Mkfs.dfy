/** mkfs/mkfs.c: the first file system image. Blocks are handed out in order, and
    the bitmap is written last. */
module Mkfs {
  import opened Blocks
  import opened Bitmap
  import opened FsSpec
  import opened DirSpec

  /** A bitmap block with the first `n` bits set. */
  function BitsBlock(n: nat): (r: Block) {
    if n == 0 then ZeroBlock()
    else if n <= BPB then SetBit(BitsBlock(n - 1), n - 1, true)
    else BitsBlock(n - 1)
  }

  lemma {:induction false} BitsBlockBits(n: nat, i: nat)
    requires n <= BPB && i < BPB
    ensures Bit(BitsBlock(n), i) <==> i < n
  {
    hide SetBit, Bit, ZeroBlock;
    if n == 0 {
      BitOfZero(i);
    } else {
      BitsBlockBits(n - 1, i);
      BitOfSetBit(BitsBlock(n - 1), n - 1, true, i);
    }
  }

  lemma BitOfZero(i: nat)
    requires i < BPB
    ensures !Bit(ZeroBlock(), i)
  {
    TestOfZero(i % 8);
  }

  lemma {:induction false} TestOfZero(k: nat)
    ensures !TestBit(0, k)
  {
    if k > 0 {
      TestOfZero(k - 1);
    }
  }

  /** The image as it will be once the bitmap says that blocks below `used` are in use. */
  function Finished(l: Layout, s: Fs, used: nat): (r: Fs)
    requires l.bmapstart < |s.disk|
  {
    s.(disk := s.disk[l.bmapstart := BitsBlock(used)])
  }

  /** Blocks from `free` on are untouched, those before it are all in use. */
  ghost predicate Packed(l: Layout, s: Fs, free: nat) {
    && l.nmeta <= free <= l.size && free <= BPB && |s.disk| == l.size
    && (forall x :: free <= x < l.size || l.bmapstart < x < l.nmeta ==> s.disk[x] == ZeroBlock())
    && (forall x :: x in s.owner <==> l.nmeta <= x < free)
  }

  /** The invariant of the image under construction. */
  ghost predicate ImageOk(l: Layout, s: Fs, free: nat) {
    l.Ok() && Packed(l, s, free) && FsOk(l, Finished(l, s, free), {})
  }

  lemma EmptyImage(l: Layout, s: Fs)
    requires l.Ok() && l.nmeta <= BPB && |s.disk| == l.size && |s.inodes| == l.ninodes && s.owner == map[]
    requires s.others == {}
    requires forall x :: 0 <= x < l.size ==> s.disk[x] == ZeroBlock()
    requires forall i :: 0 <= i < l.ninodes ==> s.inodes[i].addrs == NoAddrs()
    ensures ImageOk(l, s, l.nmeta)
  {
    hide BitsBlock, Bit, ZeroBlock;
    var r := Finished(l, s, l.nmeta);
    forall b | 0 <= b < l.size
      ensures Marked(l, r.disk, b) <==> b < l.nmeta
    {
      FirstMarked(l, s, l.nmeta, b);
    }
  }

  function NoAddrs(): (r: Addrs) {
    seq(NDIRECT + 1, _ => 0)
  }

  lemma FirstMarked(l: Layout, s: Fs, used: nat, b: nat)
    requires l.Ok() && |s.disk| == l.size && used <= BPB && b < l.size
    requires forall x :: l.bmapstart < x < l.nmeta ==> s.disk[x] == ZeroBlock()
    ensures Marked(l, Finished(l, s, used).disk, b) <==> b < used
  {
    hide BitsBlock, Bit, ZeroBlock;
    BitmapIsMeta(l, b);
    if b < BPB {
      BitsBlockBits(used, b);
    } else {
      BitOfZero(b % BPB);
    }
  }

  /** The bitmap has no part in the block maps. */
  lemma FinishedAddr(l: Layout, s: Fs, free: nat, i: nat, k: nat)
    requires ImageOk(l, s, free) && i < |s.inodes| && k < SLOTS
    ensures Addr(s.inodes[i], Finished(l, s, free).disk, k) == Addr(s.inodes[i], s.disk, k)
    ensures
      var root := s.inodes[i].addrs[NDIRECT];
      root != 0 ==> root in s.owner && l.nmeta <= root < l.size
  {
    hide BitsBlock, Bits, Word;
    if s.inodes[i].addrs[NDIRECT] != 0 {
      IndirectRootOwned(l, Finished(l, s, free), {}, i);
    }
  }

  /** The next block, marked in the bitmap to be. */
  lemma NextMarked(l: Layout, s: Fs, free: nat)
    requires ImageOk(l, s, free) && free < l.size && free < BPB
    ensures FsOk(l, Finished(l, s, free + 1), {free}) && free !in s.owner
  {
    hide BitsBlock, SetBit, Held, Rooted, ZeroBlock, Bit, Marked, FsOk;
    ImageFacts(l, s, free);
    var f := Finished(l, s, free);
    FirstMarked(l, s, free, free);
    AllocatedOk(l, f, {}, free);
    NextDisk(l, s, free);
    assert {} + {free} == {free};
  }

  lemma NextDisk(l: Layout, s: Fs, free: nat)
    requires l.bmapstart < free < |s.disk| && free < BPB && s.disk[free] == ZeroBlock()
    ensures WithBit(l, Finished(l, s, free).disk, free, true)[free := ZeroBlock()] == Finished(l, s, free + 1).disk
  {
    hide BitsBlock, SetBit, ZeroBlock;
    BitsBlockNext(free);
  }

  lemma BitsBlockNext(n: nat)
    requires n < BPB
    ensures BitsBlock(n + 1) == SetBit(BitsBlock(n), n, true)
  {}

  /** The next block comes into an empty slot. */
  lemma NextBlock(l: Layout, s: Fs, free: nat, inum: nat, k: nat)
    requires ImageOk(l, s, free) && free < l.size && free < BPB
    requires inum < |s.inodes| && k < SLOTS && Addr(s.inodes[inum], s.disk, k) == 0
    requires k > NDIRECT ==> s.inodes[inum].addrs[NDIRECT] != 0
    ensures k > NDIRECT ==> s.inodes[inum].addrs[NDIRECT] < |s.disk|
    ensures Extends(l, s, free, Attached(s, inum, k, free), free + 1, inum)
  {
    hide BitsBlock, Addr, SetBit, ZeroBlock, SetWord, SameBlocks, FsOk, Attached;
    ImageFacts(l, s, free);
    FinishedAddr(l, s, free, inum, k);
    NextMarked(l, s, free);
    AttachedFinished(l, s, free + 1, inum, k, free);
    var f, g := Finished(l, s, free), Finished(l, s, free + 1);
    assert forall x :: l.nmeta <= x < l.size && x != free ==> g.disk[x] == f.disk[x];
    SameSlots(l, f, g.disk, free, inum);
    AttachedSame(l, f, g, inum, k, free);
    AttachedPacked(l, s, free, inum, k);
  }

  lemma AttachedPacked(l: Layout, s: Fs, free: nat, inum: nat, k: nat)
    requires l.Ok() && Packed(l, s, free) && free < l.size && free < BPB && inum < |s.inodes| && k < SLOTS
    requires k > NDIRECT ==> s.inodes[inum].addrs[NDIRECT] in s.owner
    ensures Packed(l, Attached(s, inum, k, free), free + 1)
  {
    hide ZeroBlock, SetWord;
  }

  lemma ImageFacts(l: Layout, s: Fs, free: nat)
    requires ImageOk(l, s, free)
    ensures l.bmapstart < l.nmeta <= free <= l.size == |s.disk| && l.size < 0x1_0000_0000 && |s.inodes| == l.ninodes
  {
    hide Held, Rooted, Bits;
  }

  /** One image grown into another by new blocks of file `inum`: no block changes its
      owner or its contents. */
  ghost predicate Extends(l: Layout, s: Fs, free: nat, r: Fs, free': nat, inum: nat) {
    && ImageOk(l, s, free) && ImageOk(l, r, free') && free <= free'
    && SameBlocks(Finished(l, s, free), Finished(l, r, free'), inum, {})
  }

  /** Slot `k` of an inode went from empty to `b`, and no other slot changed. */
  ghost predicate Filled(f: Fs, g: Fs, inum: nat, k: nat, b: nat) {
    && inum < |f.inodes| && k < SLOTS
    && |g.inodes| == |f.inodes| && g.inodes == f.inodes[inum := f.inodes[inum].(addrs := g.inodes[inum].addrs)]
    && forall i, j :: 0 <= i < |f.inodes| && 0 <= j < SLOTS ==>
         Addr(g.inodes[i], g.disk, j) == if i == inum && j == k then b else Addr(f.inodes[i], f.disk, j)
  }

  ghost predicate Takes(l: Layout, s: Fs, free: nat, r: Fs, inum: nat, k: nat) {
    Extends(l, s, free, r, free + 1, inum) && Filled(Finished(l, s, free), Finished(l, r, free + 1), inum, k, free)
  }

  lemma NextFilled(l: Layout, s: Fs, free: nat, inum: nat, k: nat, r: Fs)
    requires ImageOk(l, s, free) && free < l.size && free < BPB && free < 0x1_0000_0000
    requires inum < |s.inodes| && k < SLOTS && Addr(s.inodes[inum], s.disk, k) == 0
    requires k > NDIRECT ==> 0 < s.inodes[inum].addrs[NDIRECT] < |s.disk|
    requires r == Attached(s, inum, k, free)
    ensures Takes(l, s, free, r, inum, k)
  {
    hide BitsBlock, Addr, SetBit, ZeroBlock, SetWord, SameBlocks, FsOk;
    ImageFacts(l, s, free);
    NextBlock(l, s, free, inum, k);
    NextMarked(l, s, free);
    FinishedAddr(l, s, free, inum, k);
    AttachedFinished(l, s, free + 1, inum, k, free);
    var f, g := Finished(l, s, free), Finished(l, s, free + 1);
    assert forall x :: l.nmeta <= x < l.size && x != free ==> g.disk[x] == f.disk[x];
    forall i, j | 0 <= i < |s.inodes| && 0 <= j < SLOTS
      ensures
        var r := Attached(g, inum, k, free);
        Addr(r.inodes[i], r.disk, j) == if i == inum && j == k then free else Addr(f.inodes[i], f.disk, j)
    {
      SameSlots(l, f, g.disk, free, i);
      SameSlots(l, f, g.disk, free, inum);
      AttachedAddr(l, g, {free}, inum, k, free, i, j);
    }
  }

  /** An inode has exactly the data blocks below `n`, and an indirect block just
      when one of them needs it. */
  ghost predicate Exact(f: Fs, inum: nat, n: nat)
    requires inum < |f.inodes|
  {
    && n <= MAXFILE && (Addr(f.inodes[inum], f.disk, NDIRECT) != 0 <==> n > NDIRECT)
    && forall bn :: 0 <= bn < MAXFILE ==> (Addr(f.inodes[inum], f.disk, DataSlot(bn)) != 0 <==> bn < n)
  }

  /** Blocks that such an inode takes. */
  function Uses(n: nat): (r: nat) {
    if n > NDIRECT then n + 1 else n
  }

  function BlocksFor(size: nat): (n: nat) {
    (size + BSIZE - 1) / BSIZE
  }

  lemma ExactNoHoles(f: Fs, inum: nat, size: nat)
    requires inum < |f.inodes| && size <= MAXFILE * BSIZE && Exact(f, inum, BlocksFor(size))
    ensures NoHoles(f, inum, size)
  {
    hide Addr;
  }

  /** All inodes but `inum` keep their block maps, and `inum` keeps all but its map. */
  ghost predicate OtherMaps(f: Fs, g: Fs, inum: nat) {
    && inum < |f.inodes| == |g.inodes| && g.inodes == f.inodes[inum := f.inodes[inum].(addrs := g.inodes[inum].addrs)]
    && forall i, j :: 0 <= i < |f.inodes| && i != inum && 0 <= j < SLOTS ==>
         Addr(g.inodes[i], g.disk, j) == Addr(f.inodes[i], f.disk, j)
  }

  /** The image grown until inode `inum` has `n'` data blocks. */
  ghost predicate Enlarged(l: Layout, s: Fs, free: nat, r: Fs, free': nat, inum: nat, n: nat, n': nat) {
    && Extends(l, s, free, r, free', inum) && OtherMaps(Finished(l, s, free), Finished(l, r, free'), inum)
    && Exact(Finished(l, s, free), inum, n) && Exact(Finished(l, r, free'), inum, n') && n <= n'
    && free' == free + Uses(n') - Uses(n)
  }

  lemma EnlargedNot(l: Layout, s: Fs, free: nat, inum: nat, n: nat)
    requires ImageOk(l, s, free) && inum < |s.inodes| && Exact(Finished(l, s, free), inum, n)
    ensures Enlarged(l, s, free, s, free, inum, n, n)
  {
    hide Addr, FsOk;
  }

  /** The next data block of a file, no new indirect block needed. */
  lemma EnlargedDirect(l: Layout, s: Fs, free: nat, r: Fs, inum: nat, n: nat)
    requires n < MAXFILE && n != NDIRECT && Takes(l, s, free, r, inum, DataSlot(n))
    requires Exact(Finished(l, s, free), inum, n)
    ensures Enlarged(l, s, free, r, free + 1, inum, n, n + 1)
  {
    hide Addr, FsOk, SameBlocks;
  }

  /** The first block behind the indirect block. */
  lemma EnlargedIndirect(l: Layout, s: Fs, free: nat, q: Fs, r: Fs, inum: nat)
    requires Takes(l, s, free, q, inum, NDIRECT) && Takes(l, q, free + 1, r, inum, NDIRECT + 1)
    requires Exact(Finished(l, s, free), inum, NDIRECT)
    ensures Enlarged(l, s, free, r, free + 2, inum, NDIRECT, NDIRECT + 1)
  {
    hide Addr, FsOk, SameBlocks;
    ImageFacts(l, s, free);
    ImageFacts(l, q, free + 1);
    ImageFacts(l, r, free + 2);
    SameBlocksTrans(Finished(l, s, free), Finished(l, q, free + 1), Finished(l, r, free + 2), inum, {}, {});
  }

  class Image {
    const l: Layout
    var disk: seq<Block>
    var inodes: seq<Inode>
    var freeinode: nat
    var freeblock: nat
    ghost var owner: map<nat, Slot>

    ghost function S(): (s: Fs)
      reads this
    {
      Fs(disk, inodes, owner, {})
    }

    /** The image with the bitmap that will go with it. */
    ghost function P(): (f: Fs)
      reads this
      requires ImageOk(l, S(), freeblock)
    {
      Finished(l, S(), freeblock)
    }

    /** The image before anything is in it: all blocks zero. */
    constructor (l: Layout)
      requires l.Ok() && l.nmeta <= BPB && 1 <= l.ninodes
      ensures this.l == l && Valid() && |inodes| == l.ninodes && freeinode == 1 && freeblock == l.nmeta
    {
      this.l := l;
      disk := seq(l.size, _ => ZeroBlock());
      inodes := seq(l.ninodes, _ => NoInode());
      freeinode, freeblock, owner := 1, l.nmeta, map[];
      new;
      hide FsOk, BitsBlock, ZeroBlock;
      EmptyImage(l, S());
      EmptySized(P());
    }

    /** ialloc: the next inode, with one link and no contents. */
    method Ialloc(typ: nat) returns (inum: nat)
      requires Valid() && freeinode < |inodes|
      modifies this`inodes, this`freeinode
      ensures Valid() && inum == old(freeinode) && freeinode == inum + 1
      ensures inodes == old(inodes)[inum := Inode(typ, 0, 0, 1, 0, NoAddrs())]
      ensures Contents(P(), inum) == [] && OthersKept(old(P()), P(), inum)
    {
      hide FsOk, Addr, Exact, OthersKept, BitsBlock, ZeroBlock;
      FreshInode(l, S(), freeblock, freeinode, Inode(typ, 0, 0, 1, 0, NoAddrs()));
      inum := freeinode;
      freeinode := freeinode + 1;
      inodes := inodes[inum := Inode(typ, 0, 0, 1, 0, NoAddrs())];
    }

    /** balloc: write the bitmap block. */
    method Balloc(used: nat)
      requires used < BPB && l.bmapstart < |disk|
      modifies this`disk
      ensures disk == old(disk)[l.bmapstart := BitsBlock(used)]
    {
      hide SetBit, ZeroBlock;
      var buf := ZeroBlock();
      for i := 0 to used
        invariant buf == BitsBlock(i)
      {
        buf := SetBit(buf, i, true);
      }
      disk := disk[l.bmapstart := buf];
    }

    /** `freeblock++` for an empty slot. */
    method NewBlock(inum: nat, k: nat) returns (b: Word32)
      requires ImageOk(l, S(), freeblock) && freeblock < l.size && freeblock < BPB
      requires inum < |inodes| && k < SLOTS && Addr(inodes[inum], disk, k) == 0
      requires k > NDIRECT ==> inodes[inum].addrs[NDIRECT] != 0
      modifies this`disk, this`inodes, this`freeblock, this`owner
      ensures freeblock == old(freeblock) + 1 && b == old(freeblock) && Takes(l, old(S()), old(freeblock), S(), inum, k)
    {
      hide FsOk, Addr, SetWord, Extends, Filled;
      ImageFacts(l, S(), freeblock);
      FinishedAddr(l, S(), freeblock, inum, k);
      NextFilled(l, S(), freeblock, inum, k, Attached(S(), inum, k, freeblock));
      b := freeblock;
      freeblock := freeblock + 1;
      if k <= NDIRECT {
        inodes := inodes[inum := inodes[inum].(addrs := inodes[inum].addrs[k := b])];
      } else {
        var root := inodes[inum].addrs[NDIRECT];
        disk := disk[root := SetWord(disk[root], k - NDIRECT - 1, b)];
      }
      owner := owner[b := Slot(inum, k)];
    }

    /** iappend's inner part: the block of the file's data block `bn`. */
    method MapBlock(inum: nat, bn: nat, ghost n: nat) returns (x: Word32)
      requires ImageOk(l, S(), freeblock) && inum < |inodes| && Exact(P(), inum, n) && n <= bn + 1 && bn <= n
      requires bn < MAXFILE
      requires freeblock + Uses(bn + 1) - Uses(n) <= Min(l.size, BPB)
      modifies this`disk, this`inodes, this`freeblock, this`owner
      ensures Enlarged(l, old(S()), old(freeblock), S(), freeblock, inum, n, bn + 1)
      ensures inum < |inodes| && x == Addr(inodes[inum], disk, DataSlot(bn))
    {
      hide FsOk, Extends, Filled, Enlarged, Takes, Exact;
      ghost var s, free := S(), freeblock;
      EnlargedNot(l, s, freeblock, inum, n);
      EnlargedFacts(l, s, freeblock, s, freeblock, inum, n, n, bn);
      if bn < NDIRECT {
        if inodes[inum].addrs[bn] == 0 {
          var _ := NewBlock(inum, bn);
          EnlargedDirect(l, s, free, S(), inum, n);
          EnlargedFacts(l, s, free, S(), freeblock, inum, n, n + 1, bn);
        }
        x := inodes[inum].addrs[bn];
      } else {
        x := MapIndirect(inum, bn - NDIRECT, n);
      }
    }

    method MapIndirect(inum: nat, j: nat, ghost n: nat) returns (x: Word32)
      requires ImageOk(l, S(), freeblock) && inum < |inodes| && j < NINDIRECT
      requires Exact(P(), inum, n) && n <= NDIRECT + j + 1 && NDIRECT + j <= n
      requires freeblock + Uses(NDIRECT + j + 1) - Uses(n) <= Min(l.size, BPB)
      modifies this`disk, this`inodes, this`freeblock, this`owner
      ensures Enlarged(l, old(S()), old(freeblock), S(), freeblock, inum, n, NDIRECT + j + 1)
      ensures inum < |inodes| && x == Addr(inodes[inum], disk, NDIRECT + 1 + j)
    {
      hide FsOk, Extends, Filled, Enlarged, Takes, Exact, Word;
      ghost var s, free := S(), freeblock;
      EnlargedNot(l, s, freeblock, inum, n);
      EnlargedFacts(l, s, free, s, free, inum, n, n, NDIRECT + j);
      if inodes[inum].addrs[NDIRECT] == 0 {
        var _ := NewBlock(inum, NDIRECT);
        TakesFacts(l, s, free, S(), inum, NDIRECT, NDIRECT + 1);
      }
      ghost var q := S();
      var root := inodes[inum].addrs[NDIRECT];
      if Word(disk[root], j) == 0 {
        ghost var free1 := freeblock;
        var _ := NewBlock(inum, NDIRECT + 1 + j);
        TakesFacts(l, q, free1, S(), inum, NDIRECT + 1 + j, NDIRECT);
        if n == NDIRECT {
          EnlargedIndirect(l, s, free, q, S(), inum);
        } else {
          EnlargedDirect(l, s, free, S(), inum, n);
        }
        EnlargedFacts(l, s, free, S(), freeblock, inum, n, n + 1, NDIRECT + j);
      }
      x := Word(disk[root], j);
    }

    /** Every inode has the blocks its size calls for, and those not handed out
        yet are empty. */
    ghost predicate Valid()
      reads this
    {
      && ImageOk(l, S(), freeblock) && Sized(P()) && freeinode <= |inodes|
      && forall i :: freeinode <= i < |inodes| ==> inodes[i].size == 0
    }

    /** iappend: the file gets `src` at its end. */
    method Iappend(inum: nat, src: seq<Byte>)
      requires Valid() && inum < freeinode && inodes[inum].size + |src| <= MAXFILE * BSIZE
      requires freeblock +
        Uses(BlocksFor(inodes[inum].size + |src|)) - Uses(BlocksFor(inodes[inum].size)) <= Min(l.size, BPB)
      modifies this`disk, this`inodes, this`freeblock, this`owner
      ensures Valid() && |inodes| == |old(inodes)|
      ensures inodes ==
        old(inodes)[inum := old(inodes)[inum].(addrs := inodes[inum].addrs, size := old(inodes)[inum].size + |src|)]
      ensures freeblock == old(freeblock) + Uses(BlocksFor(inodes[inum].size)) - Uses(BlocksFor(old(inodes)[inum].size))
      ensures Contents(P(), inum) == old(Contents(P(), inum)) + src && OthersKept(old(P()), P(), inum)
    {
      hide FsOk, Addr, Enlarged, Exact, Contents, OthersKept, Appending, Placed, Patch, Sized, BlocksFor, Chunk;
      hide BitsBlock, Packed;
      ghost var p0, free0 := P(), freeblock;
      var off := inodes[inum].size;
      ghost var off0, changed := off, {};
      AppendStart(l, S(), freeblock, inum, src);
      var tot := 0;
      while tot < |src|
        invariant 0 <= tot <= |src| && off == off0 + tot && inum < |inodes| && ImageOk(l, S(), freeblock)
        invariant Appending(l, p0, free0, S(), freeblock, inum, off0, src, tot, changed)
      {
        var fbn := off / BSIZE;
        ghost var s, free := S(), freeblock;
        AppendRoom(l, p0, free0, s, free, inum, off0, src, tot, changed);
        var x := MapBlock(inum, fbn, BlocksFor(off));
        var n1 := Min(|src| - tot, (fbn + 1) * BSIZE - off);
        ChunkBlocks(off, |src| - tot);
        AppendPlaced(l, p0, free0, s, free, S(), freeblock, inum, off0, src, tot, changed);
        AppendChunk(l, p0, free0, S(), freeblock, inum, off0, src, tot, changed, x, n1);
        disk := disk[x := Patch(disk[x], off - fbn * BSIZE, src[tot..tot + n1])];
        changed := changed + {x};
        tot, off := tot + n1, off + n1;
      }
      AppendEnd(l, p0, free0, S(), freeblock, inum, src, changed);
      inodes := inodes[inum := inodes[inum].(size := off)];
    }

    /** Copying in one file, a block at a time. */
    method CopyIn(inum: nat, data: seq<Byte>)
      requires Valid() && inum < freeinode && inodes[inum].size == 0 && |data| <= MAXFILE * BSIZE
      requires freeblock + Uses(BlocksFor(|data|)) <= Min(l.size, BPB)
      modifies this`disk, this`inodes, this`freeblock, this`owner
      ensures Valid() && |inodes| == |old(inodes)|
      ensures inodes == old(inodes)[inum := old(inodes)[inum].(addrs := inodes[inum].addrs, size := |data|)]
      ensures freeblock == old(freeblock) + Uses(BlocksFor(|data|))
      ensures Contents(P(), inum) == data && OthersKept(old(P()), P(), inum)
    {
      hide FsOk, Addr, Exact, Contents, OthersKept, BitsBlock, Packed, Sized, BlocksFor;
      ghost var p0 := P();
      OthersKeptSelf(p0, inum);
      NoBytes(p0, inum);
      BlocksGrow(0, |data|);
      assert inodes == old(inodes)[inum := old(inodes)[inum].(addrs := inodes[inum].addrs, size := 0)];
      var k := 0;
      while k < |data|
        invariant 0 <= k <= |data| && Valid() && |inodes| == |old(inodes)|
        invariant inodes == old(inodes)[inum := old(inodes)[inum].(addrs := inodes[inum].addrs, size := k)]
        invariant freeblock == old(freeblock) + Uses(BlocksFor(k))
        invariant Contents(P(), inum) == data[..k] && OthersKept(p0, P(), inum)
      {
        var cc := Min(BSIZE, |data| - k);
        ghost var p := P();
        BlocksGrow(k + cc, |data|);
        Iappend(inum, data[k..k + cc]);
        OthersKeptTrans(p0, p, P(), inum);
        assert data[..k] + data[k..k + cc] == data[..k + cc];
        k := k + cc;
      }
      assert data[..k] == data;
    }

    /** The loop body of main: one more file, entered in the root directory. */
    method AddFile(root: nat, file: File) returns (inum: nat)
      requires Valid() && root < freeinode < |inodes| && freeinode < 0x1_0000
      requires |file.data| <= MAXFILE * BSIZE && inodes[root].size + DIRENT <= MAXFILE * BSIZE
      requires freeblock + Uses(BlocksFor(inodes[root].size + DIRENT)) - Uses(BlocksFor(inodes[root].size))
               + Uses(BlocksFor(|file.data|)) <= Min(l.size, BPB)
      modifies this`disk, this`inodes, this`freeblock, this`freeinode, this`owner
      ensures Valid() && inum == old(freeinode) && freeinode == inum + 1 && |inodes| == |old(inodes)|
      ensures inodes[root].size == old(inodes)[root].size + DIRENT && inodes[inum].size == |file.data|
      ensures Fresh(inodes[inum], T_FILE) && (Fresh(old(inodes)[root], T_DIR) ==> Fresh(inodes[root], T_DIR))
      ensures freeblock == old(freeblock) + Uses(BlocksFor(inodes[root].size)) - Uses(BlocksFor(old(inodes)[root].size))
                           + Uses(BlocksFor(|file.data|))
      ensures Contents(P(), root) == old(Contents(P(), root)) + Entry(inum, NameOf(file.name))
      ensures Contents(P(), inum) == file.data
      ensures forall i :: 0 <= i < |inodes| && i != root && i != inum ==>
        inodes[i] == old(inodes)[i] && Contents(P(), i) == old(Contents(P(), i))
    {
      hide FsOk, Addr, Exact, Contents, BitsBlock, Packed, BlocksFor, NoHoles, Uses;
      SizedNoHoles(P());
      inum := Ialloc(T_FILE);
      SizedNoHoles(P());
      Iappend(root, Entry(inum, NameOf(file.name)));
      SizedNoHoles(P());
      CopyIn(inum, file.data);
    }

    /** The end of main: round up the size of the root directory, write the bitmap. */
    method Finish(root: nat)
      requires Valid() && root < |inodes| && freeblock < BPB
      modifies this`disk, this`inodes
      ensures FsOk(l, S(), {})
      ensures inodes == old(inodes)[root := old(inodes)[root].(size := RoundedSize(old(inodes)[root].size))]
      ensures NoHoles(S(), root, inodes[root].size) <==> old(inodes)[root].size % BSIZE != 0
      ensures OthersKept(old(P()), S(), root)
      ensures forall i :: 0 <= i < |inodes| && i != root ==> NoHoles(S(), i, inodes[i].size)
      ensures inodes[root].size <= MAXFILE * BSIZE ==>
        Contents(S(), root) == old(Contents(P(), root)) + Zeros(inodes[root].size - old(inodes)[root].size)
      ensures forall i :: 0 <= i < |inodes| ==> Exact(S(), i, BlocksFor(old(inodes)[i].size))
      ensures forall x :: x in owner <==> l.nmeta <= x < freeblock
    {
      hide FsOk, Addr, Exact, Contents, BitsBlock, Packed, BlocksFor, NoHoles, OthersKept;
      ghost var f := P();
      ImageFacts(l, S(), freeblock);
      var off := inodes[root].size;
      off := (off / BSIZE + 1) * BSIZE;
      inodes := inodes[root := inodes[root].(size := off)];
      Balloc(freeblock);
      assert S() == Resized(f, root, off);
      RoundedRoot(l, f, root);
      ResizedExact(f, root, off);
      PackedOwners(l, old(S()), freeblock);
    }
  }

  lemma ResizedExact(f: Fs, root: nat, size: nat)
    requires Sized(f) && root < |f.inodes|
    ensures forall i :: 0 <= i < |f.inodes| ==> Exact(Resized(f, root, size), i, BlocksFor(f.inodes[i].size))
  {
    hide Addr, BlocksFor;
    ResizedMaps(f, root, size);
  }

  lemma PackedOwners(l: Layout, s: Fs, free: nat)
    requires ImageOk(l, s, free)
    ensures forall x :: x in s.owner <==> l.nmeta <= x < free
  {
    hide FsOk;
  }

  const T_DIR := 1
  const T_FILE := 2

  datatype File = File(name: seq<Byte>, data: seq<Byte>)

  lemma NoBytes(f: Fs, inum: nat)
    requires inum < |f.inodes| && f.inodes[inum].size == 0
    ensures Contents(f, inum) == []
  {}

  lemma BlocksGrow(a: nat, b: nat)
    requires a <= b
    ensures Uses(BlocksFor(a)) <= Uses(BlocksFor(b)) && BlocksFor(0) == 0
  {}

  lemma SizedNoHoles(f: Fs)
    requires Sized(f)
    ensures forall i :: 0 <= i < |f.inodes| ==> NoHoles(f, i, f.inodes[i].size)
  {
    hide Exact, NoHoles;
    forall i | 0 <= i < |f.inodes|
      ensures NoHoles(f, i, f.inodes[i].size)
    {
      ExactNoHoles(f, i, f.inodes[i].size);
    }
  }

  /** Rounding up always adds to the size; a size that is a multiple of BSIZE
      grows by a block that the directory does not have. */
  lemma RoundedRoot(l: Layout, f: Fs, root: nat)
    requires FsOk(l, f, {}) && Sized(f) && root < |f.inodes|
    ensures
      var size := f.inodes[root].size;
      var r := Resized(f, root, (size / BSIZE + 1) * BSIZE);
      && FsOk(l, r, {}) && OthersKept(f, r, root)
      && (NoHoles(r, root, r.inodes[root].size) <==> size % BSIZE != 0)
      && (forall i :: 0 <= i < |r.inodes| && i != root ==> NoHoles(r, i, r.inodes[i].size))
      && (r.inodes[root].size <= MAXFILE * BSIZE ==>
        Contents(r, root) == Contents(f, root) + Zeros(r.inodes[root].size - size))
  {
    hide Addr, FsOk, NoHoles, Exact;
    var size := f.inodes[root].size;
    var to := (size / BSIZE + 1) * BSIZE;
    var r := Resized(f, root, to);
    ResizedOk(l, f, {}, root, to);
    ResizedMaps(f, root, to);
    SizedNoHoles(f);
    RoundedHoles(f, r, root, size, to);
    SameMapsOk(l, f, r);
    forall i | 0 <= i < |f.inodes| && i != root
      ensures FileKept(f, r, i) && NoHoles(r, i, r.inodes[i].size)
    {
      SameFile(l, f, r, i);
    }
    if to <= MAXFILE * BSIZE {
      assert Contents(r, root) == Contents(f, root) + Zeros(to - size) by {
        forall x | 0 <= x < to
          ensures FileByte(r, root, x) == FileByte(f, root, x)
        {}
      }
    }
  }

  /** The size that mkfs gives the root directory. */
  function RoundedSize(size: nat): (r: nat) {
    (size / BSIZE + 1) * BSIZE
  }

  lemma RoundedUp(size: nat)
    ensures size < RoundedSize(size) <= size + BSIZE && RoundedSize(size) % BSIZE == 0
  {}

  function Zeros(n: nat): (z: seq<Byte>) {
    seq(n, _ => 0)
  }

  lemma RoundedHoles(f: Fs, r: Fs, root: nat, size: nat, to: nat)
    requires root < |f.inodes| && root < |r.inodes| && Exact(f, root, BlocksFor(size))
    requires to == (size / BSIZE + 1) * BSIZE
    requires forall k :: 0 <= k < SLOTS ==> Addr(r.inodes[root], r.disk, k) == Addr(f.inodes[root], f.disk, k)
    ensures NoHoles(r, root, to) <==> size % BSIZE != 0
  {
    hide Addr;
    var bn := size / BSIZE;
    assert bn * BSIZE < to;
    if size % BSIZE != 0 {
      assert BlocksFor(size) == bn + 1;
    }
  }

  ghost predicate Sized(f: Fs) {
    forall i :: 0 <= i < |f.inodes| ==>
      f.inodes[i].size <= MAXFILE * BSIZE && Exact(f, i, BlocksFor(f.inodes[i].size)) && ZeroTail(f, i)
  }

  /** Beyond its size a file is zero. */
  ghost predicate ZeroTail(f: Fs, i: nat)
    requires i < |f.inodes|
  {
    forall x :: f.inodes[i].size <= x < MAXFILE * BSIZE ==> FileByte(f, i, x) == 0
  }

  lemma KeptTail(f: Fs, g: Fs, i: nat)
    requires i < |f.inodes| && f.inodes[i].size <= MAXFILE * BSIZE && FileKept(f, g, i) && ZeroTail(f, i)
    ensures ZeroTail(g, i)
  {
    hide FileByte, Contents, NoHoles;
  }

  lemma AppendedTail(l: Layout, p0: Fs, f: Fs, inum: nat, src: seq<Byte>, changed: set<nat>)
    requires inum < |p0.inodes| && ZeroTail(p0, inum)
    requires Written(l, p0, f, inum, p0.inodes[inum].size, src, |src|, changed)
    ensures inum < |f.inodes| && ZeroTail(Resized(f, inum, p0.inodes[inum].size + |src|), inum)
  {
    hide FsOk, SameBlocks, Addr;
    var r := Resized(f, inum, p0.inodes[inum].size + |src|);
    ResizedAddr(f, inum, p0.inodes[inum].size + |src|);
    forall x | r.inodes[inum].size <= x < MAXFILE * BSIZE
      ensures FileByte(r, inum, x) == 0
    {
      assert FileByte(f, inum, x) == FileByte(p0, inum, x);
    }
  }

  /** The state of iappend's loop. */
  ghost predicate Appending(l: Layout, p0: Fs, free0: nat, s: Fs, free: nat, inum: nat, off0: nat, src: seq<Byte>,
      tot: nat, changed: set<nat>) {
    && ImageOk(l, s, free) && tot <= |src|
    && Written(l, p0, Finished(l, s, free), inum, off0, src, tot, changed) && OtherMaps(p0, Finished(l, s, free), inum)
    && p0.inodes[inum].size == off0 && Exact(Finished(l, s, free), inum, BlocksFor(off0 + tot))
    && free == free0 + Uses(BlocksFor(off0 + tot)) - Uses(BlocksFor(off0))
    && free0 + Uses(BlocksFor(off0 + |src|)) - Uses(BlocksFor(off0)) <= Min(l.size, BPB)
  }

  lemma AppendStart(l: Layout, s: Fs, free: nat, inum: nat, src: seq<Byte>)
    requires ImageOk(l, s, free) && Sized(Finished(l, s, free)) && inum < |s.inodes|
    requires s.inodes[inum].size + |src| <= MAXFILE * BSIZE
    requires free +
      Uses(BlocksFor(s.inodes[inum].size + |src|)) - Uses(BlocksFor(s.inodes[inum].size)) <= Min(l.size, BPB)
    ensures Appending(l, Finished(l, s, free), free, s, free, inum, s.inodes[inum].size, src, 0, {})
  {
    hide FsOk, Addr, Exact, ZeroBlock, BitsBlock, BlocksFor, Uses, Packed, Written, OtherMaps, Sized;
    ImageFacts(l, s, free);
    var f := Finished(l, s, free);
    SizedAt(f, inum);
    WrittenNothing(l, f, inum, s.inodes[inum].size, src);
    OtherMapsSelf(f, inum);
  }

  lemma SizedAt(f: Fs, i: nat)
    requires Sized(f) && i < |f.inodes|
    ensures f.inodes[i].size <= MAXFILE * BSIZE && Exact(f, i, BlocksFor(f.inodes[i].size))
  {
    hide Exact, BlocksFor, ZeroTail;
  }

  lemma OtherMapsSelf(f: Fs, inum: nat)
    requires inum < |f.inodes|
    ensures OtherMaps(f, f, inum)
  {
    hide Addr;
  }

  lemma AppendRoom(l: Layout, p0: Fs, free0: nat, s: Fs, free: nat, inum: nat, off0: nat, src: seq<Byte>, tot: nat,
      changed: set<nat>)
    requires Appending(l, p0, free0, s, free, inum, off0, src, tot, changed) && tot < |src|
    ensures Room(l, s, free, inum, off0 + tot)
  {
    hide FsOk, Addr, Exact, OtherMaps, WrittenBytes, SameBlocks, BlocksFor, Packed;
    BlocksBetween(off0 + tot, off0 + |src|);
  }

  /** There is a block for the byte at `off`, the next one to be written. */
  ghost predicate Room(l: Layout, s: Fs, free: nat, inum: nat, off: nat) {
    && ImageOk(l, s, free) && inum < |s.inodes| && Exact(Finished(l, s, free), inum, BlocksFor(off))
    && off / BSIZE < MAXFILE && off / BSIZE <= BlocksFor(off) <= off / BSIZE + 1
    && free + Uses(off / BSIZE + 1) - Uses(BlocksFor(off)) <= Min(l.size, BPB)
  }

  lemma BlocksBetween(off: nat, size: nat)
    requires off < size <= MAXFILE * BSIZE
    ensures off / BSIZE < MAXFILE && off / BSIZE <= BlocksFor(off) <= off / BSIZE + 1 <= BlocksFor(size)
  {}

  lemma EnlargedFacts(l: Layout, s: Fs, free: nat, r: Fs, free': nat, inum: nat, n: nat, n': nat, bn: nat)
    requires Enlarged(l, s, free, r, free', inum, n, n') && bn < MAXFILE
    ensures ImageOk(l, r, free') && inum < |r.inodes| && l.bmapstart < l.nmeta <= free' <= l.size == |r.disk|
    ensures Addr(r.inodes[inum], r.disk, DataSlot(bn)) != 0 <==> bn < n'
    ensures r.inodes[inum].addrs[NDIRECT] != 0 <==> n' > NDIRECT
    ensures r.inodes[inum].addrs[NDIRECT] < l.size
  {
    hide FsOk, SameBlocks, Addr, BitsBlock;
    ImageFacts(l, r, free');
    FinishedAddr(l, r, free', inum, DataSlot(bn));
    FinishedAddr(l, r, free', inum, NDIRECT);
    AddrRoot(r, inum);
  }

  lemma AddrRoot(r: Fs, inum: nat)
    requires inum < |r.inodes|
    ensures Addr(r.inodes[inum], r.disk, NDIRECT) == r.inodes[inum].addrs[NDIRECT]
  {}

  lemma TakesFacts(l: Layout, s: Fs, free: nat, r: Fs, inum: nat, k: nat, j: nat)
    requires Takes(l, s, free, r, inum, k) && j < SLOTS
    ensures ImageOk(l, r, free + 1) && inum < |r.inodes| == |s.inodes|
    ensures l.bmapstart < l.nmeta <= free < l.size == |r.disk|
    ensures Addr(r.inodes[inum], r.disk, j) == if j == k then free else Addr(s.inodes[inum], s.disk, j)
    ensures r.inodes[inum].addrs[NDIRECT] == if k == NDIRECT then free else s.inodes[inum].addrs[NDIRECT]
  {
    hide FsOk, SameBlocks, Addr, BitsBlock;
    ImageFacts(l, r, free + 1);
    FinishedAddr(l, s, free, inum, j);
    FinishedAddr(l, r, free + 1, inum, j);
    FinishedAddr(l, s, free, inum, NDIRECT);
    FinishedAddr(l, r, free + 1, inum, NDIRECT);
    AddrRoot(r, inum);
    AddrRoot(s, inum);
  }

  /** Writing into a file's block keeps the image in order and every block map. */
  lemma PatchedImage(l: Layout, t: Fs, free: nat, inum: nat, bn: nat, x: nat, at: nat, bytes: seq<Byte>)
    requires ImageOk(l, t, free) && inum < |t.inodes| && bn < MAXFILE && at + |bytes| <= BSIZE
    requires x == Addr(t.inodes[inum], t.disk, DataSlot(bn)) != 0
    ensures x < |t.disk| && l.bmapstart < |t.disk|
    ensures Finished(l, PatchBlock(t, x, at, bytes), free) == PatchBlock(Finished(l, t, free), x, at, bytes)
    ensures ImageOk(l, PatchBlock(t, x, at, bytes), free)
    ensures SameMaps(Finished(l, t, free), Finished(l, PatchBlock(t, x, at, bytes), free))
  {
    hide Addr, BitsBlock, Bits, Patch, ZeroBlock, Marked;
    ImageFacts(l, t, free);
    FinishedAddr(l, t, free, inum, DataSlot(bn));
    var f := Finished(l, t, free);
    PatchOk(l, f, inum, bn, x, at, bytes);
    assert Finished(l, PatchBlock(t, x, at, bytes), free).disk == PatchBlock(f, x, at, bytes).disk;
    var g := PatchBlock(f, x, at, bytes);
    forall i, k | 0 <= i < |f.inodes| && 0 <= k < SLOTS
      ensures Addr(g.inodes[i], g.disk, k) == Addr(f.inodes[i], f.disk, k)
    {
      SameAddrs(l, f, g.disk, {}, i, k);
    }
  }

  ghost predicate SameMaps(f: Fs, g: Fs) {
    f.inodes == g.inodes &&
    forall i, k :: 0 <= i < |f.inodes| && 0 <= k < SLOTS ==>
      Addr(g.inodes[i], g.disk, k) == Addr(f.inodes[i], f.disk, k)
  }

  /** iappend's loop between finding the block and writing it. */
  ghost predicate Placed(l: Layout, p0: Fs, free0: nat, t: Fs, free: nat, inum: nat, off0: nat, src: seq<Byte>,
      tot: nat, changed: set<nat>) {
    && ImageOk(l, t, free) && tot < |src| && (off0 + tot) / BSIZE < MAXFILE
    && Written(l, p0, Finished(l, t, free), inum, off0, src, tot, changed) && OtherMaps(p0, Finished(l, t, free), inum)
    && p0.inodes[inum].size == off0 && Exact(Finished(l, t, free), inum, (off0 + tot) / BSIZE + 1)
    && free == free0 + Uses((off0 + tot) / BSIZE + 1) - Uses(BlocksFor(off0))
    && free0 + Uses(BlocksFor(off0 + |src|)) - Uses(BlocksFor(off0)) <= Min(l.size, BPB)
  }

  lemma AppendPlaced(l: Layout, p0: Fs, free0: nat, s: Fs, free: nat, t: Fs, free': nat, inum: nat, off0: nat,
      src: seq<Byte>, tot: nat, changed: set<nat>)
    requires Appending(l, p0, free0, s, free, inum, off0, src, tot, changed) && tot < |src|
    requires (off0 + tot) / BSIZE < MAXFILE
    requires Enlarged(l, s, free, t, free', inum, BlocksFor(off0 + tot), (off0 + tot) / BSIZE + 1)
    ensures Placed(l, p0, free0, t, free', inum, off0, src, tot, changed)
  {
    hide Addr, BitsBlock, FsOk, WrittenBytes, SameBlocks, Packed, BlocksFor, Exact;
    ImageFacts(l, s, free);
    ImageFacts(l, t, free');
    WrittenMapped(l, p0, Finished(l, s, free), Finished(l, t, free'), inum, off0, src, tot, changed);
  }

  lemma AppendChunk(l: Layout, p0: Fs, free0: nat, t: Fs, free: nat, inum: nat, off0: nat, src: seq<Byte>, tot: nat,
      changed: set<nat>, x: nat, n1: nat)
    requires Placed(l, p0, free0, t, free, inum, off0, src, tot, changed) && inum < |t.inodes|
    requires x == Addr(t.inodes[inum], t.disk, DataSlot((off0 + tot) / BSIZE))
    requires n1 == Chunk(off0 + tot, |src| - tot)
    ensures x < |t.disk|
    ensures
      var r := PatchBlock(t, x, (off0 + tot) % BSIZE, src[tot..tot + n1]);
      ImageOk(l, r, free) && Appending(l, p0, free0, r, free, inum, off0, src, tot + n1, changed + {x})
  {
    hide Addr, BitsBlock, FsOk, Patch, ZeroBlock, WrittenBytes, SameBlocks, Packed, Chunk, BlocksFor, Uses;
    var off := off0 + tot;
    ImageFacts(l, t, free);
    FinishedAddr(l, t, free, inum, DataSlot(off / BSIZE));
    WrittenChunk(l, p0, Finished(l, t, free), inum, off0, src, tot, n1, x, changed);
    PatchedImage(l, t, free, inum, off / BSIZE, x, off % BSIZE, src[tot..tot + n1]);
    ChunkBlocks(off, |src| - tot);
  }

  lemma ChunkBlocks(off: nat, left: nat)
    requires left > 0
    ensures BlocksFor(off + Chunk(off, left)) == off / BSIZE + 1
    ensures Chunk(off, left) == Min(left, (off / BSIZE + 1) * BSIZE - off)
    ensures off - off / BSIZE * BSIZE == off % BSIZE
  {}

  /** What iappend has done when it sets the size. */
  ghost predicate Appended(l: Layout, p0: Fs, free0: nat, s: Fs, free: nat, inum: nat, src: seq<Byte>, size: nat) {
    && inum < |p0.inodes| && inum < |s.inodes| && ImageOk(l, Resized(s, inum, size), free)
    && size <= MAXFILE * BSIZE && p0.inodes[inum].size <= MAXFILE * BSIZE
    && free == free0 + Uses(BlocksFor(size)) - Uses(BlocksFor(p0.inodes[inum].size))
    && var r := Finished(l, Resized(s, inum, size), free);
       && Sized(r) && r.inodes == p0.inodes[inum := p0.inodes[inum].(addrs := s.inodes[inum].addrs, size := size)]
       && Contents(r, inum) == Contents(p0, inum) + src && OthersKept(p0, r, inum)
  }

  lemma AppendEnd(l: Layout, p0: Fs, free0: nat, s: Fs, free: nat, inum: nat, src: seq<Byte>, changed: set<nat>)
    requires inum < |p0.inodes| && Sized(p0)
    requires Appending(l, p0, free0, s, free, inum, p0.inodes[inum].size, src, |src|, changed)
    ensures Appended(l, p0, free0, s, free, inum, src, p0.inodes[inum].size + |src|)
  {
    hide Addr, BitsBlock, FsOk, Patch, ZeroBlock, WrittenBytes, SameBlocks, Contents, OthersKept, Sized, Exact;
    hide OtherMaps, BlocksFor, Uses;
    var size := p0.inodes[inum].size + |src|;
    var f := Finished(l, s, free);
    WrittenEnd(l, p0, f, inum, p0.inodes[inum].size, src, |src|, |src|, changed);
    var r := Finished(l, Resized(s, inum, size), free);
    assert r == Resized(f, inum, size);
    AfterWriteAt(Contents(p0, inum), p0.inodes[inum].size, src, |src|, |src|);
    AppendSized(l, p0, f, inum, src, changed);
  }

  lemma AppendSized(l: Layout, p0: Fs, f: Fs, inum: nat, src: seq<Byte>, changed: set<nat>)
    requires inum < |p0.inodes| && Sized(p0) && Written(l, p0, f, inum, p0.inodes[inum].size, src, |src|, changed)
    requires OtherMaps(p0, f, inum) && Exact(f, inum, BlocksFor(p0.inodes[inum].size + |src|))
    requires OthersKept(p0, Resized(f, inum, p0.inodes[inum].size + |src|), inum)
    requires p0.inodes[inum].size + |src| <= MAXFILE * BSIZE
    ensures Sized(Resized(f, inum, p0.inodes[inum].size + |src|))
  {
    hide Addr, FsOk, WrittenBytes, SameBlocks, Contents, BlocksFor, ZeroTail, FileKept, BytesKept;
    var size := p0.inodes[inum].size + |src|;
    var r := Resized(f, inum, size);
    ResizedMaps(f, inum, size);
    AppendedTail(l, p0, f, inum, src, changed);
    forall i | 0 <= i < |r.inodes|
      ensures r.inodes[i].size <= MAXFILE * BSIZE && Exact(r, i, BlocksFor(r.inodes[i].size)) && ZeroTail(r, i)
    {
      if i != inum {
        assert r.inodes[i] == p0.inodes[i] && FileKept(p0, r, i);
        KeptTail(p0, r, i);
      }
    }
  }

  lemma ResizedMaps(f: Fs, inum: nat, size: nat)
    requires inum < |f.inodes|
    ensures
      var r := Resized(f, inum, size);
      forall i, k :: 0 <= i < |f.inodes| && 0 <= k < SLOTS ==>
        Addr(r.inodes[i], r.disk, k) == Addr(f.inodes[i], f.disk, k)
  {}

  function NoInode(): (r: Inode) {
    Inode(0, 0, 0, 0, 0, NoAddrs())
  }

  lemma EmptySized(f: Fs)
    requires forall i :: 0 <= i < |f.inodes| ==> f.inodes[i] == NoInode()
    ensures Sized(f)
  {
    assert BlocksFor(0) == 0;
  }

  /** An inode that was not handed out has no blocks, so it can be replaced. */
  lemma FreshInode(l: Layout, s: Fs, free: nat, inum: nat, ip: Inode)
    requires ImageOk(l, s, free) && Sized(Finished(l, s, free)) && inum < |s.inodes|
    requires s.inodes[inum].size == 0 == ip.size && ip.addrs == NoAddrs()
    ensures
      var r := s.(inodes := s.inodes[inum := ip]);
      && ImageOk(l, r, free) && Sized(Finished(l, r, free)) && Contents(Finished(l, r, free), inum) == []
      && OthersKept(Finished(l, s, free), Finished(l, r, free), inum)
  {
    hide Addr, FsOk, BitsBlock, ZeroBlock, NoAddrs, Contents, NoHoles;
    ImageFacts(l, s, free);
    var r := s.(inodes := s.inodes[inum := ip]);
    var f, g := Finished(l, s, free), Finished(l, r, free);
    forall i, k | 0 <= i < |f.inodes| && 0 <= k < SLOTS
      ensures Addr(g.inodes[i], g.disk, k) == Addr(f.inodes[i], f.disk, k)
    {
      if i == inum {
        NoBlocks(f, g, inum, k);
      }
    }
    SameMapsOk(l, f, g);
    forall i | 0 <= i < |f.inodes| && i != inum && f.inodes[i].size <= MAXFILE * BSIZE
      ensures FileKept(f, g, i)
    {
      SameFile(l, f, g, i);
    }
  }

  lemma NoBlocks(f: Fs, g: Fs, inum: nat, k: nat)
    requires inum < |f.inodes| && inum < |g.inodes| && Exact(f, inum, 0) && g.inodes[inum].addrs == NoAddrs()
    requires k < SLOTS
    ensures Addr(g.inodes[inum], g.disk, k) == 0 == Addr(f.inodes[inum], f.disk, k)
  {
    if k < NDIRECT {
      assert DataSlot(k) == k;
    } else if k > NDIRECT {
      assert DataSlot(k - 1) == k;
    }
  }

  lemma SameMapsOk(l: Layout, f: Fs, g: Fs)
    requires FsOk(l, f, {}) && g.disk == f.disk && g.owner == f.owner && |g.inodes| == |f.inodes|
    requires g.others == f.others
    requires forall i, k :: 0 <= i < |f.inodes| && 0 <= k < SLOTS ==>
      Addr(g.inodes[i], g.disk, k) == Addr(f.inodes[i], f.disk, k)
    ensures FsOk(l, g, {}) && SameData(l, f.disk, g.disk)
  {
    hide Addr, Bits;
  }

  /** Blocks that the first `n` files take. */
  function Total(files: seq<File>, n: nat): (r: nat)
    requires n <= |files|
  {
    if n == 0 then 0 else Total(files, n - 1) + Uses(BlocksFor(|files[n - 1].data|))
  }

  lemma {:induction false} TotalGrows(files: seq<File>, n: nat, m: nat)
    requires n <= m <= |files|
    ensures Total(files, n) <= Total(files, m)
    decreases m - n
  {
    if n < m {
      TotalGrows(files, n, m - 1);
    }
  }

  /** The root directory with the first `n` files in it; `.` and `..` both name it. */
  function Listing(files: seq<File>, n: nat): (r: seq<Byte>)
    requires n <= |files| && n + 2 <= 0x1_0000
    ensures |r| == (n + 2) * DIRENT
  {
    if n == 0 then Entry(ROOTINO, NameOf([DOT])) + Entry(ROOTINO, NameOf([DOT, DOT]))
    else Listing(files, n - 1) + Entry(n + 1, NameOf(files[n - 1].name))
  }

  const ROOTINO := 1
  const DOT: Byte := 46

  /** What mkfs needs of its arguments: room for the files. */
  ghost predicate Fits(l: Layout, files: seq<File>) {
    && l.Ok() && |files| + 2 <= l.ninodes <= 0x1_0000 && (|files| + 2) * DIRENT <= MAXFILE * BSIZE
    && (forall i :: 0 <= i < |files| ==> |files[i].data| <= MAXFILE * BSIZE)
    && l.nmeta + Uses(BlocksFor((|files| + 2) * DIRENT)) + Total(files, |files|) <= Min(l.size, BPB - 1)
  }

  lemma FitsPart(l: Layout, files: seq<File>, n: nat)
    requires Fits(l, files) && n <= |files|
    ensures l.nmeta + Uses(BlocksFor((n + 2) * DIRENT)) + Total(files, n) <= Min(l.size, BPB - 1)
    ensures l.nmeta + Uses(BlocksFor(DIRENT)) <= Min(l.size, BPB - 1) && Uses(BlocksFor(0)) == 0
  {
    hide BlocksFor;
    TotalGrows(files, n, |files|);
    BlocksGrow((n + 2) * DIRENT, (|files| + 2) * DIRENT);
    BlocksGrow(DIRENT, (|files| + 2) * DIRENT);
  }

  /** The image with the first `n` files in it. */
  /** An inode of this type with one link and no device. */
  predicate Fresh(ip: Inode, typ: nat) {
    ip.typ == typ && ip.nlink == 1 && ip.major == 0 && ip.minor == 0
  }

  ghost predicate Loaded(s: Fs, files: seq<File>, n: nat) {
    && n <= |files| && n + 2 <= |s.inodes| <= 0x1_0000
    && s.inodes[ROOTINO].size == (n + 2) * DIRENT <= MAXFILE * BSIZE && Contents(s, ROOTINO) == Listing(files, n)
    && Fresh(s.inodes[ROOTINO], T_DIR)
    && forall j :: 0 <= j < n ==>
         && s.inodes[j + 2].size == |files[j].data| <= MAXFILE * BSIZE && Contents(s, j + 2) == files[j].data
         && Fresh(s.inodes[j + 2], T_FILE)
  }

  lemma LoadedNext(s: Fs, t: Fs, files: seq<File>, n: nat)
    requires Loaded(s, files, n) && n < |files| && n + 3 <= |s.inodes| == |t.inodes|
    requires t.inodes[ROOTINO].size == s.inodes[ROOTINO].size + DIRENT <= MAXFILE * BSIZE
    requires t.inodes[n + 2].size == |files[n].data| <= MAXFILE * BSIZE && Contents(t, n + 2) == files[n].data
    requires Contents(t, ROOTINO) == Contents(s, ROOTINO) + Entry(n + 2, NameOf(files[n].name))
    requires Fresh(t.inodes[ROOTINO], T_DIR) && Fresh(t.inodes[n + 2], T_FILE)
    requires forall i :: 2 <= i < n + 2 ==>
      t.inodes[i] == s.inodes[i] && t.inodes[i].size <= MAXFILE * BSIZE && Contents(t, i) == Contents(s, i)
    ensures Loaded(t, files, n + 1)
  {
    hide Contents, NameOf, Entry;
    forall j | 0 <= j < n + 1
      ensures t.inodes[j + 2].size == |files[j].data| <= MAXFILE * BSIZE && Contents(t, j + 2) == files[j].data
    {
      assert j < n ==> t.inodes[j + 2] == s.inodes[j + 2];
    }
  }

  lemma LoadedFacts(s: Fs, files: seq<File>, n: nat)
    requires Loaded(s, files, n)
    ensures ROOTINO < |s.inodes| && s.inodes[ROOTINO].size == (n + 2) * DIRENT && Fresh(s.inodes[ROOTINO], T_DIR)
    ensures forall i :: 2 <= i < n + 2 ==> s.inodes[i].size <= MAXFILE * BSIZE
  {
    hide Contents, NameOf, Entry;
    forall i | 2 <= i < n + 2
      ensures s.inodes[i].size <= MAXFILE * BSIZE
    {
      assert s.inodes[i - 2 + 2].size == |files[i - 2].data|;
    }
  }

  /** File `i` is in the image. */
  ghost predicate Stored(t: Fs, files: seq<File>, i: nat)
    requires i < |files|
  {
    && i + 2 < |t.inodes| && t.inodes[i + 2].size <= MAXFILE * BSIZE && Fresh(t.inodes[i + 2], T_FILE)
    && NoHoles(t, i + 2, t.inodes[i + 2].size) && Contents(t, i + 2) == files[i].data
    && Exact(t, i + 2, BlocksFor(|files[i].data|))
  }

  lemma LoadedKept(s: Fs, t: Fs, files: seq<File>)
    requires Loaded(s, files, |files|) && OthersKept(s, t, ROOTINO) && |s.inodes| == |t.inodes|
    requires t.inodes == s.inodes[ROOTINO := s.inodes[ROOTINO].(size := t.inodes[ROOTINO].size)]
    requires forall i :: 0 <= i < |s.inodes| ==>
      NoHoles(s, i, s.inodes[i].size) && Exact(t, i, BlocksFor(s.inodes[i].size))
    ensures Contents(s, ROOTINO) == Listing(files, |files|) && Fresh(t.inodes[ROOTINO], T_DIR)
    ensures forall i :: 0 <= i < |files| ==> Stored(t, files, i)
  {
    hide Contents, NoHoles, Listing, BytesKept, Exact, BlocksFor;
    forall i | 0 <= i < |files|
      ensures Stored(t, files, i)
    {
      assert s.inodes[i + 2].size == |files[i].data| && NoHoles(s, i + 2, s.inodes[i + 2].size);
      assert t.inodes[i + 2] == s.inodes[i + 2];
      assert FileKept(s, t, i + 2);
    }
  }

  /** The beginning of main: an empty root directory. */
  method MakeRoot(l: Layout, ghost files: seq<File>) returns (img: Image)
    requires Fits(l, files)
    ensures fresh(img) && img.l == l && img.Valid() && |img.inodes| == l.ninodes && img.freeinode == 2
    ensures Loaded(img.P(), files, 0)
    ensures img.freeblock == l.nmeta + Uses(BlocksFor(2 * DIRENT))
  {
    hide FsOk, Addr, Exact, BitsBlock, Packed, BlocksFor, NoHoles, Uses, Sized, NameOf, OthersKept;
    FitsPart(l, files, 0);
    img := new Image(l);
    var root := img.Ialloc(T_DIR);
    img.Iappend(root, Entry(root, NameOf([DOT])));
    img.Iappend(root, Entry(root, NameOf([DOT, DOT])));
  }

  lemma FullBlocks(n: nat)
    ensures n * DIRENT % BSIZE == 0 <==> n % 64 == 0
  {
    var q, r := n / 64, n % 64;
    assert n * 16 == 1024 * q + 16 * r && 16 * r < 1024;
    assert (1024 * q + 16 * r) % 1024 == 16 * r;
  }

  /** The root directory holds the listing, and zeros up to its size. If the names are
      good it is a directory that binds exactly them. */
  ghost predicate RootHolds(s: Fs, files: seq<File>) {
    && ROOTINO < |s.inodes| && s.inodes[ROOTINO].size <= MAXFILE * BSIZE && |files| + 2 <= 0x1_0000
    && (var c := Contents(s, ROOTINO);
        && (|files| + 2) * DIRENT <= |c| && c == Listing(files, |files|) + Zeros(|c| - (|files| + 2) * DIRENT)
        && (GoodNames(files) ==> DirOk(c) && forall k :: Lookup(c, k) == Bound(files, |files|, k)))
  }

  /** main: a file system with the given files in its root directory. The root has
      a hole just when its entries fill blocks exactly, as 62 files do. */
  method MakeImage(l: Layout, files: seq<File>) returns (img: Image)
    requires Fits(l, files)
    ensures fresh(img) && FsOk(img.l, img.S(), {}) && img.l == l
    ensures forall i :: 0 <= i < |files| ==> Stored(img.S(), files, i)
    ensures ROOTINO < |img.inodes| && img.inodes[ROOTINO].size == RoundedSize((|files| + 2) * DIRENT)
    ensures Fresh(img.inodes[ROOTINO], T_DIR)
    ensures img.inodes[ROOTINO].size <= MAXFILE * BSIZE ==> RootHolds(img.S(), files)
    ensures NoHoles(img.S(), ROOTINO, img.inodes[ROOTINO].size) <==> (|files| + 2) % 64 != 0
    ensures Exact(img.S(), ROOTINO, BlocksFor((|files| + 2) * DIRENT))
    ensures img.freeblock == l.nmeta + Uses(BlocksFor((|files| + 2) * DIRENT)) + Total(files, |files|)
    ensures forall x :: x in img.owner <==> l.nmeta <= x < img.freeblock
  {
    hide FsOk, Addr, Exact, BitsBlock, Packed, BlocksFor, NoHoles, Uses, Sized, NameOf, FileByte, Entry, Contents;
    hide Loaded, OthersKept, RootHolds, Stored, Zeros, RoundedSize;
    img := MakeFiles(l, files);
    ghost var s := img.P();
    SizedNoHoles(s);
    LoadedFacts(s, files, |files|);
    img.Finish(ROOTINO);
    LoadedKept(s, img.S(), files);
    FullBlocks(|files| + 2);
    RoundedUp((|files| + 2) * DIRENT);
    if img.inodes[ROOTINO].size <= MAXFILE * BSIZE {
      RootIsDirectory(img.S(), files);
    }
  }

  /** main up to the files, with the root's size not yet rounded. */
  method MakeFiles(l: Layout, files: seq<File>) returns (img: Image)
    requires Fits(l, files)
    ensures fresh(img) && img.l == l && img.Valid() && |img.inodes| == l.ninodes && img.freeblock < BPB
    ensures Loaded(img.P(), files, |files|)
    ensures img.freeblock == l.nmeta + Uses(BlocksFor((|files| + 2) * DIRENT)) + Total(files, |files|)
  {
    hide FsOk, Addr, Exact, BitsBlock, Packed, BlocksFor, NoHoles, Uses, Sized, NameOf, FileByte, Entry, Contents;
    hide Loaded, OthersKept;
    img := MakeRoot(l, files);
    for i := 0 to |files|
      invariant img.Valid() && img.l == l && fresh(img) && |img.inodes| == l.ninodes && img.freeinode == i + 2
      invariant Loaded(img.P(), files, i)
      invariant img.freeblock == l.nmeta + Uses(BlocksFor((i + 2) * DIRENT)) + Total(files, i)
    {
      FitsPart(l, files, i + 1);
      ghost var s := img.P();
      LoadedFacts(s, files, i);
      var inum := img.AddFile(ROOTINO, files[i]);
      LoadedNext(s, img.P(), files, i);
    }
    FitsPart(l, files, |files|);
  }

  lemma RootIsDirectory(s: Fs, files: seq<File>)
    requires ROOTINO < |s.inodes| && s.inodes[ROOTINO].size <= MAXFILE * BSIZE && |files| + 2 <= 0x1_0000
    requires (|files| + 2) * DIRENT <= s.inodes[ROOTINO].size && s.inodes[ROOTINO].size % BSIZE == 0
    requires Contents(s, ROOTINO) == Listing(files, |files|) + Zeros(s.inodes[ROOTINO].size - (|files| + 2) * DIRENT)
    ensures RootHolds(s, files)
  {
    hide Contents, Listing, DirOk, Lookup, GoodNames, Bound;
    var c, n := Listing(files, |files|), s.inodes[ROOTINO].size - (|files| + 2) * DIRENT;
    if GoodNames(files) {
      ListingBinds(files, |files|, []);
      assert n % DIRENT == 0;
      ZerosAreUnused(c, n);
      forall k
        ensures Lookup(c + Zeros(n), k) == Bound(files, |files|, k)
      {
        RootLookup(files, n, k);
      }
    }
  }

  lemma RootLookup(files: seq<File>, n: nat, k: seq<Byte>)
    requires GoodNames(files) && |files| + 2 <= 0x1_0000 && n % DIRENT == 0
    ensures Lookup(Listing(files, |files|) + Zeros(n), k) == Bound(files, |files|, k)
  {
    hide Listing, Lookup, GoodNames, Bound, Find;
    ListingBinds(files, |files|, k);
    ZerosBindNothing(Listing(files, |files|), n, k, 0);
    LookupIs(Listing(files, |files|), n, k);
  }

  lemma LookupIs(c: seq<Byte>, n: nat, k: seq<Byte>)
    ensures Lookup(c, k) == Find(c, k, 0) && Lookup(c + Zeros(n), k) == Find(c + Zeros(n), k, 0)
  {}

  /** Entry `i` of a directory with zeros behind it. */
  lemma EntryOfZeros(c: seq<Byte>, n: nat, i: nat)
    requires |c| % DIRENT == 0 && n % DIRENT == 0 && i < Count(c + Zeros(n))
    ensures
      var d := c + Zeros(n);
      if i < Count(c) then Inum(d, i) == Inum(c, i) && NameAt(d, i) == NameAt(c, i) else Inum(d, i) == 0
  {
    hide Key;
    var d := c + Zeros(n);
    if i < Count(c) {
      assert d[DIRENT * i + 2..DIRENT * i + DIRENT] == c[DIRENT * i + 2..DIRENT * i + DIRENT];
    } else {
      assert DIRENT * i >= |c|;
    }
  }

  lemma ZerosAreUnused(c: seq<Byte>, n: nat)
    requires DirOk(c) && n % DIRENT == 0
    ensures DirOk(c + Zeros(n))
  {
    hide Inum, NameAt;
    var d := c + Zeros(n);
    forall i, j | 0 <= i < j < Count(d) && Inum(d, i) != 0 && Inum(d, j) != 0
      ensures NameAt(d, i) != NameAt(d, j)
    {
      EntryOfZeros(c, n, i);
      EntryOfZeros(c, n, j);
    }
  }

  lemma {:induction false} ZerosBindNothing(c: seq<Byte>, n: nat, k: seq<Byte>, i: nat)
    requires |c| % DIRENT == 0 && n % DIRENT == 0
    ensures Find(c + Zeros(n), k, i) == Find(c, k, i)
    decreases |c| + n - i
  {
    hide Inum, NameAt;
    if i < Count(c + Zeros(n)) {
      EntryOfZeros(c, n, i);
      ZerosBindNothing(c, n, k, i + 1);
    }
  }

  /** The inode that the root directory binds to name `k` after `n` files. */
  function Bound(files: seq<File>, n: nat, k: seq<Byte>): (inum: nat)
    requires n <= |files|
  {
    if n == 0 then (if k == [DOT] || k == [DOT, DOT] then ROOTINO else 0)
    else if Key(files[n - 1].name) == k then n + 1
    else Bound(files, n - 1, k)
  }

  /** File names are strings, and new in their first DIRSIZ bytes. */
  ghost predicate GoodNames(files: seq<File>) {
    && (forall i, j :: 0 <= i < |files| && 0 <= j < |files[i].name| ==> files[i].name[j] != 0)
    && (forall i :: 0 <= i < |files| ==> Bound(files, i, Key(files[i].name)) == 0)
  }

  /** Putting one more entry at the end. */
  lemma ListingNext(c: seq<Byte>, inum: nat, name: seq<Byte>, k: seq<Byte>)
    requires DirOk(c) && 0 < inum < 0x1_0000 && (forall j :: 0 <= j < |name| ==> name[j] != 0)
    requires Lookup(c, Key(name)) == 0
    ensures
      var r := c + Entry(inum, NameOf(name));
      DirOk(r) && Lookup(r, k) == if k == Key(name) then inum else Lookup(c, k)
  {
    hide Inum, NameAt, Entry, Lookup, DirOk;
    PrefixOfClean(name, DIRSIZ);
    assert NameOf(name) == NameOf(Key(name));
    assert |c| % DIRENT == 0 by { DirSized(c); }
    var r := c + Entry(inum, NameOf(name));
    assert r == WithEntry(c, Count(c), Entry(inum, NameOf(Key(name))));
    WithEntryLinked(c, Count(c), inum, Key(name));
    LinkAdds(c, r, Count(c), inum, Key(name), k);
  }

  lemma DirSized(c: seq<Byte>)
    requires DirOk(c)
    ensures |c| % DIRENT == 0
  {}

  /** The root directory is the finite map from the names to the inodes. */
  lemma {:induction false} ListingBinds(files: seq<File>, n: nat, k: seq<Byte>)
    requires GoodNames(files) && n <= |files| && n + 2 <= 0x1_0000
    ensures DirOk(Listing(files, n)) && Lookup(Listing(files, n), k) == Bound(files, n, k)
  {
    hide DirOk, Lookup, NameOf, Entry;
    if n == 0 {
      ListingStarts(k);
    } else {
      var name := files[n - 1].name;
      ListingBinds(files, n - 1, k);
      ListingBinds(files, n - 1, Key(name));
      ListingNext(Listing(files, n - 1), n + 1, name, k);
    }
  }

  lemma ListingStarts(k: seq<Byte>)
    ensures
      var c := Entry(ROOTINO, NameOf([DOT])) + Entry(ROOTINO, NameOf([DOT, DOT]));
      DirOk(c) && Lookup(c, k) == if k == [DOT] || k == [DOT, DOT] then ROOTINO else 0
  {
    hide NameOf, Entry;
    var e := Entry(ROOTINO, NameOf([DOT]));
    assert DirOk([]) && Lookup([], k) == 0 && Lookup([], [DOT]) == 0;
    PrefixOfClean([DOT], DIRSIZ);
    PrefixOfClean([DOT, DOT], DIRSIZ);
    assert [] + e == e;
    ListingNext([], ROOTINO, [DOT], k);
    ListingNext([], ROOTINO, [DOT], [DOT, DOT]);
    ListingNext(e, ROOTINO, [DOT, DOT], k);
  }

  lemma {:induction false} BoundFile(files: seq<File>, n: nat, i: nat)
    requires GoodNames(files) && i < n <= |files|
    ensures Bound(files, n, Key(files[i].name)) == i + 2
    decreases n
  {
    hide Key;
    if i < n - 1 {
      BoundFile(files, n - 1, i);
      assert Bound(files, n - 1, Key(files[n - 1].name)) == 0;
    }
  }

  /** Looking up the name of each file in the finished root gives its inode. */
  lemma EveryFileIsFound(s: Fs, files: seq<File>, i: nat)
    requires RootHolds(s, files) && GoodNames(files) && i < |files|
    ensures Lookup(Contents(s, ROOTINO), Key(files[i].name)) == i + 2
  {
    hide GoodNames, Bound, Listing, Find, Contents;
    BoundFile(files, |files|, i);
  }

  /** The layout that mkfs computes from FSSIZE, NINODES and LOGSIZE. */
  const XV6 := Layout(2000, 200, 32, 45, 46)

  /** Empty files with different names of two letters. */
  function EmptyFiles(n: nat): (r: seq<File>)
    requires n <= 64
  {
    seq(n, i requires 0 <= i < n => File([65 + i / 8, 65 + i % 8], []))
  }

  lemma {:induction false} NotBound(files: seq<File>, n: nat, k: seq<Byte>)
    requires n <= |files| && k != [DOT] && k != [DOT, DOT] && forall i :: 0 <= i < n ==> Key(files[i].name) != k
    ensures Bound(files, n, k) == 0
  {
    if n > 0 {
      NotBound(files, n - 1, k);
    }
  }

  /** A name of one character is none of theirs. */
  lemma OtherName(n: nat, name: seq<Byte>)
    requires n <= 64 && |name| == 1 && name[0] != 0 && name[0] != DOT
    ensures Bound(EmptyFiles(n), n, Key(name)) == 0
  {
    hide Bound;
    var files := EmptyFiles(n);
    PrefixOfClean(name, DIRSIZ);
    forall j | 0 <= j < n
      ensures Key(files[j].name) != Key(name)
    {
      PrefixOfClean(files[j].name, DIRSIZ);
    }
    NotBound(files, n, Key(name));
  }

  lemma EmptyFilesNamed(n: nat)
    requires n <= 64
    ensures GoodNames(EmptyFiles(n))
  {
    hide Bound;
    var files := EmptyFiles(n);
    forall i | 0 <= i < n
      ensures Bound(files, i, Key(files[i].name)) == 0
    {
      forall j | 0 <= j < n
        ensures Key(files[j].name) == [65 + j / 8, 65 + j % 8]
      {
        PrefixOfClean(files[j].name, DIRSIZ);
      }
      NotBound(files, i, Key(files[i].name));
    }
  }

  /** The hole can happen: 62 empty files fit in the image and fill the root
      directory's block exactly. */
  lemma HoleIsReachable()
    ensures Fits(XV6, EmptyFiles(62)) && GoodNames(EmptyFiles(62)) && (|EmptyFiles(62)| + 2) % 64 == 0
  {
    hide GoodNames;
    var files := EmptyFiles(62);
    NothingUsed(files, 62);
    EmptyFilesNamed(62);
    assert Uses(BlocksFor((62 + 2) * DIRENT)) == 1;
  }

  lemma {:induction false} NothingUsed(files: seq<File>, n: nat)
    requires n <= |files| && forall i :: 0 <= i < |files| ==> files[i].data == []
    ensures Total(files, n) == 0
  {
    if n > 0 {
      NothingUsed(files, n - 1);
    }
  }

  lemma AttachedFinished(l: Layout, s: Fs, used: nat, inum: nat, k: nat, b: Word32)
    requires l.bmapstart < |s.disk| && inum < |s.inodes| && k < SLOTS
    requires k > NDIRECT ==> l.bmapstart < s.inodes[inum].addrs[NDIRECT] < |s.disk|
    ensures Attached(Finished(l, s, used), inum, k, b) == Finished(l, Attached(s, inum, k, b), used)
  {
    hide BitsBlock, SetWord;
  }
}
