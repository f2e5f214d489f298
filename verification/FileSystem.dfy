/** kernel/fs.c: block allocation, block maps, reading and writing inodes. The
    blocks are seen through the buffer cache and the log, that is, with their
    latest contents; `logged` collects what the current operation passed to
    log_write. */
module FileSystem {
  import opened Blocks
  import opened Bitmap
  import opened FsSpec
  import opened FsLog
  import opened DirSpec
  import LogSpec

  class FileSys {
    const l: Layout
    var disk: seq<Block>
    var inodes: seq<Inode>     // in-memory copies
    var dinodes: seq<Inode>    // what the inode blocks hold
    ghost var owner: map<nat, Slot>
    ghost var logged: set<nat>
    ghost var others: set<nat> // blocks on their way into an inode by other processes

    ghost function S(): (s: Fs)
      reads this
    {
      Fs(disk, inodes, owner, others)
    }

    ghost predicate Valid()
      reads this
    {
      FsOk(l, S(), {}) && |dinodes| == |inodes|
    }

    /** The inode on disk is the one in memory. */
    ghost predicate Synced(inum: nat)
      reads this
    {
      inum < |inodes| == |dinodes| && dinodes[inum] == inodes[inum]
    }

    /** A file system just mounted, with every inode read in and no operation begun. */
    constructor (l: Layout, disk: seq<Block>, inodes: seq<Inode>, ghost owner: map<nat, Slot>)
      ensures this.l == l && S() == Fs(disk, inodes, owner, {}) && dinodes == inodes && logged == {}
    {
      this.l, this.disk, this.inodes, this.dinodes := l, disk, inodes, inodes;
      this.owner, this.logged, this.others := owner, {}, {};
    }

    /** What balloc does with the block it finds: mark it, log_write the bitmap
        block, zero the block, log_write it. */
    method Claim(b: nat)
      requires FsOk(l, S(), {}) && b < l.size && !Marked(l, disk, b)
      modifies this`disk, this`logged
      ensures l.nmeta <= b < l.size && b !in owner
      ensures FsOk(l, S(), {b}) && disk[b] == ZeroBlock()
      ensures logged == old(logged) + {l.Bblock(b), b} && Covered(old(disk), disk, logged)
      ensures forall x :: l.nmeta <= x < l.size && x != b ==> disk[x] == old(disk)[x]
    {
      hide Held, Rooted, Bits, SetBit, Bit, ZeroBlock;
      AllocatedOk(l, S(), {}, b);
      assert {} + {b} == {b};
      disk := disk[l.Bblock(b) := SetBit(disk[l.Bblock(b)], b % BPB, true)];
      logged := logged + {l.Bblock(b)};
      disk := disk[b := ZeroBlock()];
      logged := logged + {b};
    }

    /** balloc: the first unmarked block, marked and zeroed; 0 when there is none. */
    method Balloc() returns (b: nat)
      requires FsOk(l, S(), {})
      modifies this`disk, this`logged
      ensures forall x :: 0 <= x < (if b == 0 then l.size else b) ==> Marked(l, old(disk), x)
      ensures b == 0 ==> disk == old(disk) && logged == old(logged)
      ensures b != 0 ==>
        && l.nmeta <= b < l.size && b !in owner && !Marked(l, old(disk), b)
        && FsOk(l, S(), {b}) && disk[b] == ZeroBlock()
        && logged == old(logged) + {l.Bblock(b), b} && Covered(old(disk), disk, logged)
        && forall x :: l.nmeta <= x < l.size && x != b ==> disk[x] == old(disk)[x]
    {
      hide Held, Rooted, Bits, SetBit, Bit, ZeroBlock;
      var base := 0;
      while base < l.size
        invariant base % BPB == 0 && disk == old(disk) && logged == old(logged)
        invariant forall x :: 0 <= x < base && x < l.size ==> Marked(l, disk, x)
      {
        BitmapIsMeta(l, base);
        BitmapPosition(l, base, 0);
        var bp := disk[l.Bblock(base)];
        var bi := 0;
        while bi < BPB && base + bi < l.size
          invariant 0 <= bi <= BPB && disk == old(disk) && logged == old(logged)
          invariant forall x :: 0 <= x < base + bi && x < l.size ==> Marked(l, disk, x)
        {
          BitmapPosition(l, base, bi);
          if !Bit(bp, bi) {
            Claim(base + bi);
            return base + bi;
          }
          bi := bi + 1;
        }
        base := base + BPB;
      }
      return 0;
    }

    /** bfree of a block that no inode owns any more; `s` is the file system
        without the slot that still names it. The panic "freeing free block" is
        out of reach because such a block is marked. */
    method Bfree(b: nat, ghost s: Fs, ghost loose: set<nat>)
      requires s.disk == disk && FsOk(l, s, loose) && b in loose
      modifies this`disk, this`logged
      ensures FsOk(l, s.(disk := disk), loose - {b}) && SameData(l, old(disk), disk)
      ensures logged == old(logged) + {l.Bblock(b)} && l.IsBitmap(l.Bblock(b)) && Covered(old(disk), disk, logged)
    {
      hide Held, Rooted, Bits, SetBit, Bit;
      FreedOk(l, s, loose, b);
      BitmapIsMeta(l, b);
      var bp := disk[l.Bblock(b)];
      assert Bit(bp, b % BPB);
      disk := disk[l.Bblock(b) := SetBit(bp, b % BPB, false)];
      logged := logged + {l.Bblock(b)};
    }

    /** One of bmap's allocations: balloc a block and store its number in the
        empty slot `k`, with a log_write when the slot is in the indirect block. */
    method FillSlot(inum: nat, k: nat) returns (addr: nat)
      requires FsOk(l, S(), {}) && inum < |inodes| && k < SLOTS && Addr(inodes[inum], disk, k) == 0
      requires k > NDIRECT ==> inodes[inum].addrs[NDIRECT] != 0
      modifies this`disk, this`inodes, this`owner, this`logged
      ensures Grown(l, old(S()), S(), inum) && logged == old(logged) + Alloced(l, old(S()), S(), inum)
      ensures addr == Addr(inodes[inum], disk, k)
      ensures forall j :: 0 <= j < SLOTS && j != k ==>
        Addr(inodes[inum], disk, j) == Addr(old(inodes)[inum], old(disk), j)
      ensures k != NDIRECT ==> inodes[inum].addrs[NDIRECT] == old(inodes)[inum].addrs[NDIRECT]
      ensures k > NDIRECT ==> inodes == old(inodes)
      ensures addr == 0 <==> Full(l, old(disk))
      ensures addr == 0 ==> S() == old(S()) && logged == old(logged)
      ensures addr != 0 ==>
        addr < l.size && disk[addr] == ZeroBlock() && addr !in old(owner) && owner == old(owner)[addr := Slot(inum, k)]
      ensures Covered(old(disk), disk, logged)
    {
      hide Addr, SetWord, Bits, Held, Rooted, Loose, ZeroBlock, Marked;
      ghost var a := S();
      addr := Balloc();
      if addr == 0 {
        GrownNot(l, a, inum);
        AllocedNone(l, a, a, inum);
        return;
      }
      ghost var s := S();
      BitmapIsMeta(l, addr);
      SameSlots(l, a, disk, addr, inum);
      AttachedSame(l, a, s, inum, k, addr);
      if k <= NDIRECT {
        inodes := inodes[inum := inodes[inum].(addrs := inodes[inum].addrs[k := addr])];
      } else {
        var root := inodes[inum].addrs[NDIRECT];
        disk := disk[root := SetWord(disk[root], k - NDIRECT - 1, addr)];
        logged := logged + {root};
      }
      owner := owner[addr := Slot(inum, k)];
      AllocedOne(l, a, S(), inum, k, addr);
    }

    /** bmap in the range of the indirect block, which exists: the block named by its
        entry `j`, allocated if missing. */
    method MapEntry(inum: nat, j: nat) returns (addr: nat)
      requires FsOk(l, S(), {}) && inum < |inodes| && j < NINDIRECT && inodes[inum].addrs[NDIRECT] != 0
      modifies this`disk, this`inodes, this`owner, this`logged
      ensures Grown(l, old(S()), S(), inum) && logged == old(logged) + Alloced(l, old(S()), S(), inum)
      ensures inodes == old(inodes)
      ensures forall x :: x in owner && x !in old(owner) ==> owner[x].k == NDIRECT + 1 + j
      ensures inum < |inodes| && addr == Addr(inodes[inum], disk, NDIRECT + 1 + j) && addr < |disk|
      ensures Addr(old(inodes)[inum], old(disk), NDIRECT + 1 + j) != 0 ==> S() == old(S()) && logged == old(logged)
      ensures Addr(old(inodes)[inum], old(disk), NDIRECT + 1 + j) == 0 ==>
        if Full(l, old(disk)) then addr == 0 && S() == old(S()) && logged == old(logged)
        else addr != 0 && disk[addr] == ZeroBlock() && addr in owner && addr !in old(owner)
      ensures Covered(old(disk), disk, logged)
    {
      hide SetWord, Bits, Held, Rooted, Loose, ZeroBlock, Marked, Grown, Alloced, Full, Addr;
      ghost var a := S();
      GrownNot(l, a, inum);
      AllocedNone(l, a, a, inum);
      assert logged + {} == logged;
      SlotInRange(l, a, {}, inum, NDIRECT + 1 + j);
      IndirectRootOwned(l, a, {}, inum);
      EntryAddr(a, inum, j);
      addr := Word(disk[inodes[inum].addrs[NDIRECT]], j);
      if addr == 0 {
        addr := FillSlot(inum, NDIRECT + 1 + j);
        GrownOk(l, a, S(), inum);
        SlotInRange(l, S(), {}, inum, NDIRECT + 1 + j);
      }
    }

    /** bmap in the range of the indirect block, which is allocated first if missing. */
    method MapIndirect(inum: nat, j: nat) returns (addr: nat)
      requires FsOk(l, S(), {}) && inum < |inodes| && j < NINDIRECT
      modifies this`disk, this`inodes, this`owner, this`logged
      ensures Grown(l, old(S()), S(), inum) && logged == old(logged) + Alloced(l, old(S()), S(), inum)
      ensures forall x :: x in owner && x !in old(owner) ==> owner[x].k == NDIRECT || owner[x].k == NDIRECT + 1 + j
      ensures inum < |inodes| && addr == Addr(inodes[inum], disk, NDIRECT + 1 + j) && addr < |disk|
      ensures Addr(old(inodes)[inum], old(disk), NDIRECT + 1 + j) != 0 ==> S() == old(S()) && logged == old(logged)
      ensures addr == 0 ==> Full(l, disk)
      ensures inodes == old(inodes) <==> old(inodes)[inum].addrs[NDIRECT] != 0 || Full(l, old(disk))
      ensures Addr(old(inodes)[inum], old(disk), NDIRECT + 1 + j) == 0 ==>
        && (if Full(l, old(disk)) then S() == old(S()) && logged == old(logged)
            else exists x :: x in owner && x !in old(owner))
        && (addr != 0 ==> disk[addr] == ZeroBlock())
      ensures Covered(old(disk), disk, logged)
    {
      hide SetWord, Bits, Held, Rooted, Loose, ZeroBlock, Marked, Grown, Alloced, Full, Covered, Addr, OwnersGrow;
      ghost var a := S();
      GrownNot(l, a, inum);
      AllocedNone(l, a, a, inum);
      assert logged + {} == logged;
      CoveredSelf(disk, logged);
      DirectAddr(a, inum, NDIRECT + j);
      if inodes[inum].addrs[NDIRECT] == 0 {
        var root := FillSlot(inum, NDIRECT);
        GrownOk(l, a, S(), inum);
        DirectAddr(S(), inum, NDIRECT + j);
        if root == 0 {
          return 0;
        }
      }
      ghost var b, mid := S(), logged;
      GrownOk(l, a, b, inum);
      addr := MapEntry(inum, j);
      GrownMore(l, a, b, S(), inum);
      GrownOk(l, b, S(), inum);
      GrownOwners(l, a, b, inum);
      AllocedMore(l, a, b, S(), inum);
      GrownKeeps(l, b, S(), inum);
      CoveredTrans(a.disk, b.disk, disk, mid, logged);
    }

    /** bmap: the block of the file's `bn`-th data block, allocated if missing; 0
        when the disk is full. */
    method Bmap(inum: nat, bn: nat) returns (addr: nat)
      requires FsOk(l, S(), {}) && inum < |inodes| && bn < MAXFILE
      modifies this`disk, this`inodes, this`owner, this`logged
      ensures Grown(l, old(S()), S(), inum) && logged == old(logged) + Alloced(l, old(S()), S(), inum)
      ensures forall x :: x in owner && x !in old(owner) ==> owner[x].k == NDIRECT || owner[x].k == DataSlot(bn)
      ensures inum < |inodes| && addr == Addr(inodes[inum], disk, DataSlot(bn)) && addr < |disk|
      ensures Addr(old(inodes)[inum], old(disk), DataSlot(bn)) != 0 ==> S() == old(S()) && logged == old(logged)
      ensures addr == 0 ==> Full(l, disk)
      ensures inodes == old(inodes) <==> InMap(old(S()), inum, bn) || Full(l, old(disk))
      ensures Addr(old(inodes)[inum], old(disk), DataSlot(bn)) == 0 ==>
        && (if Full(l, old(disk)) then S() == old(S()) && logged == old(logged)
            else exists x :: x in owner && x !in old(owner))
        && (addr != 0 ==> disk[addr] == ZeroBlock())
      ensures Covered(old(disk), disk, logged)
    {
      hide SetWord, Bits, Held, Rooted, Loose, ZeroBlock, Marked, Grown, Alloced, Full, Covered, Addr, OwnersGrow;
      ghost var a := S();
      GrownNot(l, a, inum);
      AllocedNone(l, a, a, inum);
      assert logged + {} == logged;
      StraysSelf(disk, logged);
      CoveredSelf(disk, logged);
      SlotInRange(l, a, {}, inum, DataSlot(bn));
      DirectAddr(a, inum, bn);
      if bn < NDIRECT {
        addr := inodes[inum].addrs[bn];
        if addr == 0 {
          addr := FillSlot(inum, bn);
          GrownOk(l, a, S(), inum);
          DirectAddr(S(), inum, bn);
          SlotInRange(l, S(), {}, inum, DataSlot(bn));
        }
      } else {
        addr := MapIndirect(inum, bn - NDIRECT);
      }
    }

    /** readi into a destination that accepts `room` bytes. It reads a hole as zeros,
        by giving the file a block there; so it changes nothing if and only if every
        block that it comes to is present, or no block is to be had. The inode on disk is
        left behind if and only if the block number goes into the inode itself. */
    method Readi(inum: nat, offset: Word32, count: Word32, room: nat) returns (r: int, data: seq<Byte>)
      requires FsOk(l, S(), {}) && inum < |inodes| && inodes[inum].size <= MAXFILE * BSIZE
      modifies this`disk, this`inodes, this`owner, this`logged
      ensures inum < |inodes| && FsOk(l, S(), {})
      ensures
        var n := ReadLength(old(inodes)[inum].size, offset, count);
        && ReadResult(l, old(S()), old(logged), S(), logged, inum, offset, n, room, r, data)
        && (old(Synced(inum)) ==>
             (Synced(inum) <==> AllInMap(old(S()), inum, offset, Touched(n, room)) || Full(l, old(disk))))
      ensures offset > old(inodes)[inum].size || offset + count >= 0x1_0000_0000 ==> r == 0 && data == []
      ensures offset <= old(inodes)[inum].size && offset + count < 0x1_0000_0000 ==>
        var end := Min(offset + count, old(inodes)[inum].size);
        AllPresent(old(S()), inum, offset, end - offset) ==>
          && S() == old(S()) && logged == old(logged)
          && if end - offset <= room then r == |data| && data == old(Contents(S(), inum))[offset..end] else r == -1
    {
      hide FsOk, Addr, Grown, Full, ReadResult, AllInMap, AllPresent, Contents;
      var n := ReadLength(inodes[inum].size, offset, count);
      ghost var s := S();
      if offset > inodes[inum].size || (offset + count) % 0x1_0000_0000 < offset {
        ReadNothing(l, s, logged, inum, offset, room);
        ReadLeftBehind(l, s, logged, s, logged, inum, offset, 0, room, 0, []);
        return 0, [];
      }
      r, data := ReadLoop(inum, offset, n, room);
      ReadLeftBehind(l, s, old(logged), S(), logged, inum, offset, n, room, r, data);
    }

    /** The loop of readi. */
    method ReadLoop(inum: nat, offset: nat, n: nat, room: nat) returns (r: int, data: seq<Byte>)
      requires FsOk(l, S(), {}) && inum < |inodes| && offset + n <= inodes[inum].size <= MAXFILE * BSIZE
      modifies this`disk, this`inodes, this`owner, this`logged
      ensures inum < |inodes| && FsOk(l, S(), {})
      ensures ReadResult(l, old(S()), old(logged), S(), logged, inum, offset, n, room, r, data)
    {
      hide FsOk, Addr, Covered, Grown, Alloced, Full, Chunk, Reading, Coming, ReadResult, AllInMap, InMap, Contents;
      data := [];
      ghost var s := S();
      ReadingStart(l, s, logged, inum, offset);
      var tot, off: nat := 0, offset;
      while tot < n
        invariant inum < |inodes| && 0 <= tot <= n && tot <= room && off == offset + tot && FsOk(l, S(), {})
        invariant Reading(l, s, old(logged), S(), logged, inum, offset, tot, data)
        invariant 0 < tot < n ==> off % BSIZE == 0
      {
        ghost var t, mid := S(), logged;
        assert off / BSIZE * BSIZE <= off;
        var m := Chunk(off, n - tot);
        ChunkEnds(off, n - tot);
        var addr := Bmap(inum, off / BSIZE);
        GrownOk(l, t, S(), inum);
        ReadingMapped(l, s, old(logged), t, mid, inum, offset, tot, data, S(), logged, m, addr);
        ReadingStops(l, s, old(logged), S(), logged, inum, offset, tot, m, data, addr, n, room);
        if addr == 0 {
          return tot, data;
        }
        if tot + m > room {
          return -1, data;
        }
        ReadingChunk(l, s, old(logged), S(), logged, inum, offset, tot, m, data, addr);
        data := data + disk[addr][off % BSIZE..off % BSIZE + m];
        tot, off := tot + m, off + m;
      }
      ReadingEnds(l, s, old(logged), S(), logged, inum, offset, n, room, data);
      return tot, data;
    }

    /** Reads of `c` bytes, one after another until one gives nothing, as cat does them:
        together they are the file. */
    method ReadAll(inum: nat, c: Word32) returns (all: seq<Byte>)
      requires FsOk(l, S(), {}) && inum < |inodes| && inodes[inum].size <= MAXFILE * BSIZE
      requires Solid(S(), inum) && 0 < c < 0x8000_0000
      modifies this`disk, this`inodes, this`owner, this`logged
      ensures S() == old(S()) && logged == old(logged) && all == old(Contents(S(), inum))
    {
      hide FsOk, ReadResult, Contents, AllPresent, AllInMap, NoHoles, Full;
      ghost var contents := Contents(S(), inum);
      var off := 0;
      all := [];
      while true
        invariant S() == old(S()) && logged == old(logged) && off <= inodes[inum].size
        invariant |contents| == inodes[inum].size && all == contents[..off]
        decreases |contents| - off
      {
        SolidIsPresent(S(), inum, off, Min(off + c, inodes[inum].size) - off);
        var r, data := Readi(inum, off, c, c);
        if r <= 0 {
          break;
        }
        all, off := all + data, off + r;
      }
    }

    /** iupdate: the in-memory inode goes to its inode block. */
    method Iupdate(inum: nat)
      requires inum < |inodes| == |dinodes|
      modifies this`dinodes, this`logged
      ensures dinodes == old(dinodes)[inum := inodes[inum]] && logged == old(logged) + {l.Iblock(inum)}
    {
      dinodes := dinodes[inum := inodes[inum]];
      logged := logged + {l.Iblock(inum)};
    }

    /** The loop of writei. The source is readable for `readable` bytes; of the
        chunk whose copy fails, `torn` bytes have reached the block by then. */
    method WriteLoop(inum: nat, src: seq<Byte>, offset: nat, readable: nat, torn: nat)
      returns (tot: nat, ghost seen: nat, ghost changed: set<nat>, ghost stray: set<nat>)
      requires FsOk(l, S(), {}) && inum < |inodes| && inodes[inum].size <= MAXFILE * BSIZE
      requires offset <= inodes[inum].size && offset + |src| <= MAXFILE * BSIZE
      modifies this`disk, this`inodes, this`owner, this`logged
      ensures inum < |inodes| && Looped(l, old(S()), old(logged), S(), logged, inum, offset, src, tot, seen, changed)
      ensures Ended(l, S(), inum, offset, |src|, tot, seen, readable, torn)
      ensures Strays(old(disk), disk, logged, stray) && (readable >= |src| || tot == |src| ==> stray == {})
      ensures (forall x :: x in stray ==> l.nmeta <= x)
      ensures Covered(old(disk), disk, logged) <==> !Torn(old(S()), old(logged), inum, offset, src, tot, seen)
    {
      hide FsOk, Addr, Written, Writing, Mapped, Looped, Torn, Patch, Full, Grown, Alloced, Covered, Strays, Chunk;
      hide Spanned;
      ghost var s0 := S();
      tot, seen, changed, stray := 0, 0, {}, {};
      WritingStart(l, s0, logged, inum, offset, src);
      var off: nat := offset;
      while tot < |src|
        invariant tot <= |src| && off == offset + tot && seen == tot <= readable && stray == {} && inum < |inodes|
        invariant FsOk(l, S(), {})
        invariant Writing(l, s0, old(logged), S(), logged, inum, offset, src, tot)
      {
        ghost var s, before := S(), logged;
        var addr := Bmap(inum, off / BSIZE);
        GrownOk(l, s, S(), inum);
        WritingMapped(l, s0, old(logged), s, before, inum, offset, src, tot, S(), logged, addr);
        if addr == 0 {
          changed := FileBlocks(S(), inum, offset / BSIZE, End(offset, tot));
          WritingStops(l, s0, old(logged), S(), logged, inum, offset, src, tot);
          NotTorn(s0, old(logged), inum, offset, src, tot);
          NoStrays(s0.disk, disk, logged);
          return;
        }
        var m := Chunk(off, |src| - tot);
        if tot + m > readable {
          var got := if torn < m then torn else m;
          changed := FileBlocks(S(), inum, offset / BSIZE, End(offset, tot)) + {addr};
          WritingTorn(l, s0, old(logged), S(), logged, inum, offset, src, tot, addr, got);
          TornBlock(l, s0, old(logged), S(), logged, inum, offset, src, tot, addr);
          disk := disk[addr := Patch(disk[addr], off % BSIZE, src[tot..tot + got])];
          seen, stray := tot + got, {addr};
          return;
        }
        WritingChunk(l, s0, old(logged), S(), logged, inum, offset, src, tot, addr, m);
        disk := disk[addr := Patch(disk[addr], off % BSIZE, src[tot..tot + m])];
        logged := logged + {addr};
        tot, off, seen := tot + m, off + m, tot + m;
      }
      changed := FileBlocks(S(), inum, offset / BSIZE, End(offset, tot));
      WritingEnds(l, s0, old(logged), S(), logged, inum, offset, src);
      NotTorn(s0, old(logged), inum, offset, src, tot);
      NoStrays(s0.disk, disk, logged);
    }

    /** The end of writei: the file may have grown to `size`. */
    method Extend(inum: nat, size: nat)
      requires inum < |inodes| == |dinodes|
      modifies this`inodes, this`dinodes, this`logged
      ensures S() == Resized(old(S()), inum, Max(old(inodes)[inum].size, size))
      ensures dinodes == old(dinodes)[inum := inodes[inum]] && logged == old(logged) + {l.Iblock(inum)}
    {
      if size > inodes[inum].size {
        inodes := inodes[inum := inodes[inum].(size := size)];
      }
      assert inodes == old(inodes)[inum := inodes[inum]];
      Iupdate(inum);
    }

    /** writei. `seen` of the bytes reach the cached blocks, more than the result
        only when the source became unreadable within a block. That block is `stray`:
        exactly if it is `Torn`, it is changed but not logged. */
    method Writei(inum: nat, src: seq<Byte>, offset: Word32, readable: nat, torn: nat)
      returns (r: int, ghost seen: nat, ghost stray: set<nat>)
      requires Valid() && inum < |inodes| && inodes[inum].size <= MAXFILE * BSIZE
      modifies this`disk, this`inodes, this`owner, this`dinodes, this`logged
      ensures Valid() && inum < |inodes|
      ensures r == -1 <==> offset > old(inodes)[inum].size || offset + |src| > MAXFILE * BSIZE
      ensures r == -1 ==> S() == old(S()) && dinodes == old(dinodes) && logged == old(logged) && seen == 0
      ensures r != -1 ==>
        && 0 <= r <= seen <= |src| && (0 < r < |src| ==> (offset + r) % BSIZE == 0)
        && inodes == old(inodes)[inum :=
          old(inodes)[inum].(addrs := inodes[inum].addrs, size := Max(old(inodes)[inum].size, offset + r))]
        && inodes[inum].size <= MAXFILE * BSIZE && (Solid(old(S()), inum) ==> Solid(S(), inum))
        && Contents(S(), inum) == AfterWrite(old(Contents(S(), inum)), offset, src, r, seen)
        && OthersKept(old(S()), S(), inum)
        && dinodes == old(dinodes)[inum := inodes[inum]] && Synced(inum)
      ensures r != -1 ==>
        offset + |src| <= MAXFILE * BSIZE && Ended(l, S(), inum, offset, |src|, r, seen, readable, torn)
      ensures Strays(old(disk), disk, logged, stray) && (readable >= |src| || r == |src| ==> stray == {})
      ensures r != -1 ==>
        (Covered(old(disk), disk, logged) <==> !Torn(old(S()), old(logged), inum, offset, src, r, seen))
      ensures r != -1 ==>
        && OwnersGrow(old(S()), S(), inum) && WriteLogs(l, old(S()), old(logged), S(), logged, inum, offset, r)
        && WriteSpaceOk(l, old(S()), old(logged), S(), logged, inum, offset, |src|, r)
    {
      hide FsOk, Addr, Full, Covered, Contents, AfterWrite, OthersKept, Chunk, Strays, Looped, Torn, WriteLogs;
      hide WriteSpaceOk, NoHoles, OwnersGrow, Ended;
      StraysSelf(disk, logged);
      if offset > inodes[inum].size || (offset + |src|) % 0x1_0000_0000 < offset {
        return -1, 0, {};
      }
      if offset + |src| > MAXFILE * BSIZE {
        return -1, 0, {};
      }
      ghost var s0, changed := S(), {};
      r, seen, changed, stray := WriteLoop(inum, src, offset, readable, torn);
      ghost var s, before := S(), logged;
      LoopFacts(l, s0, old(logged), s, before, inum, offset, src, r, seen, changed);
      ResizedEnded(l, s, inum, offset, |src|, r, seen, readable, torn, Max(s.inodes[inum].size, offset + r));
      Extend(inum, offset + r);
      InodeIsMeta(l, S(), inum);
      LoopSpace(l, s0, old(logged), s, before, inum, offset, src, r, seen, changed, S());
      StraysInode(l, s0.disk, disk, before, stray, l.Iblock(inum));
    }

    /** What a write puts into a file, a read gets back. */
    method WriteThenRead(inum: nat, src: seq<Byte>, offset: Word32) returns (n: int, r: int, data: seq<Byte>)
      requires Valid() && inum < |inodes| && inodes[inum].size <= MAXFILE * BSIZE && Solid(S(), inum)
      modifies this`disk, this`inodes, this`owner, this`dinodes, this`logged
      ensures n == -1 <==> offset > old(inodes)[inum].size || offset + |src| > MAXFILE * BSIZE
      ensures n != -1 ==> 0 <= n <= |src| && r == n && data == src[..n] && (n < |src| ==> Full(l, disk))
    {
      hide FsOk, ReadResult, Contents, AllPresent, AllInMap, NoHoles, Full, Covered, OthersKept, Strays, Torn;
      hide WriteLogs, WriteSpaceOk, OwnersGrow, AfterWrite, Synced;
      ghost var c := Contents(S(), inum);
      ghost var seen, stray;
      n, seen, stray := Writei(inum, src, offset, |src|, 0);
      r, data := 0, [];
      if n >= 0 {
        AfterWriteAt(c, offset, src, n, seen);
        SolidIsPresent(S(), inum, offset, n);
        r, data := Readi(inum, offset, n, n);
        assert data == src[..n];
      }
    }

    /** The first loop of itrunc. */
    method FreeDirect(inum: nat)
      requires FsOk(l, S(), {}) && inum < |inodes|
      modifies this`disk, this`inodes, this`owner, this`logged
      ensures S() == Cleared(old(S()), disk, inum, NDIRECT) && FsOk(l, S(), {}) && SameData(l, old(disk), disk)
      ensures Covered(old(disk), disk, logged) && BitmapLogged(l, old(logged), logged)
    {
      hide FsOk, Covered, Bit, Marked, Cleared, SameData, BitmapLogged;
      ghost var s0 := S();
      ClearStart(l, s0, inum, logged);
      for i := 0 to NDIRECT
        invariant S() == Cleared(s0, disk, inum, i) && FsOk(l, S(), {}) && SameData(l, s0.disk, disk)
        invariant Covered(s0.disk, disk, logged) && BitmapLogged(l, old(logged), logged)
      {
        ClearDirect(l, s0, disk, inum, i);
        ClearStep(s0, disk, inum, i);
        ClearedOwner(l, s0, disk, inum, i);
        ghost var s, d, before := Cleared(s0, disk, inum, i + 1), disk, logged;
        var b := inodes[inum].addrs[i];
        if b != 0 {
          Bfree(b, s, {b});
          assert {b} - {b} == {};
          AfterFree(l, s0.disk, d, disk, old(logged), before, logged, l.Bblock(b));
          inodes := inodes[inum := inodes[inum].(addrs := inodes[inum].addrs[i := 0])];
        }
        owner := s.owner;
        ClearedDisk(s0, d, disk, inum, i + 1);
      }
    }

    /** The second half of itrunc: everything under the indirect block, then the
        indirect block itself. */
    method FreeIndirect(inum: nat, ghost s0: Fs)
      requires FsOk(l, s0, {}) && inum < |s0.inodes| && SameData(l, s0.disk, disk)
      requires FsOk(l, S(), {}) && S() == Cleared(s0, disk, inum, NDIRECT)
      modifies this`disk, this`inodes, this`owner, this`logged
      ensures S() == Cleared(s0, disk, inum, SLOTS) && FsOk(l, S(), {}) && SameData(l, s0.disk, disk)
      ensures Covered(s0.disk, old(disk), old(logged)) ==> Covered(s0.disk, disk, logged)
      ensures BitmapLogged(l, old(logged), logged)
    {
      hide FsOk, Covered, Bit, Marked, Cleared, Word, InSlots;
      ClearLast(s0, disk, inum);
      ClearIndirect(l, s0, disk, inum);
      IndirectBlocks(l, s0, inum);
      ghost var d, s := disk, Cleared(s0, disk, inum, SLOTS);
      ClearStart(l, S(), inum, logged);
      ClearedDisk(s0, d, d, inum, SLOTS);
      var root := inodes[inum].addrs[NDIRECT];
      if root != 0 {
        var a := disk[root];
        for j := 0 to NINDIRECT
          invariant FsOk(l, s.(disk := disk), InSlots(s0, inum, NDIRECT + 1 + j, SLOTS) + {root})
          invariant inodes == old(inodes) && SameData(l, d, disk) && Covered(d, disk, logged)
          invariant BitmapLogged(l, old(logged), logged)
        {
          EntryFreed(l, s0, inum, j);
          if Word(a, j) != 0 {
            ghost var mid, before := disk, logged;
            Bfree(Word(a, j), s.(disk := disk), InSlots(s0, inum, NDIRECT + 1 + j, SLOTS) + {root});
            AfterFree(l, d, mid, disk, old(logged), before, logged, l.Bblock(Word(a, j)));
          }
        }
        ghost var mid, before := disk, logged;
        assert InSlots(s0, inum, SLOTS, SLOTS) + {root} == {root} && {root} - {root} == {};
        Bfree(root, s.(disk := disk), {root});
        AfterFree(l, d, mid, disk, old(logged), before, logged, l.Bblock(root));
        inodes := inodes[inum := inodes[inum].(addrs := inodes[inum].addrs[NDIRECT := 0])];
      }
      owner := s.owner;
      ClearedDisk(s0, d, disk, inum, SLOTS);
      if Covered(s0.disk, d, old(logged)) {
        CoveredTrans(s0.disk, d, disk, old(logged), logged);
      }
    }

    /** itrunc: the file loses all its blocks and its contents. */
    method Itrunc(inum: nat)
      requires Valid() && inum < |inodes|
      modifies this`disk, this`inodes, this`owner, this`dinodes, this`logged
      ensures Valid() && inum < |inodes|
      ensures inodes ==
        old(inodes)[inum := old(inodes)[inum].(addrs := Zeroed(old(inodes)[inum].addrs, SLOTS), size := 0)]
      ensures owner == old(owner) - InSlots(old(S()), inum, 0, SLOTS)
      ensures Contents(S(), inum) == [] && OthersKept(old(S()), S(), inum) && SameData(l, old(disk), disk)
      ensures dinodes == old(dinodes)[inum := inodes[inum]] && Synced(inum) && l.Iblock(inum) in logged
      ensures Covered(old(disk), disk, logged)
      ensures old(logged) <= logged
      ensures forall n :: n in logged ==> n in old(logged) || l.IsBitmap(n) || n == l.Iblock(inum)
    {
      hide FsOk, InSlots, Zeroed, Bit, Marked, OthersKept;
      ghost var s0 := S();
      FreeDirect(inum);
      ghost var mid := logged;
      FreeIndirect(inum, s0);
      ResizedOk(l, S(), {}, inum, 0);
      ClearedOthers(l, s0, disk, inum, 0);
      inodes := inodes[inum := inodes[inum].(size := 0)];
      Iupdate(inum);
    }

    /** One operation of filewrite: begin_op, writei of the next unit, end_op. */
    method WriteUnit(inum: nat, src: seq<Byte>, off: Word32, i: nat, readable: nat, torn: nat, ghost s0: Fs)
      returns (w: int, n1: nat, ghost got: nat, ghost stray: set<nat>)
      requires Valid() && i < |src| && FileWritten(s0, S(), inum, off, src, i, i)
      modifies this`disk, this`inodes, this`owner, this`dinodes, this`logged
      ensures Valid() && n1 == Min(|src| - i, WRITE_MAX) && -1 <= w <= n1
      ensures FileWritten(s0, S(), inum, off, src, if w == -1 then i else i + w, i + got)
      ensures readable >= |src| || w == n1 ==> stray == {} && i + got == if w == -1 then i else i + w
      ensures readable >= |src| && w != n1 ==>
        Full(l, disk) || off > s0.inodes[inum].size || off + |src| > MAXFILE * BSIZE
      ensures |logged| <= OpLimit(l, s0, inum) && Strays(old(disk), disk, logged, stray)
    {
      hide FsOk, Addr, Full, Covered, Contents, AfterWrite, WriteSpace, OthersKept, FileWritten, Chunk, Strays;
      hide WriteLogs, Torn, NoHoles, Spanned;
      FileWrittenFacts(s0, S(), inum, off, src, i, i);
      n1 := Min(|src| - i, WRITE_MAX);
      ghost var s := S();
      logged := {};
      w, got, stray := Writei(inum, src[i..i + n1], off + i, if readable > i then readable - i else 0, torn);
      UnitFits(off + i, n1);
      assert logged == logged - {};
      if w == -1 {
        got := 0;
      } else {
        FileWrittenMore(s0, s, S(), inum, off, src, i, src[i..i + n1], w, got);
      }
    }

    /** filewrite to an inode at file offset `off`: one log operation for each
        WRITE_MAX bytes. `ops` are the blocks that each of them passed to log_write. */
    method Filewrite(inum: nat, src: seq<Byte>, off: Word32, readable: nat, torn: nat)
      returns (r: int, off': nat, ghost seen: nat, ghost ops: seq<set<nat>>, ghost stray: set<nat>)
      requires Valid() && inum < |inodes| && inodes[inum].size <= MAXFILE * BSIZE
      modifies this`disk, this`inodes, this`owner, this`dinodes, this`logged
      ensures Valid() && off <= off' && FileWritten(old(S()), S(), inum, off, src, off' - off, seen)
      ensures r == if off' - off == |src| then |src| else -1
      ensures readable >= |src| ==> seen == off' - off
      ensures readable >= |src| && r == -1 ==>
        Full(l, disk) || off > old(inodes)[inum].size || off + |src| > MAXFILE * BSIZE
      ensures r != -1 ==> |src| <= |ops| * WRITE_MAX < |src| + WRITE_MAX
      ensures OpsLog(old(disk), disk, ops, stray, OpLimit(l, old(S()), inum)) && (readable >= |src| ==> stray == {})
    {
      hide FsOk, Addr, Full, Covered, Contents, AfterWrite, OthersKept, FileWritten, InUnits, OpsLog, Strays, OpLimit;
      ghost var s0 := S();
      seen, ops, off', stray := 0, [], off, {};
      var i := 0;
      FileWrittenNothing(s0, inum, off, src);
      ghost var max := OpLimit(l, s0, inum);
      OpsLogNone(disk, max);
      NoUnits(|src|);
      while i < |src|
        invariant Valid() && 0 <= i == seen <= |src| && off' == off + i && FileWritten(s0, S(), inum, off, src, i, i)
        invariant InUnits(i, |ops|, |src|) && stray == {} && OpsLog(s0.disk, disk, ops, {}, max)
      {
        ghost var d := disk;
        var w, n1;
        ghost var got;
        w, n1, got, stray := WriteUnit(inum, src, off, i, readable, torn, s0);
        OpsLogMore(s0.disk, d, disk, ops, logged, stray, max);
        NextUnit(i, |ops|, |src|);
        ops, seen := ops + [logged], i + got;
        if w > 0 {
          off' := off' + w;
        }
        if w != n1 {
          break;
        }
        i := i + w;
      }
      r := if i == |src| then |src| else -1;
      UnitsDone(i, |ops|, |src|);
    }

    /** The read of the directory entry at `off`, in dirlookup and dirlink; `false` is the
        panic there. It happens only past a last partial entry, or in a hole when the
        disk is full. */
    method ReadEntry(dp: nat, off: nat, ghost s0: Fs, ghost before: set<nat>) returns (ok: bool, de: seq<Byte>)
      requires Valid() && dp < |inodes| && Searched(l, s0, before, S(), logged, dp, off)
      requires off % DIRENT == 0 && off < inodes[dp].size
      modifies this`disk, this`inodes, this`owner, this`logged
      ensures Valid() && dp < |inodes| && inodes[dp].size == old(inodes)[dp].size
      ensures Searched(l, s0, before, S(), logged, dp, Min(off + DIRENT, inodes[dp].size))
      ensures old(Synced(dp)) ==> (Synced(dp) <==> InMap(old(S()), dp, off / BSIZE) || Full(l, old(disk)))
      ensures ok ==> off + DIRENT <= inodes[dp].size && |de| == DIRENT && de == Contents(s0, dp)[off..off + DIRENT]
      ensures !ok ==> inodes[dp].size % DIRENT != 0 || (Full(l, disk) && !Solid(s0, dp))
    {
      hide FsOk, Addr, Contents, Full, ReadResult, Searched, AllInMap, InMap, NoHoles;
      ghost var s, mid := S(), logged;
      SearchLeftBehind(l, s0, before, s, mid, dp, off);
      var r;
      r, de := Readi(dp, off, DIRENT, DIRENT);
      ghost var n := ReadLength(s.inodes[dp].size, off, DIRENT);
      ReadDelivers(l, s, mid, S(), logged, dp, off, n, DIRENT, r, de);
      ReadLeftBehind(l, s, mid, S(), logged, dp, off, n, DIRENT, r, de);
      EntryInBlock(off);
      OneChunk(s, dp, off, n);
      SearchedMore(l, s0, before, s, mid, S(), logged, dp, off, n, DIRENT, r, de);
      ok := r == DIRENT;
    }

    /** dirlookup in a directory: the inode that a name is bound to and where, or 0;
        with `ok` false, the panic "dirlookup read". */
    method Dirlookup(dp: nat, name: seq<Byte>) returns (ok: bool, inum: nat, off: nat)
      requires Valid() && dp < |inodes| && inodes[dp].size <= MAXFILE * BSIZE
      modifies this`disk, this`inodes, this`owner, this`logged
      ensures Valid() && dp < |inodes| && inodes[dp].size == old(inodes)[dp].size
      ensures
        var n := Min(off + DIRENT, inodes[dp].size);
        && Searched(l, old(S()), old(logged), S(), logged, dp, n)
        && (old(Synced(dp)) ==> (Synced(dp) <==> AllInMap(old(S()), dp, 0, n) || Full(l, old(disk))))
      ensures !ok ==> inodes[dp].size % DIRENT != 0 || (Full(l, disk) && !Solid(old(S()), dp))
      ensures ok ==> inum == Lookup(Contents(S(), dp), Key(name)) && (inum == 0 ==> inodes[dp].size <= off)
      ensures ok && inum != 0 ==>
        && off % DIRENT == 0 && off + DIRENT <= inodes[dp].size
        && Inum(Contents(S(), dp), off / DIRENT) == inum && NameAt(Contents(S(), dp), off / DIRENT) == Key(name)
    {
      hide FsOk, Addr, NameAt, Inum, Prefix, Contents, Searched, Full, NoHoles, AllInMap, InMap;
      ghost var s0, c, k := S(), Contents(S(), dp), Key(name);
      SearchedNothing(l, s0, logged, dp);
      off := 0;
      while off < inodes[dp].size
        invariant Valid() && dp < |inodes| && Searched(l, s0, old(logged), S(), logged, dp, Min(off, inodes[dp].size))
        invariant inodes[dp].size == s0.inodes[dp].size && off % DIRENT == 0 && off < inodes[dp].size + DIRENT
        invariant off / DIRENT <= Count(c) && Find(c, k, off / DIRENT) == Lookup(c, k)
      {
        var de;
        ok, de := ReadEntry(dp, off, s0, old(logged));
        SearchLeftBehind(l, s0, old(logged), S(), logged, dp, Min(off + DIRENT, inodes[dp].size));
        inum := 0;
        if !ok {
          return;
        }
        EntryRead(c, off);
        inum := ReadInum(de);
        if inum != 0 {
          var same := Strncmp(name, de[2..], DIRSIZ);
          assert same <==> NameAt(c, off / DIRENT) == k by { SameName(c, off, name); }
          if same {
            return;
          }
        }
        off := off + DIRENT;
      }
      SearchLeftBehind(l, s0, old(logged), S(), logged, dp, inodes[dp].size);
      ok, inum := true, 0;
    }

    /** dirlink's search for an unused entry; with `ok` false, the panic "dirlink read". */
    method FindVacant(dp: nat) returns (ok: bool, off: nat)
      requires Valid() && dp < |inodes| && inodes[dp].size <= MAXFILE * BSIZE && inodes[dp].size % DIRENT == 0
      modifies this`disk, this`inodes, this`owner, this`logged
      ensures Valid() && dp < |inodes| && inodes[dp].size == old(inodes)[dp].size
      ensures
        var n := Min(off + DIRENT, inodes[dp].size);
        && Searched(l, old(S()), old(logged), S(), logged, dp, n)
        && (old(Synced(dp)) ==> (Synced(dp) <==> AllInMap(old(S()), dp, 0, n) || Full(l, old(disk))))
      ensures !ok ==> Full(l, disk) && !Solid(old(S()), dp)
      ensures ok ==> off % DIRENT == 0 && off <= inodes[dp].size && Vacant(Contents(S(), dp), off / DIRENT)
      ensures ok ==> forall i :: 0 <= i < off / DIRENT ==> Inum(Contents(S(), dp), i) != 0
    {
      hide FsOk, Addr, Inum, Contents, Searched, Full, NoHoles, AllInMap, InMap;
      ghost var s0, c := S(), Contents(S(), dp);
      SearchedNothing(l, s0, logged, dp);
      off := 0;
      while off < inodes[dp].size
        invariant Valid() && dp < |inodes| && Searched(l, s0, old(logged), S(), logged, dp, Min(off, inodes[dp].size))
        invariant inodes[dp].size == s0.inodes[dp].size && off % DIRENT == 0 && off <= inodes[dp].size
        invariant forall i :: 0 <= i < off / DIRENT ==> Inum(c, i) != 0
      {
        var de;
        ok, de := ReadEntry(dp, off, s0, old(logged));
        SearchLeftBehind(l, s0, old(logged), S(), logged, dp, Min(off + DIRENT, inodes[dp].size));
        if !ok {
          return;
        }
        EntryRead(c, off);
        if ReadInum(de) == 0 {
          return;
        }
        off := off + DIRENT;
      }
      SearchLeftBehind(l, s0, old(logged), S(), logged, dp, inodes[dp].size);
      ok := true;
    }

    /** dirlink: `name` for inode `inum`. Any failure but for a taken name means a full
        disk or directory; with `ok` false, it is one of the panics. */
    method Dirlink(dp: nat, name: seq<Byte>, inum: nat) returns (ok: bool, r: int)
      requires Valid() && dp < |inodes| && inodes[dp].size <= MAXFILE * BSIZE && 0 < inum < 0x1_0000
      requires DirOk(Contents(S(), dp))
      modifies this`disk, this`inodes, this`owner, this`dinodes, this`logged
      ensures Valid() && dp < |inodes| && inodes[dp].size <= MAXFILE * BSIZE && OthersKept(old(S()), S(), dp)
      ensures Solid(old(S()), dp) ==> ok && Solid(S(), dp)
      ensures !ok ==> Contents(S(), dp) == old(Contents(S(), dp)) && Full(l, disk)
      ensures ok ==> r == 0 || r == -1
      ensures ok && r == 0 ==>
        && Synced(dp) && Lookup(old(Contents(S(), dp)), Key(name)) == 0 && DirOk(Contents(S(), dp))
        && forall k :: Lookup(Contents(S(), dp), k) ==
             if k == Key(name) then inum else Lookup(old(Contents(S(), dp)), k)
      ensures ok && r == 0 ==>
        if exists i :: 0 <= i < Count(old(Contents(S(), dp))) && Inum(old(Contents(S(), dp)), i) == 0
        then inodes[dp].size == old(inodes)[dp].size else inodes[dp].size == old(inodes)[dp].size + DIRENT
      ensures ok && r == -1 ==>
        && Contents(S(), dp) == old(Contents(S(), dp))
        && (Lookup(Contents(S(), dp), Key(name)) != 0 || Full(l, disk) || inodes[dp].size + DIRENT > MAXFILE * BSIZE)
    {
      hide FsOk, Addr, Inum, Contents, NameAt, Key, Lookup, Entry, Vacant, OthersKept, Full, AfterWrite, Grown;
      hide Alloced, Torn, WriteLogs, WriteSpaceOk, Strays, Covered, NoHoles;
      ghost var s, c := S(), Contents(S(), dp);
      var found, at;
      ok, found, at := Dirlookup(dp, name);
      if Solid(s, dp) {
        SearchedSolid(l, s, old(logged), S(), logged, dp, Min(at + DIRENT, inodes[dp].size));
      }
      r := -1;
      if !ok || found != 0 {
        return;
      }
      ghost var s1, mid := S(), logged;
      var off;
      ok, off := FindVacant(dp);
      if Solid(s, dp) {
        SearchedSolid(l, s1, mid, S(), logged, dp, Min(off + DIRENT, inodes[dp].size));
      }
      OthersKeptTrans(s, s1, S(), dp);
      if !ok {
        return;
      }
      ghost var s2 := S();
      var de := Entry(inum, NameOf(Key(name)));
      ghost var seen, stray;
      r, seen, stray := Writei(dp, de, off, DIRENT, 0);
      OthersKeptTransIf(s, s2, S(), dp, r != -1);
      if r != DIRENT {
        if r != -1 {
          NothingWritten(c, off, de, r);
        }
        r := -1;
        return;
      }
      r := 0;
      EntryWritten(c, off, de);
      FirstVacant(c, off / DIRENT);
      LinkWritten(c, Contents(S(), dp), off / DIRENT, inum, name);
    }
  }

  /** An entry lies in one block. */
  lemma EntryInBlock(off: nat)
    requires off % DIRENT == 0
    ensures off % BSIZE + DIRENT <= BSIZE
  {
    assert off % BSIZE % DIRENT == 0;
  }

  function ReadInum(de: seq<Byte>): (n: nat)
    requires |de| == DIRENT
  {
    var lo: int, hi: int := de[0], de[1];
    lo + 0x100 * hi
  }

  lemma EntryRead(c: seq<Byte>, off: nat)
    requires off % DIRENT == 0 && off + DIRENT <= |c|
    ensures off / DIRENT < Count(c) && Inum(c, off / DIRENT) == ReadInum(c[off..off + DIRENT])
    ensures (off + DIRENT) / DIRENT == off / DIRENT + 1 && (off + DIRENT) % DIRENT == 0
  {
    assert DIRENT * (off / DIRENT) == off;
  }

  lemma SameName(c: seq<Byte>, off: nat, name: seq<Byte>)
    requires off % DIRENT == 0 && off + DIRENT <= |c|
    ensures off / DIRENT < Count(c) && NameAt(c, off / DIRENT) == Prefix(c[off..off + DIRENT][2..], DIRSIZ)
  {
    assert DIRENT * (off / DIRENT) == off;
    assert c[off..off + DIRENT][2..] == c[off + 2..off + DIRENT];
  }

  /** An entry is written as a whole or not at all. */
  lemma NothingWritten(c: seq<Byte>, off: nat, de: seq<Byte>, r: int)
    requires off % DIRENT == 0 && off <= |c| && |de| == DIRENT && 0 <= r < DIRENT
    requires (0 < r < DIRENT ==> (off + r) % BSIZE == 0)
    ensures r == 0 && AfterWrite(c, off, de, r, r) == c
  {
    if r > 0 {
      Aligned(off, r);
    }
    AfterWriteAt(c, off, de, 0, 0);
  }

  lemma Aligned(off: nat, r: nat)
    requires off % DIRENT == 0 && (off + r) % BSIZE == 0
    ensures r % DIRENT == 0
  {
    assert BSIZE % DIRENT == 0;
  }

  lemma EntryWritten(c: seq<Byte>, off: nat, de: seq<Byte>)
    requires off % DIRENT == 0 && off <= |c| && |c| % DIRENT == 0 && |de| == DIRENT
    ensures AfterWrite(c, off, de, DIRENT, DIRENT) == WithEntry(c, off / DIRENT, de)
  {
    assert DIRENT * (off / DIRENT) == off;
    AfterWriteAt(c, off, de, DIRENT, DIRENT);
  }

  lemma LinkWritten(c: seq<Byte>, r: seq<Byte>, i: nat, inum: nat, name: seq<Byte>)
    requires DirOk(c) && Vacant(c, i) && Lookup(c, Key(name)) == 0 && 0 < inum < 0x1_0000
    requires r == WithEntry(c, i, Entry(inum, NameOf(Key(name))))
    ensures DirOk(r) && forall k :: Lookup(r, k) == if k == Key(name) then inum else Lookup(c, k)
  {
    hide DirOk, Lookup, WithEntry, Entry, NameOf;
    PrefixIsClean(name, DIRSIZ);
    WithEntryLinked(c, i, inum, Key(name));
    forall k
      ensures DirOk(r) && Lookup(r, k) == if k == Key(name) then inum else Lookup(c, k)
    {
      LinkAdds(c, r, i, inum, Key(name), k);
    }
  }

  /** How many bytes a read is to return: 32-bit wrap-around and reading past the
      end give 0, reading over the end is cut short. */
  function ReadLength(size: nat, off: Word32, n: Word32): (r: nat) {
    if off > size || off + n >= 0x1_0000_0000 then 0
    else if off + n > size then size - off
    else n
  }
}
