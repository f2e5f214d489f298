/** Which blocks writing a file passes to log_write (kernel/fs.c, kernel/file.c), and
    how many they are. */
module FsLog {
  import opened Blocks
  import opened Bitmap
  import opened FsSpec
  import LogSpec

  // ----- The blocks of a part of a file -----

  /** The data blocks `lo` to `hi` of a file. */
  ghost function FileBlocks(s: Fs, inum: nat, lo: nat, hi: nat): (r: set<nat>)
    requires inum < |s.inodes|
  {
    set bn | lo <= bn < hi && bn < MAXFILE :: Addr(s.inodes[inum], s.disk, DataSlot(bn))
  }

  ghost predicate PresentRange(s: Fs, inum: nat, lo: nat, hi: nat)
    requires inum < |s.inodes|
  {
    hi <= MAXFILE && forall bn :: lo <= bn < hi ==> Present(s, inum, bn)
  }

  /** They are all different. */
  lemma {:induction false} FileBlocksCount(l: Layout, s: Fs, inum: nat, lo: nat, hi: nat)
    requires FsOk(l, s, {}) && inum < |s.inodes| && lo <= hi && PresentRange(s, inum, lo, hi)
    ensures |FileBlocks(s, inum, lo, hi)| == hi - lo
    decreases hi
  {
    hide FsOk, Addr;
    if lo < hi {
      FileBlocksCount(l, s, inum, lo, hi - 1);
      FileBlocksMore(s, inum, lo, hi - 1);
      NotAmong(l, s, inum, lo, hi - 1);
    }
  }

  lemma FileBlocksMore(s: Fs, inum: nat, lo: nat, hi: nat)
    requires inum < |s.inodes| && lo <= hi < MAXFILE
    ensures FileBlocks(s, inum, lo, hi + 1) ==
      FileBlocks(s, inum, lo, hi) + {Addr(s.inodes[inum], s.disk, DataSlot(hi))}
  {
    hide Addr;
  }

  /** The next block of a file is none of those before it. */
  lemma NotAmong(l: Layout, s: Fs, inum: nat, lo: nat, hi: nat)
    requires FsOk(l, s, {}) && inum < |s.inodes| && lo <= hi < MAXFILE && Present(s, inum, hi)
    ensures Addr(s.inodes[inum], s.disk, DataSlot(hi)) !in FileBlocks(s, inum, lo, hi)
  {
    hide FsOk, Addr;
    forall bn | lo <= bn < hi
      ensures Addr(s.inodes[inum], s.disk, DataSlot(bn)) != Addr(s.inodes[inum], s.disk, DataSlot(hi))
    {
      if Addr(s.inodes[inum], s.disk, DataSlot(bn)) == Addr(s.inodes[inum], s.disk, DataSlot(hi)) {
        BlocksAreDistinct(l, s, {}, inum, DataSlot(bn), inum, DataSlot(hi));
      }
    }
  }

  /** They stay when the file gets more blocks. */
  lemma FileBlocksStay(l: Layout, s: Fs, t: Fs, inum: nat, lo: nat, hi: nat)
    requires Grown(l, s, t, inum) && PresentRange(s, inum, lo, hi)
    ensures inum < |t.inodes| && FileBlocks(t, inum, lo, hi) == FileBlocks(s, inum, lo, hi)
    ensures PresentRange(t, inum, lo, hi)
  {
    hide FsOk, Addr, SameBlocks;
    GrownOk(l, s, t, inum);
    forall bn | lo <= bn < hi
      ensures Present(t, inum, bn)
      ensures Addr(t.inodes[inum], t.disk, DataSlot(bn)) == Addr(s.inodes[inum], s.disk, DataSlot(bn))
    {
      assert Present(s, inum, bn);
      GrownAddr(l, s, t, inum, DataSlot(bn));
    }
  }

  // ----- What allocation logs -----

  ghost function NewBlocks(s0: Fs, s: Fs): (r: set<nat>) {
    s.owner.Keys - s0.owner.Keys
  }

  /** The bitmap blocks of the new blocks. */
  ghost function NewMaps(l: Layout, s0: Fs, s: Fs): (r: set<nat>) {
    set x | x in NewBlocks(s0, s) :: l.Bblock(x)
  }

  /** A new block number went into the indirect block. */
  ghost predicate NewEntry(s0: Fs, s: Fs) {
    exists x :: x in NewBlocks(s0, s) && s.owner[x].k > NDIRECT
  }

  /** What bmap passes to log_write as the file gets more blocks: those, their bitmap
      blocks, and the indirect block if it names one of them. */
  ghost function Alloced(l: Layout, s0: Fs, s: Fs, inum: nat): (r: set<nat>)
    requires inum < |s.inodes|
  {
    NewBlocks(s0, s) + NewMaps(l, s0, s) + if NewEntry(s0, s) then {s.inodes[inum].addrs[NDIRECT]} else {}
  }

  lemma AllocedNone(l: Layout, s0: Fs, s: Fs, inum: nat)
    requires inum < |s.inodes| && s.owner == s0.owner
    ensures Alloced(l, s0, s, inum) == {}
  {
    assert NewBlocks(s0, s) == {};
  }

  /** Blocks are kept from `a` to `b`, and the new ones are the file's. */
  ghost predicate OwnersGrow(a: Fs, b: Fs, inum: nat) {
    && (forall x :: x in a.owner ==> x in b.owner && b.owner[x] == a.owner[x])
    && (forall x :: x in b.owner && x !in a.owner ==> b.owner[x].inum == inum)
  }

  lemma AllocedMore(l: Layout, a: Fs, b: Fs, c: Fs, inum: nat)
    requires OwnersGrow(a, b, inum) && Grown(l, b, c, inum) && inum < |b.inodes| && inum < |c.inodes|
    ensures OwnersGrow(a, c, inum) && Alloced(l, a, c, inum) == Alloced(l, a, b, inum) + Alloced(l, b, c, inum)
  {
    hide FsOk;
    NewBlocksAdd(a, b, c, inum);
    assert NewMaps(l, a, c) == NewMaps(l, a, b) + NewMaps(l, b, c);
    if NewEntry(a, b) {
      var x :| x in NewBlocks(a, b) && b.owner[x].k > NDIRECT;
      assert x in NewBlocks(a, c) && c.owner[x].k > NDIRECT;
      RootStays(l, b, c, inum, x);
    }
    if NewEntry(b, c) {
      var x :| x in NewBlocks(b, c) && c.owner[x].k > NDIRECT;
      assert x in NewBlocks(a, c);
    }
    if NewEntry(a, c) {
      var x :| x in NewBlocks(a, c) && c.owner[x].k > NDIRECT;
      assert x in NewBlocks(a, b) || x in NewBlocks(b, c);
    }
  }

  lemma GrownOwners(l: Layout, a: Fs, b: Fs, inum: nat)
    requires Grown(l, a, b, inum)
    ensures OwnersGrow(a, b, inum)
  {}

  lemma NewBlocksAdd(a: Fs, b: Fs, c: Fs, inum: nat)
    requires OwnersGrow(a, b, inum) && SameBlocks(b, c, inum, {})
    ensures OwnersGrow(a, c, inum) && NewBlocks(a, c) == NewBlocks(a, b) + NewBlocks(b, c)
  {}

  lemma AllocedSame(l: Layout, a: Fs, b: Fs, c: Fs, inum: nat)
    requires b.owner == c.owner && b.inodes == c.inodes && inum < |b.inodes|
    ensures Alloced(l, a, c, inum) == Alloced(l, a, b, inum)
  {}

  /** One slot was filled. */
  lemma AllocedOne(l: Layout, a: Fs, b: Fs, inum: nat, k: nat, x: nat)
    requires x !in a.owner && b.owner == a.owner[x := Slot(inum, k)] && inum < |b.inodes|
    ensures Alloced(l, a, b, inum) == {l.Bblock(x), x} + (if k > NDIRECT then {b.inodes[inum].addrs[NDIRECT]} else {})
  {
    assert NewBlocks(a, b) == {x};
    assert NewMaps(l, a, b) == {l.Bblock(x)};
    if k > NDIRECT {
      assert x in NewBlocks(a, b) && b.owner[x].k > NDIRECT;
    }
  }

  // ----- Reading -----

  /** A read of `n` bytes from `offset` on into a destination that ends after `room`
      bytes, from state `s0` to `s`. It delivers what the file holds, and changes the
      contents of no file. It changes nothing at all, and logs nothing, if every block
      that it comes to is present or none is to be had; else it takes a new block and
      logs that block's bitmap block. */
  ghost predicate ReadResult(l: Layout, s0: Fs, before: set<nat>, s: Fs, logged: set<nat>, inum: nat, offset: nat,
      n: nat, room: nat, r: int, data: seq<Byte>)
    requires inum < |s0.inodes| && inum < |s.inodes|
  {
    && Grown(l, s0, s, inum) && logged == before + Alloced(l, s0, s, inum) && s.inodes[inum].size <= MAXFILE * BSIZE
    && Contents(s, inum) == Contents(s0, inum) && OthersKept(s0, s, inum) && (Solid(s0, inum) ==> Solid(s, inum))
    && |data| <= n && |data| <= room && offset + |data| <= Max(offset, s.inodes[inum].size)
    && (data != [] ==> data == Contents(s, inum)[offset..offset + |data|])
    && InodeStays(l, s0, s, inum, offset, Touched(n, room))
    && (r == -1 ==> n > room) && (r != -1 ==> r == |data| && (r == n || Full(l, s.disk)))
    && (AllPresent(s0, inum, offset, Touched(n, room)) ==> r == if n <= room then n else -1)
    && if AllPresent(s0, inum, offset, Touched(n, room)) || Full(l, s0.disk)
       then s == s0 && logged == before
       else exists x :: x in s.owner && x !in s0.owner && l.Bblock(x) in logged
  }

  /** The in-memory inode stays as it was if and only if it has a place for every block
      that the read comes to, or there is no block to be had. */
  ghost predicate InodeStays(l: Layout, s0: Fs, s: Fs, inum: nat, offset: nat, n: nat)
    requires inum < |s0.inodes|
  {
    s.inodes == s0.inodes <==> AllInMap(s0, inum, offset, n) || Full(l, s0.disk)
  }

  /** The state of readi's loop after `tot` bytes. */
  ghost predicate Reading(l: Layout, s0: Fs, before: set<nat>, s: Fs, logged: set<nat>, inum: nat, offset: nat,
      tot: nat, data: seq<Byte>) {
    && Grown(l, s0, s, inum) && logged == before + Alloced(l, s0, s, inum)
    && s0.inodes[inum].size <= MAXFILE * BSIZE && offset + tot <= s0.inodes[inum].size
    && |data| == tot && data == Contents(s0, inum)[offset..offset + tot]
    && InodeStays(l, s0, s, inum, offset, tot)
    && if AllPresent(s0, inum, offset, tot) then s == s0 && logged == before
       else !Full(l, s0.disk) && NewBlocks(s0, s) != {}
  }

  /** The same after bmap was asked for the block of the next byte. */
  ghost predicate Coming(l: Layout, s0: Fs, before: set<nat>, s: Fs, logged: set<nat>, inum: nat, offset: nat, tot: nat,
      m: nat, data: seq<Byte>, addr: nat)
  {
    && Grown(l, s0, s, inum) && logged == before + Alloced(l, s0, s, inum)
    && s0.inodes[inum].size <= MAXFILE * BSIZE && offset + tot + m <= s0.inodes[inum].size
    && |data| == tot && data == Contents(s0, inum)[offset..offset + tot] && (addr == 0 ==> Full(l, s.disk))
    && (if AllPresent(s0, inum, offset, tot + m) || Full(l, s0.disk) then s == s0 && logged == before
        else NewBlocks(s0, s) != {})
    && InodeStays(l, s0, s, inum, offset, tot + m) && (AllPresent(s0, inum, offset, tot + m) ==> addr != 0)
    && (addr != 0 && Full(l, s0.disk) ==> AllPresent(s0, inum, offset, tot + m))
  }

  lemma ReadingStart(l: Layout, s: Fs, logged: set<nat>, inum: nat, offset: nat)
    requires FsOk(l, s, {}) && inum < |s.inodes| && offset <= s.inodes[inum].size <= MAXFILE * BSIZE
    ensures Reading(l, s, logged, s, logged, inum, offset, 0, [])
  {
    hide FsOk, Addr;
    GrownNot(l, s, inum);
    AllocedNone(l, s, s, inum);
  }

  lemma ReadingMapped(l: Layout, s0: Fs, before: set<nat>, s: Fs, logged: set<nat>, inum: nat, offset: nat, tot: nat,
      data: seq<Byte>, t: Fs, logged': set<nat>, m: nat, addr: nat)
    requires Reading(l, s0, before, s, logged, inum, offset, tot, data) && Grown(l, s, t, inum)
    requires logged' == logged + Alloced(l, s, t, inum)
    requires 0 < m && offset + tot + m <= s0.inodes[inum].size && (offset + tot) % BSIZE + m <= BSIZE
    requires (tot > 0 ==> (offset + tot) % BSIZE == 0)
    requires addr == Addr(t.inodes[inum], t.disk, DataSlot((offset + tot) / BSIZE)) && (addr == 0 ==> Full(l, t.disk))
    requires
      if Addr(s.inodes[inum], s.disk, DataSlot((offset + tot) / BSIZE)) != 0 || Full(l, s.disk)
      then t == s && logged' == logged else exists x :: x in t.owner && x !in s.owner
    requires t.inodes == s.inodes <==> InMap(s, inum, (offset + tot) / BSIZE) || Full(l, s.disk)
    ensures Coming(l, s0, before, t, logged', inum, offset, tot, m, data, addr)
  {
    hide FsOk, Addr, Alloced, AllPresent, Contents, Full, SameBlocks, OwnersGrow, InodeStays, InMap;
    var k := DataSlot((offset + tot) / BSIZE);
    GrownOk(l, s0, s, inum);
    GrownOk(l, s, t, inum);
    GrownMore(l, s0, s, t, inum);
    GrownOwners(l, s0, s, inum);
    AllocedMore(l, s0, s, t, inum);
    NewStays(l, s0, s, t, inum);
    GrownAddr(l, s0, s, inum, k);
    GrownAddr(l, s, t, inum, k);
    PresentMore(s0, inum, offset, tot, m);
    FullStays(l, s0, s, t, inum);
    InodeMapped(l, s0, s, t, inum, offset, tot, m);
  }

  /** The same about the inode. */
  lemma InodeMapped(l: Layout, s0: Fs, s: Fs, t: Fs, inum: nat, offset: nat, tot: nat, m: nat)
    requires Grown(l, s0, s, inum) && Grown(l, s, t, inum) && InodeStays(l, s0, s, inum, offset, tot)
    requires AllPresent(s0, inum, offset, tot) || Full(l, s0.disk) ==> s == s0
    requires m > 0 && (offset + tot) % BSIZE + m <= BSIZE && (offset + tot) / BSIZE < MAXFILE
    requires inum < |s.inodes| && (t.inodes == s.inodes <==> InMap(s, inum, (offset + tot) / BSIZE) || Full(l, s.disk))
    ensures InodeStays(l, s0, t, inum, offset, tot + m)
  {
    hide FsOk, Addr, AllPresent, AllInMap, Full, SameBlocks, Grown;
    GrownOk(l, s0, s, inum);
    MoreBlocks(s0, inum, offset, tot, m);
    if t.inodes == s0.inodes {
      InodesGrow(l, s0, s, t, inum);
    }
    if AllInMap(s0, inum, offset, tot) && !InMap(s0, inum, (offset + tot) / BSIZE) {
      FirstMissing(s0, inum, offset, tot);
    }
  }

  /** The next chunk is there. */
  lemma ReadingChunk(l: Layout, s0: Fs, before: set<nat>, s: Fs, logged: set<nat>, inum: nat, offset: nat, tot: nat,
      m: nat, data: seq<Byte>, addr: nat)
    requires Coming(l, s0, before, s, logged, inum, offset, tot, m, data, addr) && addr != 0 && 0 < m
    requires addr == Addr(s.inodes[inum], s.disk, DataSlot((offset + tot) / BSIZE)) < |s.disk|
    requires (offset + tot) % BSIZE + m <= BSIZE
    ensures
      var at := (offset + tot) % BSIZE;
      Reading(l, s0, before, s, logged, inum, offset, tot + m, data + s.disk[addr][at..at + m])
  {
    hide FsOk, Addr, Alloced, AllPresent, Contents, Full, SameBlocks, OthersKept;
    GrownOk(l, s0, s, inum);
    GrownContents(l, s0, s, inum);
    ReadChunk(s, inum, offset, tot, data, m);
  }

  /** The end of the loop: all read, no block to be had, or a failed copy. */
  lemma ReadingEnds(l: Layout, s0: Fs, before: set<nat>, s: Fs, logged: set<nat>, inum: nat, offset: nat, n: nat,
      room: nat, data: seq<Byte>)
    requires Reading(l, s0, before, s, logged, inum, offset, n, data) && n <= room && inum < |s.inodes|
    ensures ReadResult(l, s0, before, s, logged, inum, offset, n, room, n, data)
  {
    hide FsOk, Addr, Alloced, AllPresent, AllInMap, Contents, Full, SameBlocks, OthersKept, NoHoles;
    GrownOk(l, s0, s, inum);
    GrownContents(l, s0, s, inum);
    SomeNew(l, s0, s, inum);
  }

  lemma ReadingStops(l: Layout, s0: Fs, before: set<nat>, s: Fs, logged: set<nat>, inum: nat, offset: nat, tot: nat,
      m: nat, data: seq<Byte>, addr: nat, n: nat, room: nat)
    requires Coming(l, s0, before, s, logged, inum, offset, tot, m, data, addr) && inum < |s.inodes|
    requires 0 < m && tot + m <= n && tot <= room && (offset + tot) % BSIZE + m <= BSIZE
    requires offset + n <= s0.inodes[inum].size
    requires addr == Addr(s.inodes[inum], s.disk, DataSlot((offset + tot) / BSIZE))
    ensures addr == 0 ==> ReadResult(l, s0, before, s, logged, inum, offset, n, room, tot, data)
    ensures addr != 0 && tot + m > room ==> ReadResult(l, s0, before, s, logged, inum, offset, n, room, -1, data)
  {
    hide FsOk, Addr, Alloced, AllPresent, Contents, Full, SameBlocks, OthersKept, NoHoles, InodeStays;
    GrownOk(l, s0, s, inum);
    GrownContents(l, s0, s, inum);
    SomeNew(l, s0, s, inum);
    TouchedHere(s0, inum, offset, tot, m, n, room);
    if addr == 0 || tot + m > room {
      InodeStops(l, s0, s, inum, offset, tot, m, n, room, addr);
    }
  }

  lemma InodeStops(l: Layout, s0: Fs, s: Fs, inum: nat, offset: nat, tot: nat, m: nat, n: nat, room: nat, addr: nat)
    requires inum < |s0.inodes| && inum < |s.inodes| && InodeStays(l, s0, s, inum, offset, tot + m)
    requires 0 < m && tot + m <= n && tot <= room && (offset + tot) % BSIZE + m <= BSIZE
    requires offset + n <= MAXFILE * BSIZE && (addr == 0 || tot + m > room)
    requires addr == Addr(s.inodes[inum], s.disk, DataSlot((offset + tot) / BSIZE))
    ensures InodeStays(l, s0, s, inum, offset, Touched(n, room))
  {
    hide AllInMap, Full;
    var t := Touched(n, room);
    MoreBlocks(s0, inum, offset, tot, m);
    if tot + m > room {
      MoreBlocks(s0, inum, offset, tot, t - tot);
    } else {
      InMapLess(s0, inum, offset, tot + m, t);
      if s.inodes == s0.inodes && AllInMap(s0, inum, offset, tot + m) {
        InMapOn(s0, inum, offset, tot, m, t);
      }
    }
  }

  /** A read that comes to nothing. */
  lemma ReadNothing(l: Layout, s: Fs, logged: set<nat>, inum: nat, offset: nat, room: nat)
    requires FsOk(l, s, {}) && inum < |s.inodes| && s.inodes[inum].size <= MAXFILE * BSIZE
    ensures ReadResult(l, s, logged, s, logged, inum, offset, 0, room, 0, [])
  {
    hide FsOk, Addr, Alloced, Contents, Full, SameBlocks, OthersKept, NoHoles;
    GrownNot(l, s, inum);
    AllocedNone(l, s, s, inum);
    GrownContents(l, s, s, inum);
  }

  lemma SomeNew(l: Layout, a: Fs, b: Fs, inum: nat)
    requires inum < |b.inodes|
    ensures NewBlocks(a, b) != {} ==> exists x :: x in b.owner && x !in a.owner && l.Bblock(x) in Alloced(l, a, b, inum)
  {
    if x :| x in NewBlocks(a, b) {
      assert l.Bblock(x) in NewMaps(l, a, b);
    }
  }

  lemma NewStays(l: Layout, a: Fs, b: Fs, c: Fs, inum: nat)
    requires Grown(l, a, b, inum) && Grown(l, b, c, inum)
    ensures NewBlocks(a, b) <= NewBlocks(a, c) && NewBlocks(b, c) <= NewBlocks(a, c)
    ensures (exists x :: x in c.owner && x !in b.owner) ==> NewBlocks(b, c) != {}
  {
    hide FsOk;
    if x :| x in c.owner && x !in b.owner {
      assert x in NewBlocks(b, c);
    }
  }

  /** A full disk stays full, and no file gets a block from it. */
  lemma FullStays(l: Layout, a: Fs, b: Fs, c: Fs, inum: nat)
    requires Grown(l, a, b, inum) && Grown(l, b, c, inum)
    ensures Full(l, a.disk) ==> NewBlocks(a, b) == {} && NewBlocks(a, c) == {}
  {
    NewBlocksAdd(a, b, c, inum) by { GrownOwners(l, a, b, inum); }
    if Full(l, a.disk) {
      NothingToHave(l, a, b, inum);
      GrownMore(l, a, b, c, inum);
      NothingToHave(l, a, c, inum);
    }
  }

  lemma NothingToHave(l: Layout, a: Fs, b: Fs, inum: nat)
    requires Grown(l, a, b, inum) && Full(l, a.disk)
    ensures NewBlocks(a, b) == {}
  {
    hide Addr, Held, Marked;
    forall x | x in b.owner
      ensures x in a.owner
    {
      assert l.nmeta <= x < l.size;
      assert Marked(l, a.disk, x);
    }
  }

  /** Reads of the first `n` bytes of a file one after another: no contents change, and
      nothing at all changes if and only if all blocks are present or none is to be had. */
  ghost predicate Searched(l: Layout, s0: Fs, before: set<nat>, s: Fs, logged: set<nat>, inum: nat, n: nat) {
    && Grown(l, s0, s, inum) && logged == before + Alloced(l, s0, s, inum)
    && n <= s0.inodes[inum].size <= MAXFILE * BSIZE && Contents(s, inum) == Contents(s0, inum)
    && OthersKept(s0, s, inum) && InodeStays(l, s0, s, inum, 0, n)
    && if AllPresent(s0, inum, 0, n) || Full(l, s0.disk) then s == s0 && logged == before
       else NewBlocks(s0, s) != {}
  }

  lemma SearchedNothing(l: Layout, s: Fs, logged: set<nat>, inum: nat)
    requires FsOk(l, s, {}) && inum < |s.inodes| && s.inodes[inum].size <= MAXFILE * BSIZE
    ensures Searched(l, s, logged, s, logged, inum, 0)
  {
    hide FsOk, Addr, Alloced, Contents, SameBlocks, NoHoles;
    GrownNot(l, s, inum);
    AllocedNone(l, s, s, inum);
    OthersKeptSelf(s, inum);
  }

  lemma SearchedMore(l: Layout, s0: Fs, before: set<nat>, s: Fs, logged: set<nat>, t: Fs, logged': set<nat>, inum: nat,
      offset: nat, n: nat, room: nat, r: int, data: seq<Byte>)
    requires Searched(l, s0, before, s, logged, inum, offset) && inum < |s.inodes| && inum < |t.inodes|
    requires ReadResult(l, s, logged, t, logged', inum, offset, n, room, r, data)
    requires 0 < n <= room && offset + n <= s0.inodes[inum].size && offset % BSIZE + n <= BSIZE
    ensures Searched(l, s0, before, t, logged', inum, offset + n)
    ensures Solid(s0, inum) ==> r == n
    ensures r != -1 && r != n ==> Full(l, t.disk) && !Solid(s0, inum)
  {
    hide FsOk, Addr, Alloced, Contents, SameBlocks, OthersKept, AllPresent, Full, OwnersGrow, InodeStays, NewBlocks;
    GrownOk(l, s0, s, inum);
    GrownMore(l, s0, s, t, inum);
    GrownOwners(l, s0, s, inum);
    AllocedMore(l, s0, s, t, inum);
    OthersKeptTrans(s0, s, t, inum);
    if Solid(s0, inum) {
      SolidIsPresent(s0, inum, 0, offset);
      SolidIsPresent(s0, inum, offset, Touched(n, room));
    }
    SearchedBlocks(l, s0, s, t, inum, offset, n);
    StaysHere(l, s, t, inum, offset, n);
    InodeMapped(l, s0, s, t, inum, 0, offset, n);
    if t == s0 {
      AllocedNone(l, s0, t, inum);
    }
  }

  /** A block number that only the inode in memory has: the block is marked as in use, but
      with the inodes as they were it is in nobody's block map. */
  lemma LostBlock(l: Layout, s0: Fs, s: Fs, inum: nat) returns (x: nat)
    requires Grown(l, s0, s, inum) && s.inodes != s0.inodes
    ensures l.nmeta <= x < l.size && Marked(l, s.disk, x)
    ensures forall i, k :: 0 <= i < |s0.inodes| && 0 <= k < SLOTS ==> Addr(s0.inodes[i], s.disk, k) != x
  {
    hide FsOk, Addr, SameBlocks, Marked;
    GrownOk(l, s0, s, inum);
    assert s.inodes[inum].addrs != s0.inodes[inum].addrs;
    var k :| 0 <= k < NDIRECT + 1 && s.inodes[inum].addrs[k] != s0.inodes[inum].addrs[k];
    InodeAddr(s0, inum, k);
    InodeAddr(s, inum, k);
    GrownAddr(l, s0, s, inum, k);
    x := s.inodes[inum].addrs[k];
    OwnedIsMarked(l, s, inum, k);
    forall i, j | 0 <= i < |s0.inodes| && 0 <= j < SLOTS
      ensures Addr(s0.inodes[i], s.disk, j) != x
    {
      NotInOldMaps(l, s0, s, inum, k, i, j);
    }
  }

  lemma InodeAddr(s: Fs, inum: nat, k: nat)
    requires inum < |s.inodes| && k <= NDIRECT
    ensures Addr(s.inodes[inum], s.disk, k) == s.inodes[inum].addrs[k]
  {}

  lemma OwnedIsMarked(l: Layout, s: Fs, inum: nat, k: nat)
    requires FsOk(l, s, {}) && inum < |s.inodes| && k < SLOTS && Addr(s.inodes[inum], s.disk, k) != 0
    ensures
      var x := Addr(s.inodes[inum], s.disk, k);
      l.nmeta <= x < l.size && Marked(l, s.disk, x) && x in s.owner && s.owner[x] == Slot(inum, k)
  {
    hide Addr, Marked;
  }

  lemma NotInOldMaps(l: Layout, s0: Fs, s: Fs, inum: nat, k: nat, i: nat, j: nat)
    requires Grown(l, s0, s, inum) && k <= NDIRECT && i < |s0.inodes| && j < SLOTS
    requires inum < |s.inodes| && s0.inodes[inum].addrs[k] == 0 != s.inodes[inum].addrs[k]
    ensures Addr(s0.inodes[i], s.disk, j) != s.inodes[inum].addrs[k]
  {
    hide FsOk, SameBlocks, Word;
    GrownOk(l, s0, s, inum);
    var x := s.inodes[inum].addrs[k];
    if Addr(s0.inodes[i], s.disk, j) == x {
      if i == inum {
        GrownAddr(l, s0, s, inum, NDIRECT);
        if j <= NDIRECT {
          GrownAddr(l, s0, s, inum, j);
        }
      }
      BlocksAreDistinct(l, s, {}, i, j, inum, k);
    }
  }

  /** A search of a file without holes changes nothing. */
  lemma SearchedSolid(l: Layout, s0: Fs, before: set<nat>, s: Fs, logged: set<nat>, inum: nat, n: nat)
    requires Searched(l, s0, before, s, logged, inum, n) && Solid(s0, inum)
    ensures s == s0 && logged == before
  {
    hide FsOk, Addr, Alloced, Contents, SameBlocks, OthersKept, AllPresent, Full, InodeStays, NewBlocks;
    SolidIsPresent(s0, inum, 0, n);
  }

  /** What that means for an inode that was on disk as it was in memory. */
  lemma LeftBehind(l: Layout, s0: Fs, s: Fs, inum: nat, offset: nat, n: nat)
    requires Grown(l, s0, s, inum) && InodeStays(l, s0, s, inum, offset, n)
    ensures inum < |s.inodes| == |s0.inodes|
    ensures s.inodes[inum] == s0.inodes[inum] <==> AllInMap(s0, inum, offset, n) || Full(l, s0.disk)
  {
    hide FsOk, SameBlocks, AllInMap, Full;
  }

  lemma ReadLeftBehind(l: Layout, s0: Fs, before: set<nat>, s: Fs, logged: set<nat>, inum: nat, offset: nat, n: nat,
      room: nat, r: int, data: seq<Byte>)
    requires inum < |s0.inodes| && inum < |s.inodes|
    requires ReadResult(l, s0, before, s, logged, inum, offset, n, room, r, data)
    ensures |s.inodes| == |s0.inodes|
    ensures n == 0 ==> r == 0 && data == []
    ensures AllPresent(s0, inum, offset, n) && n <= room && offset + n <= s0.inodes[inum].size <= MAXFILE * BSIZE ==>
      s == s0 && logged == before && r == n && data == Contents(s0, inum)[offset..offset + n]
    ensures AllPresent(s0, inum, offset, n) && n > room ==> s == s0 && logged == before && r == -1
    ensures s.inodes[inum] == s0.inodes[inum] <==> AllInMap(s0, inum, offset, Touched(n, room)) || Full(l, s0.disk)
  {
    hide FsOk, Addr, Alloced, Contents, Grown, OthersKept, AllInMap, Full, InodeStays, NoHoles;
    LeftBehind(l, s0, s, inum, offset, Touched(n, room));
    if AllPresent(s0, inum, offset, n) && n > room {
      assert AllPresent(s0, inum, offset, Touched(n, room));
    }
  }

  /** What a read delivers. */
  lemma ReadDelivers(l: Layout, s0: Fs, before: set<nat>, s: Fs, logged: set<nat>, inum: nat, offset: nat, n: nat,
      room: nat, r: int, data: seq<Byte>)
    requires inum < |s0.inodes| && inum < |s.inodes| && s0.inodes[inum].size <= MAXFILE * BSIZE
    requires ReadResult(l, s0, before, s, logged, inum, offset, n, room, r, data) && offset <= s0.inodes[inum].size
    ensures |data| <= n && (r == -1 ==> n > room) && (r != -1 ==> r == |data|)
    ensures offset + |data| <= s0.inodes[inum].size && data == Contents(s0, inum)[offset..offset + |data|]
    ensures s.inodes[inum].size == s0.inodes[inum].size
  {
    hide FsOk, Addr, Alloced, Contents, OthersKept, AllPresent, AllInMap, Full, InodeStays, NoHoles, SameBlocks;
    GrownOk(l, s0, s, inum);
  }

  lemma SearchLeftBehind(l: Layout, s0: Fs, before: set<nat>, s: Fs, logged: set<nat>, inum: nat, n: nat)
    requires Searched(l, s0, before, s, logged, inum, n)
    ensures inum < |s0.inodes| == |s.inodes| && s.inodes[inum].size == s0.inodes[inum].size <= MAXFILE * BSIZE
    ensures Contents(s, inum) == Contents(s0, inum)
    ensures s.inodes[inum] == s0.inodes[inum] <==> AllInMap(s0, inum, 0, n) || Full(l, s0.disk)
  {
    hide FsOk, Addr, Alloced, Contents, SameBlocks, OthersKept, AllPresent, AllInMap, Full, InodeStays, NewBlocks;
    LeftBehind(l, s0, s, inum, 0, n);
  }

  lemma StaysHere(l: Layout, s: Fs, t: Fs, inum: nat, offset: nat, n: nat)
    requires inum < |s.inodes| && 0 < n && offset % BSIZE + n <= BSIZE && InodeStays(l, s, t, inum, offset, n)
    ensures t.inodes == s.inodes <==> InMap(s, inum, offset / BSIZE) || Full(l, s.disk)
  {
    hide InMap, AllInMap, Full;
    OneChunk(s, inum, offset, n);
  }

  lemma OneChunk(s: Fs, inum: nat, offset: nat, n: nat)
    requires inum < |s.inodes| && 0 < n && offset % BSIZE + n <= BSIZE
    ensures AllInMap(s, inum, offset, n) <==> InMap(s, inum, offset / BSIZE)
    ensures AllPresent(s, inum, offset, n) <==> Present(s, inum, offset / BSIZE)
  {
    hide InMap, Present;
    MoreBlocks(s, inum, offset, 0, n);
  }

  lemma SearchedBlocks(l: Layout, s0: Fs, s: Fs, t: Fs, inum: nat, offset: nat, n: nat)
    requires Grown(l, s0, s, inum) && Grown(l, s, t, inum) && 0 < n && offset % BSIZE + n <= BSIZE
    requires if AllPresent(s0, inum, 0, offset) || Full(l, s0.disk) then s == s0 else NewBlocks(s0, s) != {}
    requires inum < |s.inodes|
    requires
      if AllPresent(s, inum, offset, n) || Full(l, s.disk) then t == s else exists x :: x in t.owner && x !in s.owner
    ensures if AllPresent(s0, inum, 0, offset + n) || Full(l, s0.disk) then t == s0 else NewBlocks(s0, t) != {}
  {
    hide FsOk, Addr, AllPresent, Full, SameBlocks, Present, InMap, AllInMap, Grown, NewBlocks;
    GrownOk(l, s0, s, inum);
    MoreBlocks(s0, inum, 0, offset, n);
    OneChunk(s, inum, offset, n);
    NewStays(l, s0, s, t, inum);
    NoneLost(s0, s, t);
  }

  lemma NoneLost(a: Fs, b: Fs, c: Fs)
    ensures NewBlocks(a, b) != {} && NewBlocks(a, b) <= NewBlocks(a, c) ==> NewBlocks(a, c) != {}
    ensures NewBlocks(b, c) != {} && NewBlocks(b, c) <= NewBlocks(a, c) ==> NewBlocks(a, c) != {}
  {
    hide NewBlocks;
  }

  // ----- Writing -----

  /** The number of blocks that `n` bytes from `offset` on lie in. */
  function Spanned(offset: nat, n: nat): (r: nat) {
    if n == 0 then 0 else (offset + n - 1) / BSIZE - offset / BSIZE + 1
  }

  /** The block after those of the first `n` bytes from `offset` on. */
  function End(offset: nat, n: nat): (hi: nat) {
    offset / BSIZE + Spanned(offset, n)
  }

  /** The next chunk lies in one more block. */
  lemma SpannedChunk(offset: nat, tot: nat, left: nat)
    requires left > 0 && (tot > 0 ==> (offset + tot) % BSIZE == 0)
    ensures End(offset, tot) == (offset + tot) / BSIZE
    ensures
      var m := Chunk(offset + tot, left);
      && End(offset, tot + m) == End(offset, tot) + 1 <= End(offset, tot + left)
      && (m < left ==> (offset + tot + m) % BSIZE == 0)
  {}

  lemma EndGrows(offset: nat, tot: nat, n: nat)
    requires tot <= n
    ensures End(offset, tot) <= End(offset, n)
    ensures offset + n <= MAXFILE * BSIZE && n > 0 ==> End(offset, n) <= MAXFILE
  {}

  /** The data block that slot `k` is for. */
  function SlotBlockNo(k: nat): (bn: nat)
    requires k != NDIRECT
  {
    if k < NDIRECT then k else k - 1
  }

  /** New data blocks are among those from `lo` to `hi` of the file. */
  ghost predicate NewData(s0: Fs, s: Fs, lo: nat, hi: nat) {
    forall x :: x in NewBlocks(s0, s) && s.owner[x].k != NDIRECT ==> lo <= SlotBlockNo(s.owner[x].k) < hi
  }

  /** What a write has passed to log_write after `tot` bytes. */
  ghost predicate Logs(l: Layout, s0: Fs, before: set<nat>, s: Fs, logged: set<nat>, inum: nat, offset: nat, tot: nat)
    requires inum < |s.inodes|
  {
    logged == before + Alloced(l, s0, s, inum) + FileBlocks(s, inum, offset / BSIZE, End(offset, tot))
  }

  /** The blocks so far: those of the first `tot` bytes are there, and new ones are
      among the first `hi`. */
  ghost predicate Laid(s0: Fs, s: Fs, inum: nat, offset: nat, tot: nat, hi: nat) {
    && inum < |s.inodes| && OwnersGrow(s0, s, inum) && NewData(s0, s, offset / BSIZE, hi)
    && PresentRange(s, inum, offset / BSIZE, End(offset, tot))
  }

  /** The state of writei's loop after `tot` bytes. */
  ghost predicate Writing(l: Layout, s0: Fs, before: set<nat>, s: Fs, logged: set<nat>, inum: nat, offset: nat,
      src: seq<Byte>, tot: nat)
  {
    && Laid(s0, s, inum, offset, tot, End(offset, tot)) && Logs(l, s0, before, s, logged, inum, offset, tot)
    && Written(l, s0, s, inum, offset, src, tot, FileBlocks(s, inum, offset / BSIZE, End(offset, tot)))
    && offset <= s0.inodes[inum].size && (0 < tot < |src| ==> (offset + tot) % BSIZE == 0)
    && Covered(s0.disk, s.disk, logged)
  }

  /** The same after bmap found `addr` for the next byte. */
  ghost predicate Mapped(l: Layout, s0: Fs, before: set<nat>, s: Fs, logged: set<nat>, inum: nat, offset: nat,
      src: seq<Byte>, tot: nat, addr: nat)
  {
    && tot < |src| && Laid(s0, s, inum, offset, tot, if addr == 0 then End(offset, tot) else End(offset, tot) + 1)
    && Logs(l, s0, before, s, logged, inum, offset, tot)
    && Written(l, s0, s, inum, offset, src, tot, FileBlocks(s, inum, offset / BSIZE, End(offset, tot)))
    && offset <= s0.inodes[inum].size && (0 < tot ==> (offset + tot) % BSIZE == 0)
    && addr == Addr(s.inodes[inum], s.disk, DataSlot((offset + tot) / BSIZE))
    && Covered(s0.disk, s.disk, logged)
  }

  lemma WritingStart(l: Layout, s: Fs, logged: set<nat>, inum: nat, offset: nat, src: seq<Byte>)
    requires FsOk(l, s, {}) && inum < |s.inodes| && s.inodes[inum].size <= MAXFILE * BSIZE
    requires offset <= s.inodes[inum].size && offset + |src| <= MAXFILE * BSIZE
    ensures Writing(l, s, logged, s, logged, inum, offset, src, 0)
  {
    hide FsOk, Addr, Written;
    WrittenNothing(l, s, inum, offset, src);
    AllocedNone(l, s, s, inum);
    assert FileBlocks(s, inum, offset / BSIZE, End(offset, 0)) == {};
    assert NewBlocks(s, s) == {};
    assert offset / BSIZE <= MAXFILE;
  }

  lemma WritingMapped(l: Layout, s0: Fs, before: set<nat>, s: Fs, logged: set<nat>, inum: nat, offset: nat,
      src: seq<Byte>, tot: nat, t: Fs, logged': set<nat>, addr: nat)
    requires Writing(l, s0, before, s, logged, inum, offset, src, tot) && tot < |src| && Grown(l, s, t, inum)
    requires addr == Addr(t.inodes[inum], t.disk, DataSlot((offset + tot) / BSIZE))
    requires logged' == logged + Alloced(l, s, t, inum) && Covered(s.disk, t.disk, logged')
    requires forall x :: x in t.owner && x !in s.owner ==>
      t.owner[x].k == NDIRECT || t.owner[x].k == DataSlot((offset + tot) / BSIZE)
    ensures Mapped(l, s0, before, t, logged', inum, offset, src, tot, addr)
  {
    hide FsOk, Addr, Written, SameBlocks, Covered, Chunk, Spanned, Alloced, FileBlocks, PresentRange, NewEntry, NewMaps;
    SpannedChunk(offset, tot, |src| - tot);
    var lo, hi := offset / BSIZE, End(offset, tot);
    GrownOk(l, s, t, inum);
    FileBlocksStay(l, s, t, inum, lo, hi);
    WrittenGrown(l, s0, s, t, inum, offset, src, tot, FileBlocks(s, inum, lo, hi));
    AllocedMore(l, s0, s, t, inum);
    CoveredTrans(s0.disk, s.disk, t.disk, logged, logged');
    NewDataMore(l, s0, s, t, inum, lo, hi, addr);
  }

  lemma WrittenGrown(l: Layout, s0: Fs, s: Fs, t: Fs, inum: nat, offset: nat, src: seq<Byte>, tot: nat,
      changed: set<nat>)
    requires Written(l, s0, s, inum, offset, src, tot, changed) && Grown(l, s, t, inum)
    ensures Written(l, s0, t, inum, offset, src, tot, changed)
  {
    hide FsOk, SameBlocks, WrittenBytes;
    WrittenMapped(l, s0, s, t, inum, offset, src, tot, changed);
  }

  lemma NewDataMore(l: Layout, s0: Fs, s: Fs, t: Fs, inum: nat, lo: nat, hi: nat, addr: nat)
    requires OwnersGrow(s0, s, inum) && NewData(s0, s, lo, hi) && Grown(l, s, t, inum) && lo <= hi < MAXFILE
    requires addr == Addr(t.inodes[inum], t.disk, DataSlot(hi))
    requires forall x :: x in t.owner && x !in s.owner ==> t.owner[x].k == NDIRECT || t.owner[x].k == DataSlot(hi)
    ensures NewData(s0, t, lo, if addr == 0 then hi else hi + 1)
  {
    hide Addr, Bits, Held;
    NewBlocksAdd(s0, s, t, inum);
  }

  /** The next chunk, copied and logged. */
  lemma WritingChunk(l: Layout, s0: Fs, before: set<nat>, s: Fs, logged: set<nat>, inum: nat, offset: nat,
      src: seq<Byte>, tot: nat, addr: nat, m: nat)
    requires Mapped(l, s0, before, s, logged, inum, offset, src, tot, addr) && addr != 0
    requires m == Chunk(offset + tot, |src| - tot)
    ensures addr < |s.disk|
    ensures
      var t := PatchBlock(s, addr, (offset + tot) % BSIZE, src[tot..tot + m]);
      FsOk(l, t, {}) && Writing(l, s0, before, t, logged + {addr}, inum, offset, src, tot + m)
  {
    hide Addr, FsOk, SameBlocks, WrittenBytes, Patch, Chunk, Spanned, Alloced, FileBlocks, PresentRange;
    SpannedChunk(offset, tot, |src| - tot);
    var lo, hi := offset / BSIZE, End(offset, tot);
    WrittenChunk(l, s0, s, inum, offset, src, tot, m, addr, FileBlocks(s, inum, lo, hi));
    var t := PatchBlock(s, addr, (offset + tot) % BSIZE, src[tot..tot + m]);
    Patched(l, s, t, inum, hi, addr, lo);
    AllocedSame(l, s0, s, t, inum);
    PatchCovered(s0.disk, s.disk, t.disk, logged, addr);
  }

  lemma PatchCovered(d0: seq<Block>, d: seq<Block>, d': seq<Block>, logged: set<nat>, addr: nat)
    requires Covered(d0, d, logged) && addr < |d| == |d'| && d' == d[addr := d'[addr]]
    ensures Covered(d0, d', logged + {addr})
    ensures Covered(d0, d', logged) <==> addr in logged || d'[addr] == d[addr]
  {}

  /** Overwriting the file's block `bn` leaves its block map alone. */
  lemma Patched(l: Layout, s: Fs, t: Fs, inum: nat, bn: nat, addr: nat, lo: nat)
    requires FsOk(l, s, {}) && inum < |s.inodes| && bn < MAXFILE
    requires addr == Addr(s.inodes[inum], s.disk, DataSlot(bn)) != 0
    requires addr < |s.disk| == |t.disk| && t == s.(disk := s.disk[addr := t.disk[addr]]) && lo <= bn
    requires PresentRange(s, inum, lo, bn)
    ensures FileBlocks(t, inum, lo, bn) == FileBlocks(s, inum, lo, bn)
    ensures FileBlocks(t, inum, lo, bn + 1) == FileBlocks(s, inum, lo, bn) + {addr}
    ensures PresentRange(t, inum, lo, bn + 1) && Addr(t.inodes[inum], t.disk, DataSlot(bn)) == addr
  {
    hide Addr, FsOk;
    assert Present(s, inum, bn);
    forall k | 0 <= k < SLOTS
      ensures Addr(t.inodes[inum], t.disk, k) == Addr(s.inodes[inum], s.disk, k)
    {
      PatchedAddr(l, s, t, inum, bn, addr, k);
    }
    forall b | lo <= b < bn + 1
      ensures Present(t, inum, b)
    {
      assert Present(s, inum, b);
    }
    FileBlocksMore(t, inum, lo, bn);
  }

  lemma PatchedAddr(l: Layout, s: Fs, t: Fs, inum: nat, bn: nat, addr: nat, k: nat)
    requires FsOk(l, s, {}) && inum < |s.inodes| && bn < MAXFILE
    requires addr == Addr(s.inodes[inum], s.disk, DataSlot(bn)) != 0
    requires addr < |s.disk| == |t.disk| && t == s.(disk := s.disk[addr := t.disk[addr]]) && k < SLOTS
    ensures Addr(t.inodes[inum], t.disk, k) == Addr(s.inodes[inum], s.disk, k)
  {
    hide Addr, Bits;
    RootedRange(l, s);
    SameAddrs(l, s, t.disk, {}, inum, k);
  }

  // ----- How the loop ends -----

  /** After the loop: `tot` bytes are written and logged, `seen` bytes are copied. */
  ghost predicate Looped(l: Layout, s0: Fs, before: set<nat>, s: Fs, logged: set<nat>, inum: nat, offset: nat,
      src: seq<Byte>, tot: nat, seen: nat, changed: set<nat>)
  {
    && tot <= seen <= |src| && Laid(s0, s, inum, offset, tot, End(offset, |src|))
    && Logs(l, s0, before, s, logged, inum, offset, tot)
    && Written(l, s0, s, inum, offset, src, seen, changed) && offset <= s0.inodes[inum].size
    && (0 < tot < |src| ==> (offset + tot) % BSIZE == 0)
  }

  /** Why and where a write of which `tot` bytes are accounted for ends: no block is to be
      had, or the chunk from there on is not readable, of which `torn` bytes came. */
  ghost predicate Ended(l: Layout, s: Fs, inum: nat, offset: nat, n: nat, tot: nat, seen: nat, readable: nat, torn: nat)
    requires inum < |s.inodes| && offset + n <= MAXFILE * BSIZE
  {
    && tot <= n && tot <= readable && (tot == n ==> seen == tot)
    && (tot < n ==>
          if Addr(s.inodes[inum], s.disk, DataSlot((offset + tot) / BSIZE)) == 0 then seen == tot && Full(l, s.disk)
          else
            var m := Chunk(offset + tot, n - tot);
            seen == tot + Min(torn, m) && tot + m > readable)
  }

  lemma ResizedEnded(l: Layout, s: Fs, inum: nat, offset: nat, n: nat, tot: nat, seen: nat, readable: nat, torn: nat,
      size: nat)
    requires inum < |s.inodes| && offset + n <= MAXFILE * BSIZE
    ensures Ended(l, s, inum, offset, n, tot, seen, readable, torn) <==>
      Ended(l, Resized(s, inum, size), inum, offset, n, tot, seen, readable, torn)
  {
    hide Full, Chunk;
    ResizedAddr(s, inum, size);
  }

  /** The copy failed in a block that the file already had and that was not logged,
      after it changed some byte of it. */
  ghost predicate Torn(s0: Fs, before: set<nat>, inum: nat, offset: nat, src: seq<Byte>, tot: nat, seen: nat)
    requires inum < |s0.inodes| && tot <= seen <= |src| && offset + |src| <= MAXFILE * BSIZE
  {
    && tot < |src|
    && (var a := Addr(s0.inodes[inum], s0.disk, DataSlot((offset + tot) / BSIZE)); a != 0 && a !in before)
    && !AlreadyThere(s0, inum, offset, src, tot, seen)
  }

  /** Bytes `tot` to `seen` of the source are what the file holds already. */
  ghost predicate AlreadyThere(s: Fs, inum: nat, offset: nat, src: seq<Byte>, tot: nat, seen: nat)
    requires inum < |s.inodes| && tot <= seen <= |src| && offset + |src| <= MAXFILE * BSIZE
  {
    forall i :: tot <= i < seen ==> src[i] == FileByte(s, inum, offset + i)
  }

  lemma NotTorn(s0: Fs, before: set<nat>, inum: nat, offset: nat, src: seq<Byte>, tot: nat)
    requires inum < |s0.inodes| && tot <= |src| && offset + |src| <= MAXFILE * BSIZE
    ensures !Torn(s0, before, inum, offset, src, tot, tot)
  {}

  lemma WritingEnds(l: Layout, s0: Fs, before: set<nat>, s: Fs, logged: set<nat>, inum: nat, offset: nat,
      src: seq<Byte>)
    requires Writing(l, s0, before, s, logged, inum, offset, src, |src|)
    ensures Looped(l, s0, before, s, logged, inum, offset, src, |src|, |src|,
      FileBlocks(s, inum, offset / BSIZE, End(offset, |src|)))
    ensures Covered(s0.disk, s.disk, logged)
  {}

  /** No block for the next byte: the disk is full. */
  lemma WritingStops(l: Layout, s0: Fs, before: set<nat>, s: Fs, logged: set<nat>, inum: nat, offset: nat,
      src: seq<Byte>, tot: nat)
    requires Mapped(l, s0, before, s, logged, inum, offset, src, tot, 0)
    ensures Looped(l, s0, before, s, logged, inum, offset, src, tot, tot,
      FileBlocks(s, inum, offset / BSIZE, End(offset, tot)))
    ensures Covered(s0.disk, s.disk, logged)
  {
    hide FsOk, Addr, Written, Covered, Alloced, FileBlocks, Spanned, Logs, PresentRange;
    EndGrows(offset, tot, |src|);
  }

  /** The data block of a failed copy is not a metadata block. */
  lemma TornBlock(l: Layout, s0: Fs, before: set<nat>, s: Fs, logged: set<nat>, inum: nat, offset: nat, src: seq<Byte>,
      tot: nat, addr: nat)
    requires Mapped(l, s0, before, s, logged, inum, offset, src, tot, addr) && addr != 0
    ensures l.nmeta <= addr
  {
    hide FsOk, Addr, WrittenBytes, Alloced, FileBlocks, Spanned, SameBlocks;
    SlotOwned(l, s, inum, DataSlot((offset + tot) / BSIZE));
  }

  /** Only part of the next chunk, copied and not logged. */
  lemma WritingTorn(l: Layout, s0: Fs, before: set<nat>, s: Fs, logged: set<nat>, inum: nat, offset: nat,
      src: seq<Byte>, tot: nat, addr: nat, got: nat)
    requires Mapped(l, s0, before, s, logged, inum, offset, src, tot, addr) && addr != 0
    requires got <= Chunk(offset + tot, |src| - tot)
    ensures addr < |s.disk|
    ensures
      var t := PatchBlock(s, addr, (offset + tot) % BSIZE, src[tot..tot + got]);
      && Looped(l, s0, before, t, logged, inum, offset, src, tot, tot + got,
           FileBlocks(s, inum, offset / BSIZE, End(offset, tot)) + {addr})
      && Strays(s0.disk, t.disk, logged, {addr})
      && Addr(t.inodes[inum], t.disk, DataSlot((offset + tot) / BSIZE)) == addr
      && (Covered(s0.disk, t.disk, logged) <==> !Torn(s0, before, inum, offset, src, tot, tot + got))
  {
    hide Addr, FsOk, SameBlocks, WrittenBytes, Patch, Chunk, Spanned, Alloced, FileBlocks, PresentRange, Torn, Covered;
    SpannedChunk(offset, tot, |src| - tot);
    var lo, hi := offset / BSIZE, End(offset, tot);
    WrittenChunk(l, s0, s, inum, offset, src, tot, got, addr, FileBlocks(s, inum, lo, hi));
    var bytes := src[tot..tot + got];
    var t := PatchBlock(s, addr, (offset + tot) % BSIZE, bytes);
    Patched(l, s, t, inum, hi, addr, lo);
    AllocedSame(l, s0, s, t, inum);
    PatchCovered(s0.disk, s.disk, t.disk, logged, addr);
    LaidMore(s0, s, t, inum, offset, tot, hi, End(offset, |src|));
    WhenTorn(l, s0, before, s, logged, inum, offset, src, tot, got, addr);
  }

  lemma LaidMore(s0: Fs, s: Fs, t: Fs, inum: nat, offset: nat, tot: nat, hi: nat, end: nat)
    requires Laid(s0, s, inum, offset, tot, hi + 1) && hi == End(offset, tot) && hi + 1 <= end
    requires t.owner == s.owner && t.inodes == s.inodes && PresentRange(t, inum, offset / BSIZE, hi + 1)
    ensures Laid(s0, t, inum, offset, tot, end)
  {
    hide Addr;
  }

  /** Whether the block of the failed copy is logged, and whether it changed. */
  lemma WhenTorn(l: Layout, s0: Fs, before: set<nat>, s: Fs, logged: set<nat>, inum: nat, offset: nat, src: seq<Byte>,
      tot: nat, got: nat, addr: nat)
    requires Mapped(l, s0, before, s, logged, inum, offset, src, tot, addr) && 0 < addr < |s.disk|
    requires got <= Chunk(offset + tot, |src| - tot)
    ensures
      var d := Patch(s.disk[addr], (offset + tot) % BSIZE, src[tot..tot + got]);
      addr in logged || d == s.disk[addr] <==> !Torn(s0, before, inum, offset, src, tot, tot + got)
  {
    hide Addr, FsOk, WrittenBytes, Patch, Spanned, FileBlocks, PresentRange, Chunk, Alloced, AlreadyThere, SameBlocks;
    SpannedChunk(offset, tot, |src| - tot);
    OldAddr(l, s0, s, inum, DataSlot((offset + tot) / BSIZE));
    AddrLogged(l, s0, before, s, logged, inum, offset, tot, addr);
    if addr in s0.owner && addr !in before {
      SameSizes(l, s0, s, s);
      PatchIsThere(s0, inum, offset, src, tot, got, addr);
    }
  }

  lemma PatchIsThere(s: Fs, inum: nat, offset: nat, src: seq<Byte>, tot: nat, got: nat, addr: nat)
    requires inum < |s.inodes| && tot + got <= |src| && offset + |src| <= MAXFILE * BSIZE && tot < |src|
    requires (offset + tot) % BSIZE + got <= BSIZE
    requires addr == Addr(s.inodes[inum], s.disk, DataSlot((offset + tot) / BSIZE)) != 0
    requires addr < |s.disk|
    ensures Patch(s.disk[addr], (offset + tot) % BSIZE, src[tot..tot + got]) == s.disk[addr] <==>
      AlreadyThere(s, inum, offset, src, tot, tot + got)
  {
    hide Addr, Patch;
    var off, b, bytes := offset + tot, s.disk[addr], src[tot..tot + got];
    PatchChanges(b, off % BSIZE, bytes);
    forall i | tot <= i < tot + got
      ensures src[i] == bytes[i - tot] && FileByte(s, inum, offset + i) == b[off % BSIZE + (i - tot)]
    {
      ChunkPosition(off, i - tot);
      assert offset + i == off + (i - tot);
    }
    if AlreadyThere(s, inum, offset, src, tot, tot + got) {
      forall j | 0 <= j < got
        ensures bytes[j] == b[off % BSIZE + j]
      {
        assert src[tot + j] == FileByte(s, inum, offset + (tot + j));
      }
    }
  }

  lemma PatchChanges(b: Block, at: nat, bytes: seq<Byte>)
    requires at + |bytes| <= BSIZE
    ensures Patch(b, at, bytes) == b <==> forall i :: 0 <= i < |bytes| ==> bytes[i] == b[at + i]
  {
    var d := Patch(b, at, bytes);
    if d == b {
      forall i | 0 <= i < |bytes|
        ensures bytes[i] == b[at + i]
      {
        assert d[at + i] == bytes[i];
      }
    }
  }

  /** The file had the block before, or it is new. */
  lemma OldAddr(l: Layout, s0: Fs, s: Fs, inum: nat, k: nat)
    requires FsOk(l, s0, {}) && FsOk(l, s, {}) && OwnersGrow(s0, s, inum) && inum < |s0.inodes| && inum < |s.inodes|
    requires k < SLOTS
    ensures
      var u, v := Addr(s0.inodes[inum], s0.disk, k), Addr(s.inodes[inum], s.disk, k);
      && (u != 0 ==> v == u) && (v != 0 ==> (u != 0 <==> v in s0.owner) && v in s.owner && s.owner[v] == Slot(inum, k))
  {
    hide Addr, Bits;
  }

  lemma AddrLogged(l: Layout, s0: Fs, before: set<nat>, s: Fs, logged: set<nat>, inum: nat, offset: nat, tot: nat,
      addr: nat)
    requires FsOk(l, s0, {}) && FsOk(l, s, {}) && Laid(s0, s, inum, offset, tot, End(offset, tot) + 1)
    requires inum < |s0.inodes|
    requires Logs(l, s0, before, s, logged, inum, offset, tot) && End(offset, tot) < MAXFILE
    requires addr == Addr(s.inodes[inum], s.disk, DataSlot(End(offset, tot))) != 0
    ensures addr in logged <==> addr in before || addr !in s0.owner
  {
    hide Addr, FsOk, FileBlocks, NewEntry, Spanned;
    var hi := End(offset, tot);
    assert Present(s, inum, hi);
    OldAddr(l, s0, s, inum, DataSlot(hi));
    NotAmong(l, s, inum, offset / BSIZE, hi);
    MapsAreMeta(l, s0, s, addr);
    RootIsNot(l, s, inum, DataSlot(hi), addr);
  }

  lemma MapsAreMeta(l: Layout, s0: Fs, s: Fs, addr: nat)
    requires FsOk(l, s, {})
    ensures forall b :: b in NewMaps(l, s0, s) ==> l.bmapstart <= b < l.nmeta
    ensures addr in s.owner ==> addr !in NewMaps(l, s0, s) && l.nmeta <= addr
  {
    hide Addr, Bits, Held;
    forall x | x in NewBlocks(s0, s)
      ensures l.bmapstart <= l.Bblock(x) < l.nmeta
    {
      BitmapIsMeta(l, x);
    }
  }

  lemma RootIsNot(l: Layout, s: Fs, inum: nat, k: nat, addr: nat)
    requires FsOk(l, s, {}) && inum < |s.inodes| && k < SLOTS && k != NDIRECT
    requires addr == Addr(s.inodes[inum], s.disk, k) != 0
    ensures addr != s.inodes[inum].addrs[NDIRECT]
  {
    hide Bits;
    assert Addr(s.inodes[inum], s.disk, NDIRECT) == s.inodes[inum].addrs[NDIRECT];
  }

  /** The size field has no part in any of this. */
  lemma ResizedLogs(l: Layout, s0: Fs, before: set<nat>, s: Fs, logged: set<nat>, inum: nat, offset: nat, tot: nat,
      hi: nat, size: nat)
    requires Laid(s0, s, inum, offset, tot, hi) && Logs(l, s0, before, s, logged, inum, offset, tot)
    ensures Laid(s0, Resized(s, inum, size), inum, offset, tot, hi)
    ensures Logs(l, s0, before, Resized(s, inum, size), logged, inum, offset, tot)
  {
    hide Spanned, NewEntry, NewMaps;
    var r := Resized(s, inum, size);
    ResizedAddr(s, inum, size);
    assert NewBlocks(s0, r) == NewBlocks(s0, s);
    assert Alloced(l, s0, r, inum) == Alloced(l, s0, s, inum) by { SameOwners(l, s0, s, r, inum); }
    SameRange(s, r, inum, offset / BSIZE, End(offset, tot));
  }

  lemma SameOwners(l: Layout, s0: Fs, s: Fs, r: Fs, inum: nat)
    requires r.owner == s.owner && inum < |s.inodes| && inum < |r.inodes|
    requires r.inodes[inum].addrs == s.inodes[inum].addrs
    ensures Alloced(l, s0, r, inum) == Alloced(l, s0, s, inum)
  {}

  lemma SameRange(s: Fs, r: Fs, inum: nat, lo: nat, hi: nat)
    requires inum < |s.inodes| && inum < |r.inodes|
    requires forall k :: 0 <= k < SLOTS ==> Addr(r.inodes[inum], r.disk, k) == Addr(s.inodes[inum], s.disk, k)
    ensures FileBlocks(r, inum, lo, hi) == FileBlocks(s, inum, lo, hi)
    ensures PresentRange(s, inum, lo, hi) ==> PresentRange(r, inum, lo, hi)
  {
    hide Addr;
    if PresentRange(s, inum, lo, hi) {
      forall bn | lo <= bn < hi
        ensures Present(r, inum, bn)
      {
        assert Present(s, inum, bn);
      }
    }
  }

  /** What writei has passed to log_write when it returns `tot`. */
  ghost predicate WriteLogs(l: Layout, s0: Fs, before: set<nat>, s: Fs, logged: set<nat>, inum: nat, offset: nat,
      tot: nat)
    requires inum < |s.inodes|
  {
    logged == before + Alloced(l, s0, s, inum) + FileBlocks(s, inum, offset / BSIZE, End(offset, tot)) +
      {l.Iblock(inum)}
  }

  /** How many blocks that is. */
  ghost predicate WriteSpaceOk(l: Layout, s0: Fs, before: set<nat>, s: Fs, logged: set<nat>, inum: nat, offset: nat,
      n: nat, tot: nat)
    requires inum < |s0.inodes|
  {
    && |logged - before| <= WriteSpace(offset, n, Solid(s0, inum))
    && (l.size <= BPB ==> |logged - before| <= Spanned(offset, n) + 3)
    && (l.size <= BPB && before == {} && tot == n ==>
          |logged| == Spanned(offset, n) + 1 + (if NewBlocks(s0, s) == {} then 0 else 1) +
            (if NewIndirect(s0, s) then 1 else 0))
  }

  lemma LoopFacts(l: Layout, s0: Fs, before: set<nat>, s: Fs, logged: set<nat>, inum: nat, offset: nat, src: seq<Byte>,
      tot: nat, seen: nat, changed: set<nat>)
    requires Looped(l, s0, before, s, logged, inum, offset, src, tot, seen, changed)
    requires s0.inodes[inum].size <= MAXFILE * BSIZE
    ensures inum < |s0.inodes| == |s.inodes| && tot <= seen <= |src|
    ensures (0 < tot < |src| ==> (offset + tot) % BSIZE == 0)
    ensures offset <= s0.inodes[inum].size == s.inodes[inum].size && offset + |src| <= MAXFILE * BSIZE
    ensures
      var size := Max(s0.inodes[inum].size, offset + tot);
      var r := Resized(s, inum, size);
      && FsOk(l, r, {}) && r.inodes == s0.inodes[inum := s0.inodes[inum].(addrs := s.inodes[inum].addrs, size := size)]
      && (Solid(s0, inum) ==> Solid(r, inum)) && size <= MAXFILE * BSIZE
      && Contents(r, inum) == AfterWrite(Contents(s0, inum), offset, src, tot, seen) && OthersKept(s0, r, inum)
  {
    hide FsOk, Addr, WrittenBytes, SameBlocks, Contents, AfterWrite, OthersKept, Laid, Logs, Spanned;
    WrittenEnd(l, s0, s, inum, offset, src, tot, seen, changed);
  }

  lemma LoopSpace(l: Layout, s0: Fs, before: set<nat>, s: Fs, logged: set<nat>, inum: nat, offset: nat, src: seq<Byte>,
      tot: nat, seen: nat, changed: set<nat>, r: Fs)
    requires Looped(l, s0, before, s, logged, inum, offset, src, tot, seen, changed) && inum < |s.inodes|
    requires exists size :: r == Resized(s, inum, size)
    requires FsOk(l, r, {})
    ensures OwnersGrow(s0, r, inum) && WriteLogs(l, s0, before, r, logged + {l.Iblock(inum)}, inum, offset, tot)
    ensures WriteSpaceOk(l, s0, before, r, logged + {l.Iblock(inum)}, inum, offset, |src|, tot)
  {
    hide FsOk, Addr, Spanned, Alloced, FileBlocks, WrittenBytes, SameBlocks, PresentRange, NewData, OwnersGrow;
    hide NewIndirect, WriteSpace;
    var size :| r == Resized(s, inum, size);
    ResizedLogs(l, s0, before, s, logged, inum, offset, tot, End(offset, |src|), size);
    SpaceUsed(l, s0, before, r, logged, inum, offset, |src|, tot, l.Iblock(inum));
    if l.size <= BPB && before == {} && tot == |src| {
      SpaceExact(l, s0, r, logged, inum, offset, |src|);
      var all := logged + {l.Iblock(inum)};
      assert all - {} == all;
    }
  }

  // ----- How much log space that is -----

  /** The blocks that a write may have to allocate: in a file without holes all
      but a first one that is entered in the middle. */
  function Fresh(offset: nat, n: nat, solid: bool): (r: nat) {
    if n == 0 || offset % BSIZE == 0 || !solid then Spanned(offset, n) else Spanned(offset, n) - 1
  }

  /** The log space of one writei at most: bitmap blocks for the fresh blocks and a new
      indirect block, the indirect block, data blocks, the inode's block. */
  function WriteSpace(offset: nat, n: nat, solid: bool): (r: nat) {
    Fresh(offset, n, solid) + 1 + 1 + Spanned(offset, n) + 1
  }

  ghost function NewDataBlocks(s0: Fs, s: Fs): (r: set<nat>) {
    set x | x in NewBlocks(s0, s) && s.owner[x].k != NDIRECT
  }

  lemma SpaceUsed(l: Layout, s0: Fs, before: set<nat>, s: Fs, logged: set<nat>, inum: nat, offset: nat, n: nat,
      tot: nat, b: nat)
    requires FsOk(l, s0, {}) && FsOk(l, s, {}) && inum < |s0.inodes| && Laid(s0, s, inum, offset, tot, End(offset, n))
    requires Logs(l, s0, before, s, logged, inum, offset, tot) && tot <= n && offset <= s0.inodes[inum].size
    requires offset + n <= MAXFILE * BSIZE
    ensures |logged + {b} - before| <= WriteSpace(offset, n, Solid(s0, inum))
    ensures l.size <= BPB ==> |logged + {b} - before| <= Spanned(offset, n) + 3
  {
    hide FsOk, Addr, Spanned, FileBlocks, NewEntry, NewMaps, PresentRange, NewData, NewDataBlocks, Fresh;
    var lo, hi, root := offset / BSIZE, End(offset, n), {s.inodes[inum].addrs[NDIRECT] as nat};
    var data, maps := FileBlocks(s, inum, lo, hi), NewMaps(l, s0, s);
    EndGrows(offset, tot, n);
    FileBlocksPart(s, inum, lo, End(offset, tot), hi);
    FileBlocksAtMost(s, inum, lo, hi);
    NewBlocksAre(l, s0, s, inum, offset, n);
    FreshOnes(l, s0, s, inum, offset, n);
    MapsCount(l, s0, s);
    var all := maps + root + data + {b};
    assert logged + {b} - before <= all;
    SubsetSize(logged + {b} - before, all);
    assert |all| <= |maps| + |root| + |data| + 1;
    assert |NewDataBlocks(s0, s) + root| <= |NewDataBlocks(s0, s)| + 1;
    SubsetSize(NewBlocks(s0, s), NewDataBlocks(s0, s) + root);
  }

  lemma {:induction false} FileBlocksAtMost(s: Fs, inum: nat, lo: nat, hi: nat)
    requires inum < |s.inodes| && lo <= hi
    ensures |FileBlocks(s, inum, lo, hi)| <= hi - lo
    decreases hi
  {
    hide Addr;
    if lo == hi {
      assert FileBlocks(s, inum, lo, hi) == {};
    } else {
      FileBlocksAtMost(s, inum, lo, hi - 1);
      if hi - 1 < MAXFILE {
        FileBlocksMore(s, inum, lo, hi - 1);
      } else {
        assert FileBlocks(s, inum, lo, hi) == FileBlocks(s, inum, lo, hi - 1);
      }
    }
  }

  lemma FileBlocksPart(s: Fs, inum: nat, lo: nat, mid: nat, hi: nat)
    requires inum < |s.inodes| && mid <= hi
    ensures FileBlocks(s, inum, lo, mid) <= FileBlocks(s, inum, lo, hi)
  {
    hide Addr;
  }

  /** A new block is the indirect block or a data block. */
  lemma NewBlocksAre(l: Layout, s0: Fs, s: Fs, inum: nat, offset: nat, n: nat)
    requires FsOk(l, s, {}) && inum < |s.inodes| && OwnersGrow(s0, s, inum)
    requires NewData(s0, s, offset / BSIZE, End(offset, n))
    requires offset + n <= MAXFILE * BSIZE
    ensures NewBlocks(s0, s) <= NewDataBlocks(s0, s) + {s.inodes[inum].addrs[NDIRECT] as nat}
    ensures NewDataBlocks(s0, s) <= FileBlocks(s, inum, offset / BSIZE, End(offset, n))
  {
    hide Bits, Held, Spanned;
    forall x | x in NewBlocks(s0, s)
      ensures if s.owner[x].k == NDIRECT then x == s.inodes[inum].addrs[NDIRECT]
              else x in FileBlocks(s, inum, offset / BSIZE, End(offset, n))
    {
      NewBlockIs(l, s0, s, inum, offset, n, x);
    }
  }

  lemma NewBlockIs(l: Layout, s0: Fs, s: Fs, inum: nat, offset: nat, n: nat, x: nat)
    requires FsOk(l, s, {}) && inum < |s.inodes| && OwnersGrow(s0, s, inum)
    requires NewData(s0, s, offset / BSIZE, End(offset, n))
    requires offset + n <= MAXFILE * BSIZE && x in NewBlocks(s0, s)
    ensures s.owner[x].inum == inum && s.owner[x].k < SLOTS && Addr(s.inodes[inum], s.disk, s.owner[x].k) == x
    ensures if s.owner[x].k == NDIRECT then x == s.inodes[inum].addrs[NDIRECT]
            else
              var bn := SlotBlockNo(s.owner[x].k);
              && offset / BSIZE <= bn < End(offset, n) && bn < MAXFILE && DataSlot(bn) == s.owner[x].k
              && x in FileBlocks(s, inum, offset / BSIZE, End(offset, n))
  {
    hide Bits, Held, Spanned;
  }

  /** At most so many of the data blocks are new. */
  lemma FreshOnes(l: Layout, s0: Fs, s: Fs, inum: nat, offset: nat, n: nat)
    requires FsOk(l, s0, {}) && FsOk(l, s, {}) && inum < |s0.inodes| && inum < |s.inodes| && OwnersGrow(s0, s, inum)
    requires NewData(s0, s, offset / BSIZE, End(offset, n)) && offset <= s0.inodes[inum].size
    requires offset + n <= MAXFILE * BSIZE
    ensures |NewDataBlocks(s0, s)| <= Fresh(offset, n, Solid(s0, inum))
  {
    hide FsOk, Addr, Spanned, FileBlocks, OwnersGrow, NewData;
    var lo, hi, news := offset / BSIZE, End(offset, n), NewDataBlocks(s0, s);
    NewBlocksAre(l, s0, s, inum, offset, n);
    FileBlocksAtMost(s, inum, lo, hi);
    SubsetSize(news, FileBlocks(s, inum, lo, hi));
    if n > 0 && offset % BSIZE != 0 && Solid(s0, inum) {
      assert lo * BSIZE < offset;
      EndGrows(offset, 1, n);
      assert End(offset, 1) == lo + 1 by { OneByte(offset); }
      forall x | x in news
        ensures x in FileBlocks(s, inum, lo + 1, hi)
      {
        FirstIsOld(l, s0, s, inum, offset, n, x);
      }
      FileBlocksAtMost(s, inum, lo + 1, hi);
      SubsetSize(news, FileBlocks(s, inum, lo + 1, hi));
    }
  }

  lemma OneByte(offset: nat)
    ensures End(offset, 1) == offset / BSIZE + 1
  {}

  lemma FirstIsOld(l: Layout, s0: Fs, s: Fs, inum: nat, offset: nat, n: nat, x: nat)
    requires FsOk(l, s0, {}) && FsOk(l, s, {}) && inum < |s0.inodes| && inum < |s.inodes| && OwnersGrow(s0, s, inum)
    requires NewData(s0, s, offset / BSIZE, End(offset, n)) && offset + n <= MAXFILE * BSIZE
    requires x in NewDataBlocks(s0, s)
    requires offset / BSIZE < MAXFILE && Addr(s0.inodes[inum], s0.disk, DataSlot(offset / BSIZE)) != 0
    ensures x in FileBlocks(s, inum, offset / BSIZE + 1, End(offset, n))
  {
    hide FsOk, Addr, Spanned;
    NewBlockIs(l, s0, s, inum, offset, n, x);
    OldAddr(l, s0, s, inum, DataSlot(offset / BSIZE));
    var bn := SlotBlockNo(s.owner[x].k);
    assert bn != offset / BSIZE;
    assert Addr(s.inodes[inum], s.disk, DataSlot(bn)) == x;
  }

  /** One bitmap block for each new block at most, and with one bitmap block no more
      than that. */
  lemma MapsCount(l: Layout, s0: Fs, s: Fs)
    requires FsOk(l, s, {})
    ensures |NewMaps(l, s0, s)| <= |NewBlocks(s0, s)|
    ensures l.size <= BPB ==> NewMaps(l, s0, s) <= {l.bmapstart} && |NewMaps(l, s0, s)| <= 1
  {
    hide FsOk;
    ImageCount(l, NewBlocks(s0, s));
    if l.size <= BPB {
      OnlyMap(l, s0, s);
      SubsetSize(NewMaps(l, s0, s), {l.bmapstart});
    }
  }

  lemma OnlyMap(l: Layout, s0: Fs, s: Fs)
    requires FsOk(l, s, {}) && l.size <= BPB
    ensures NewMaps(l, s0, s) <= {l.bmapstart}
  {
    hide Bits, Held;
    RootedRange(l, s);
    forall x | x in NewBlocks(s0, s)
      ensures l.Bblock(x) == l.bmapstart
    {
      assert x < BPB && x / BPB == 0;
    }
  }

  lemma {:induction false} ImageCount(l: Layout, a: set<nat>)
    ensures |set x | x in a :: l.Bblock(x)| <= |a|
    decreases a
  {
    var image := set x | x in a :: l.Bblock(x);
    if y :| y in a {
      ImageCount(l, a - {y});
      var rest := set x | x in a - {y} :: l.Bblock(x);
      assert image <= rest + {l.Bblock(y)};
      SubsetSize(image, rest + {l.Bblock(y)});
    } else {
      assert image == {};
    }
  }

  /** filewrite's unit fits an operation at every offset: in a file without holes
      however many bitmap blocks there are, and with one bitmap block in any file.
      Else it can be one block too many. */
  lemma UnitFits(offset: nat, n: nat)
    requires n <= WRITE_MAX
    ensures WriteSpace(offset, n, true) <= LogSpec.MAXOPBLOCKS
    ensures WriteSpace(offset, n, false) <= LogSpec.MAXOPBLOCKS + 1
    ensures Spanned(offset, n) + 3 <= LogSpec.MAXOPBLOCKS
  {}

  /** What an operation of filewrite logs at most. */
  ghost function OpLimit(l: Layout, s: Fs, inum: nat): (r: nat)
    requires inum < |s.inodes|
  {
    if Solid(s, inum) || l.size <= BPB then LogSpec.MAXOPBLOCKS else LogSpec.MAXOPBLOCKS + 1
  }

  /** The unit that a disk with one bitmap block would allow. */
  const ONE_MAP_MAX := (LogSpec.MAXOPBLOCKS - 4) * BSIZE + 1

  lemma OneMapUnit(n: nat)
    ensures n <= ONE_MAP_MAX <==> forall offset: nat :: Spanned(offset, n) + 3 <= LogSpec.MAXOPBLOCKS
  {
    if n <= ONE_MAP_MAX {
      forall offset: nat
        ensures Spanned(offset, n) + 3 <= LogSpec.MAXOPBLOCKS
      {}
    } else {
      assert Spanned(BSIZE - 1, n) + 3 > LogSpec.MAXOPBLOCKS;
    }
  }

  /** The indirect block is new or names a new block. */
  ghost predicate NewIndirect(s0: Fs, s: Fs) {
    exists x :: x in NewBlocks(s0, s) && s.owner[x].k >= NDIRECT
  }

  /** With one bitmap block, what a complete write logs on its own, exactly: the data
      blocks, the inode's block, the bitmap if a block is new, the indirect block if
      it is new or names a new one. */
  lemma SpaceExact(l: Layout, s0: Fs, s: Fs, logged: set<nat>, inum: nat, offset: nat, n: nat)
    requires FsOk(l, s0, {}) && FsOk(l, s, {}) && inum < |s0.inodes| && Laid(s0, s, inum, offset, n, End(offset, n))
    requires Logs(l, s0, {}, s, logged, inum, offset, n) && offset + n <= MAXFILE * BSIZE && l.size <= BPB
    ensures |logged + {l.Iblock(inum)}| ==
      Spanned(offset, n) + 1 + (if NewBlocks(s0, s) == {} then 0 else 1) + (if NewIndirect(s0, s) then 1 else 0)
  {
    hide FsOk, Spanned, Laid, Logs, NewMaps, NewIndirect, NewBlocks;
    var data, root, maps := LogsParts(l, s0, s, logged, inum, offset, n);
    InodeIsMeta(l, s, inum);
    UnionCount(data, root, maps, l.Iblock(inum));
  }

  /** The three kinds of blocks that such a write logs beside the inode's. */
  lemma LogsParts(l: Layout, s0: Fs, s: Fs, logged: set<nat>, inum: nat, offset: nat, n: nat)
    returns (data: set<nat>, root: set<nat>, maps: set<nat>)
    requires FsOk(l, s0, {}) && FsOk(l, s, {}) && inum < |s0.inodes| && Laid(s0, s, inum, offset, n, End(offset, n))
    requires Logs(l, s0, {}, s, logged, inum, offset, n) && offset + n <= MAXFILE * BSIZE && l.size <= BPB
    ensures inum < |s.inodes| && logged == data + root + maps && data !! root && (data + root) !! maps
    ensures |data| == Spanned(offset, n) && |root| == (if NewIndirect(s0, s) then 1 else 0)
    ensures |maps| == if NewBlocks(s0, s) == {} then 0 else 1
    ensures (forall x :: x in data + root ==> l.nmeta <= x) && forall x :: x in maps ==> x == l.bmapstart
  {
    hide FsOk, Addr, Spanned, PresentRange, NewData, OwnersGrow, FileBlocks, NewBlocks, NewEntry, NewIndirect;
    hide NewDataBlocks, Alloced;
    var lo, hi := offset / BSIZE, End(offset, n);
    data, maps := FileBlocks(s, inum, lo, hi), NewMaps(l, s0, s);
    root := if NewIndirect(s0, s) then {s.inodes[inum].addrs[NDIRECT] as nat} else {};
    FileBlocksCount(l, s, inum, lo, hi);
    NewBlocksAre(l, s0, s, inum, offset, n);
    IndirectIs(l, s0, s, inum, offset, n);
    LogsAre(l, s0, s, logged, inum, data, maps, root);
    OneMap(l, s0, s);
    DataIsData(l, s, inum, lo, hi);
    Apart(data, root, maps, l.nmeta, l.bmapstart, s.inodes[inum].addrs[NDIRECT]);
  }

  lemma Apart(data: set<nat>, root: set<nat>, maps: set<nat>, nmeta: nat, bitmap: nat, addr: nat)
    requires bitmap < nmeta && (maps == {} || maps == {bitmap}) && (root == {} || (root == {addr} && nmeta <= addr))
    requires forall x :: x in data ==> nmeta <= x && x != addr
    ensures data !! root && (data + root) !! maps
    ensures (forall x :: x in data + root ==> nmeta <= x) && forall x :: x in maps ==> x == bitmap
  {}

  lemma LogsAre(l: Layout, s0: Fs, s: Fs, logged: set<nat>, inum: nat, data: set<nat>, maps: set<nat>, root: set<nat>)
    requires inum < |s.inodes| && logged == {} + Alloced(l, s0, s, inum) + data && maps == NewMaps(l, s0, s)
    requires NewBlocks(s0, s) <= NewDataBlocks(s0, s) + {s.inodes[inum].addrs[NDIRECT] as nat}
    requires NewDataBlocks(s0, s) <= data
    requires root == if NewIndirect(s0, s) then {s.inodes[inum].addrs[NDIRECT] as nat} else {}
    requires s.inodes[inum].addrs[NDIRECT] in NewBlocks(s0, s) || NewEntry(s0, s) <==> NewIndirect(s0, s)
    ensures logged == data + root + maps
  {
    hide NewMaps, NewEntry, NewIndirect, NewDataBlocks;
  }

  lemma UnionCount(data: set<nat>, root: set<nat>, maps: set<nat>, b: nat)
    requires data !! root && (data + root) !! maps && b !in data + root + maps
    ensures |data + root + maps + {b}| == |data| + |root| + |maps| + 1
  {
    assert |data + root| == |data| + |root|;
    assert |data + root + maps| == |data + root| + |maps|;
  }

  lemma IndirectIs(l: Layout, s0: Fs, s: Fs, inum: nat, offset: nat, n: nat)
    requires FsOk(l, s, {}) && inum < |s.inodes| && OwnersGrow(s0, s, inum)
    requires NewData(s0, s, offset / BSIZE, End(offset, n))
    requires offset + n <= MAXFILE * BSIZE
    ensures
      var root: nat := s.inodes[inum].addrs[NDIRECT];
      && (root in NewBlocks(s0, s) || NewEntry(s0, s) <==> NewIndirect(s0, s))
      && (NewIndirect(s0, s) ==> l.nmeta <= root)
  {
    hide Bits, Spanned;
    var root: nat := s.inodes[inum].addrs[NDIRECT];
    if NewIndirect(s0, s) {
      var x :| x in NewBlocks(s0, s) && s.owner[x].k >= NDIRECT;
      NewBlockIs(l, s0, s, inum, offset, n, x);
      IndirectRootOwned(l, s, {}, inum);
    }
    if root in NewBlocks(s0, s) {
      IndirectRootOwned(l, s, {}, inum);
    }
  }

  lemma OneMap(l: Layout, s0: Fs, s: Fs)
    requires FsOk(l, s, {}) && l.size <= BPB
    ensures NewMaps(l, s0, s) == if NewBlocks(s0, s) == {} then {} else {l.bmapstart}
    ensures l.bmapstart < l.nmeta
  {
    hide Bits, Held, Addr, Rooted, Loose, Marked;
    RootedRange(l, s);
    MapsCount(l, s0, s);
    if x :| x in NewBlocks(s0, s) {
      assert l.Bblock(x) in NewMaps(l, s0, s);
    }
  }

  lemma InodeIsMeta(l: Layout, s: Fs, inum: nat)
    requires FsOk(l, s, {}) && inum < |s.inodes|
    ensures l.Iblock(inum) < l.bmapstart < l.nmeta
  {
    assert inum / IPB <= l.ninodes / IPB;
  }

  lemma DataIsData(l: Layout, s: Fs, inum: nat, lo: nat, hi: nat)
    requires FsOk(l, s, {}) && inum < |s.inodes| && PresentRange(s, inum, lo, hi)
    ensures forall x :: x in FileBlocks(s, inum, lo, hi) ==> l.nmeta <= x && x != s.inodes[inum].addrs[NDIRECT]
  {
    hide FsOk, Addr;
    forall bn | lo <= bn < hi
      ensures
        var x := Addr(s.inodes[inum], s.disk, DataSlot(bn));
        l.nmeta <= x && x != s.inodes[inum].addrs[NDIRECT]
    {
      assert Present(s, inum, bn);
      SlotOwned(l, s, inum, DataSlot(bn));
      RootIsNot(l, s, inum, DataSlot(bn), Addr(s.inodes[inum], s.disk, DataSlot(bn)));
    }
  }

  lemma {:induction false} SubsetSize(a: set<nat>, b: set<nat>)
    requires a <= b
    ensures |a| <= |b|
    decreases b
  {
    if x :| x in b {
      SubsetSize(a - {x}, b - {x});
    }
  }
}
