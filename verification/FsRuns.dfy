/** Runs of the file system on images that mkfs makes, in which its limits show. */
module FsRuns {
  import opened Blocks
  import opened Bitmap
  import opened FsSpec
  import opened FsLog
  import opened DirSpec
  import opened FileSystem
  import Mkfs
  import LogSpec

  /** The image that mkfs makes of the given files. */
  ghost predicate ImageOf(s: Fs, files: seq<Mkfs.File>) {
    && FsOk(Mkfs.XV6, s, {}) && Mkfs.ROOTINO < |s.inodes| && s.others == {}
    && (forall i :: 0 <= i < |files| ==> Mkfs.Stored(s, files, i))
    && s.inodes[Mkfs.ROOTINO].size == Mkfs.RoundedSize((|files| + 2) * DIRENT)
    && (s.inodes[Mkfs.ROOTINO].size <= MAXFILE * BSIZE ==> Mkfs.RootHolds(s, files))
    && Mkfs.Exact(s, Mkfs.ROOTINO, Mkfs.BlocksFor((|files| + 2) * DIRENT))
    && var free := 46 + Mkfs.Uses(Mkfs.BlocksFor((|files| + 2) * DIRENT)) + Mkfs.Total(files, |files|);
       forall x :: x in s.owner <==> 46 <= x < free
  }

  /** Mount the image of the given files. */
  method Mount(files: seq<Mkfs.File>) returns (fs: FileSys)
    requires Mkfs.Fits(Mkfs.XV6, files)
    ensures fresh(fs) && fs.Valid() && fs.l == Mkfs.XV6 && fs.logged == {} && ImageOf(fs.S(), files)
    ensures fs.dinodes == fs.inodes
  {
    hide FsOk, Mkfs.Exact, Mkfs.BlocksFor, Mkfs.Uses, Mkfs.Stored, Mkfs.RoundedSize, Mkfs.RootHolds, NoHoles;
    hide Mkfs.Total, Mkfs.Fits;
    var img := Mkfs.MakeImage(Mkfs.XV6, files);
    fs := new FileSys(img.l, img.disk, img.inodes, img.owner);
    assert fs.S() == img.S();
  }

  /** A disk with an unowned data block is not full. */
  lemma NotFull(l: Layout, s: Fs, b: nat)
    requires FsOk(l, s, {}) && l.nmeta <= b < l.size && b !in s.owner && b !in s.others
    ensures !Full(l, s.disk)
  {
    hide Held, Rooted, Marked;
    assert !Marked(l, s.disk, b);
  }

  /** With 62 files, whatever a read of the last entry of the root directory comes to,
      it passes blocks to log_write, although no operation has begun. */
  lemma HoleIsLogged(s0: Fs, s: Fs, logged: set<nat>, r: int, data: seq<Byte>)
    requires ImageOf(s0, Mkfs.EmptyFiles(62)) && Mkfs.ROOTINO < |s.inodes|
    requires ReadResult(Mkfs.XV6, s0, {}, s, logged, Mkfs.ROOTINO, 2032, 16, 16, r, data)
    ensures logged != {}
  {
    hide FsOk, Addr, Full, Grown, Alloced, Contents, OthersKept, NoHoles, Mkfs.Total, Mkfs.Stored;
    hide AllPresent, Mkfs.Exact;
    Mkfs.NothingUsed(Mkfs.EmptyFiles(62), 62);
    assert 47 !in s0.owner;
    NotFull(Mkfs.XV6, s0, 47);
    SecondBlockMissing(s0);
  }

  /** Such a read, from the image on. */
  method ReadOfHoleLogs() returns (fs: FileSys, r: int, data: seq<Byte>, ghost s0: Fs)
    ensures fresh(fs) && ImageOf(s0, Mkfs.EmptyFiles(62)) && Mkfs.ROOTINO < |fs.inodes|
    ensures ReadResult(Mkfs.XV6, s0, {}, fs.S(), fs.logged, Mkfs.ROOTINO, 2032, 16, 16, r, data)
    ensures fs.logged != {}
  {
    hide FsOk, ReadResult, NoHoles, Mkfs.Fits, Mkfs.Stored, Mkfs.Exact;
    Mkfs.HoleIsReachable();
    fs := Mount(Mkfs.EmptyFiles(62));
    s0 := fs.S();
    r, data := fs.Readi(Mkfs.ROOTINO, 2032, 16, 16);
    HoleIsLogged(s0, fs.S(), fs.logged, r, data);
  }

  lemma SecondBlockMissing(s: Fs)
    requires Mkfs.ROOTINO < |s.inodes| && Mkfs.Exact(s, Mkfs.ROOTINO, Mkfs.BlocksFor(1024))
    ensures !AllPresent(s, Mkfs.ROOTINO, 2032, Touched(16, 16))
    ensures forall n :: n > 1024 ==> !AllInMap(s, Mkfs.ROOTINO, 0, n)
    ensures forall n :: n <= 1024 ==> AllPresent(s, Mkfs.ROOTINO, 0, n)
  {
    hide Addr;
    DirectAddr(s, Mkfs.ROOTINO, 1);
    assert !Present(s, Mkfs.ROOTINO, 1) && !InMap(s, Mkfs.ROOTINO, 1);
    assert DataSlot(0) == 0;
  }

  /** With 62 files, a lookup of a name that is not there, as namex does it within an
      operation, leaves the root's inode on disk behind the one in memory: a block is
      marked as in use that no inode on disk has. */
  method LookupLeavesInodeBehind() returns (fs: FileSys, ghost s0: Fs, ghost x: nat)
    ensures fresh(fs) && ImageOf(s0, Mkfs.EmptyFiles(62)) && fs.Valid() && fs.l == Mkfs.XV6
    ensures fs.dinodes == s0.inodes && Mkfs.ROOTINO < |fs.inodes| && !fs.Synced(Mkfs.ROOTINO)
    ensures fs.l.nmeta <= x && Marked(fs.l, fs.disk, x)
    ensures forall i, k :: 0 <= i < |fs.dinodes| && 0 <= k < SLOTS ==> Addr(fs.dinodes[i], fs.disk, k) != x
  {
    hide FsOk, Addr, Marked, Mkfs.Fits, Mkfs.Stored, Mkfs.Exact, Mkfs.RootHolds, Searched, AllInMap, AllPresent;
    hide Full, Contents, NoHoles, Mkfs.Total, Lookup;
    Mkfs.HoleIsReachable();
    fs := Mount(Mkfs.EmptyFiles(62));
    s0 := fs.S();
    Mkfs.NothingUsed(Mkfs.EmptyFiles(62), 62);
    assert 47 !in s0.owner;
    NotFull(fs.l, s0, 47);
    SecondBlockMissing(s0);
    NotInRoot(s0);
    var ok, inum, off := fs.Dirlookup(Mkfs.ROOTINO, [98]);
    ghost var n := Min(off + DIRENT, 2048);
    SearchLeftBehind(fs.l, s0, {}, fs.S(), fs.logged, Mkfs.ROOTINO, n);
    SearchReaches(fs.l, s0, fs.S(), fs.logged, Mkfs.ROOTINO, n, ok, inum, off);
    x := LostBlock(fs.l, s0, fs.S(), Mkfs.ROOTINO);
  }

  lemma NotInRoot(s: Fs)
    requires ImageOf(s, Mkfs.EmptyFiles(62)) && Mkfs.GoodNames(Mkfs.EmptyFiles(62))
    ensures s.inodes[Mkfs.ROOTINO].size == 2048 && Lookup(Contents(s, Mkfs.ROOTINO), Key([98])) == 0
  {
    hide FsOk, Mkfs.Stored, Mkfs.Exact, Contents, Lookup, Key, DirOk, Mkfs.Listing, Mkfs.GoodNames, Mkfs.Bound;
    Mkfs.OtherName(62, [98]);
  }

  /** The search comes to the second block, found or not. */
  lemma SearchReaches(l: Layout, s0: Fs, s: Fs, logged: set<nat>, inum: nat, n: nat, ok: bool, found: nat, off: nat)
    requires Searched(l, s0, {}, s, logged, inum, n) && !Full(l, s0.disk) && n == Min(off + DIRENT, 2048)
    requires forall m :: m > 1024 ==> !AllInMap(s0, inum, 0, m)
    requires forall m :: m <= 1024 ==> AllPresent(s0, inum, 0, m)
    requires !ok ==> Full(l, s.disk)
    requires ok ==> found == 0 && off >= 2048
    ensures Grown(l, s0, s, inum) && s.inodes != s0.inodes
  {
    hide FsOk, Alloced, Contents, Grown, OthersKept, AllPresent, AllInMap, Full, NewBlocks;
  }

  /** A user copy that fails inside a block leaves the block changed but not logged. */
  method TornBlockIsNotLogged() returns (fs: FileSys, r: int, ghost s0: Fs)
    ensures fresh(fs) && ImageOf(s0, [Mkfs.File([97], [0])]) && 2 < |s0.inodes| && 2 < |fs.inodes|
    ensures r == 0 && s0.inodes[2].size == 1 && Contents(s0, 2) == [0]
    ensures fs.inodes[2].size == 1 && Contents(fs.S(), 2) == [1]
    ensures !Covered(s0.disk, fs.disk, fs.logged)
  {
    hide FsOk, Addr, Full, Contents, OthersKept, NoHoles, Mkfs.Total, Mkfs.Fits, Mkfs.Exact, Covered, WriteLogs;
    hide WriteSpaceOk, OwnersGrow, AfterWrite, Strays;
    var files := [Mkfs.File([97], [0])];
    OneFileFits(files);
    fs := Mount(files);
    s0 := fs.S();
    assert Mkfs.Stored(s0, files, 0);
    HasBlock(s0, 2);
    ghost var seen, stray;
    r, seen, stray := fs.Writei(2, [1], 0, 0, 1);
    OldAddr(fs.l, s0, fs.S(), 2, DataSlot(0));
    NotThere(s0, 2, seen);
    AfterWriteAt([0], 0, [1], 0, 1);
  }

  lemma OneFileFits(files: seq<Mkfs.File>)
    requires |files| == 1 && |files[0].data| <= 12 * BSIZE
    ensures Mkfs.Fits(Mkfs.XV6, files) && Mkfs.Total(files, 1) == Mkfs.BlocksFor(|files[0].data|) <= 12
  {}

  lemma HasBlock(s: Fs, inum: nat)
    requires inum < |s.inodes| && s.inodes[inum].size == 1 && NoHoles(s, inum, 1) && Contents(s, inum) == [0]
    ensures Addr(s.inodes[inum], s.disk, DataSlot(0)) != 0 && FileByte(s, inum, 0) == 0
  {
    assert Contents(s, inum)[0] == FileByte(s, inum, 0);
  }

  lemma NotThere(s: Fs, inum: nat, seen: nat)
    requires inum < |s.inodes| && Addr(s.inodes[inum], s.disk, DataSlot(0)) != 0 && FileByte(s, inum, 0) == 0
    requires seen == 1
    ensures Torn(s, {}, inum, 0, [1], 0, seen)
  {
    hide Addr;
    assert !AlreadyThere(s, inum, 0, [1], 0, 1) by { assert [1][0] != FileByte(s, inum, 0 + 0); }
  }

  /** On the disk of mkfs, which has one bitmap block, a write of more bytes than
      ONE_MAP_MAX, however many, can need more log space than an operation has. */
  method TooLargeUnit(n: nat) returns (fs: FileSys, r: int, ghost s0: Fs)
    requires ONE_MAP_MAX < n <= MAXFILE * BSIZE
    ensures fresh(fs) && ImageOf(s0, [Mkfs.File([97], seq(12 * BSIZE - 1, _ => 0))]) && 2 < |fs.inodes|
    ensures r == n <= fs.inodes[2].size && |fs.logged| > LogSpec.MAXOPBLOCKS
    ensures n == ONE_MAP_MAX + 1 ==> |fs.logged| == LogSpec.MAXOPBLOCKS + 1
  {
    hide FsOk, Addr, Full, Contents, OthersKept, Mkfs.Fits, Mkfs.Exact, Covered, OwnersGrow, AfterWrite, Strays, Torn;
    hide Alloced, NewIndirect, NewBlocks, Ended, WriteSpace, Spanned, Mkfs.RootHolds;
    var data, src, offset := seq(12 * BSIZE - 1, _ => 0), seq(n, _ => 1), Min(12 * BSIZE - 1, MAXFILE * BSIZE - n);
    var files := [Mkfs.File([97], data)];
    OneFileFits(files);
    fs := Mount(files);
    s0 := fs.S();
    assert Mkfs.Stored(s0, files, 0);
    assert Mkfs.BlocksFor(12 * BSIZE - 1) == 12 && Mkfs.Uses(Mkfs.BlocksFor(3 * DIRENT)) == 1;
    ghost var seen, stray;
    r, seen, stray := fs.Writei(2, src, offset, n, 0);
    ManyBlocks(n, offset);
    NewAreLogged(fs.l, s0, fs.S(), fs.logged, 2, offset, r);
    RoomForAll(fs.l, s0, fs.S(), fs.logged, 2, offset, n, r, seen, 0);
    BehindIndirect(fs.l, s0, fs.S(), 2);
  }

  lemma ManyBlocks(n: nat, offset: nat)
    requires ONE_MAP_MAX < n <= MAXFILE * BSIZE && offset == Min(12 * BSIZE - 1, MAXFILE * BSIZE - n)
    ensures 8 <= Spanned(offset, n) <= MAXFILE && (n == ONE_MAP_MAX + 1 ==> Spanned(offset, n) == 8)
    ensures 12 * BSIZE < offset + n <= MAXFILE * BSIZE
  {}

  lemma NewAreLogged(l: Layout, s0: Fs, s: Fs, logged: set<nat>, inum: nat, offset: nat, tot: nat)
    requires inum < |s.inodes| && WriteLogs(l, s0, {}, s, logged, inum, offset, tot)
    ensures NewBlocks(s0, s) <= logged
  {
    hide FileBlocks, NewMaps, NewEntry;
  }

  /** There are more free blocks than the write can have taken. */
  lemma RoomForAll(l: Layout, s0: Fs, s: Fs, logged: set<nat>, inum: nat, offset: nat, n: nat, tot: nat, seen: nat,
      torn: nat)
    requires FsOk(l, s, {}) && l == Mkfs.XV6 && inum < |s.inodes| && offset + n <= MAXFILE * BSIZE
    requires NewBlocks(s0, s) <= logged && |logged| <= MAXFILE + 3 && forall x :: x in s0.owner <==> 46 <= x < 59
    requires Ended(l, s, inum, offset, n, tot, seen, n, torn) && s.others == {}
    ensures tot == n
  {
    hide FsOk, Addr, Chunk, Full;
    if tot < n {
      assert Full(l, s.disk) by { ChunkWithin(offset + tot, n - tot); }
      forall b | 59 <= b < 359
        ensures b in s.owner
      {
        FullMeansOwned(l, s, b);
      }
      ManyNew(s0, s, logged);
    }
  }

  lemma FullMeansOwned(l: Layout, s: Fs, b: nat)
    requires FsOk(l, s, {}) && Full(l, s.disk) && l.nmeta <= b < l.size && s.others == {}
    ensures b in s.owner
  {
    hide Held, Rooted, Marked;
    assert Marked(l, s.disk, b);
  }

  lemma ManyNew(s0: Fs, s: Fs, logged: set<nat>)
    requires NewBlocks(s0, s) <= logged && (forall x :: x in s0.owner <==> 46 <= x < 59)
    requires forall b :: 59 <= b < 359 ==> b in s.owner
    ensures |logged| >= 300
  {
    var free := Run(59, 300);
    forall x | x in free
      ensures x in NewBlocks(s0, s)
    {
      assert x in s.owner && x !in s0.owner;
    }
    SubsetSize(free, logged);
  }

  lemma {:induction false} Run(lo: nat, k: nat) returns (r: set<nat>)
    ensures |r| == k && forall x :: x in r <==> lo <= x < lo + k
  {
    r := {};
    if k > 0 {
      var q := Run(lo, k - 1);
      r := q + {lo + k - 1};
    }
  }

  lemma ChunkWithin(off: nat, left: nat)
    ensures Chunk(off, left) <= left
  {}

  /** The thirteenth block of the file is new, and the indirect block names it. */
  lemma BehindIndirect(l: Layout, s0: Fs, s: Fs, inum: nat)
    requires FsOk(l, s0, {}) && FsOk(l, s, {}) && OwnersGrow(s0, s, inum) && inum < |s0.inodes| && inum < |s.inodes|
    requires Mkfs.Exact(s0, inum, 12) && NoHoles(s, inum, s.inodes[inum].size) && s.inodes[inum].size > 12 * BSIZE
    ensures NewBlocks(s0, s) != {} && NewIndirect(s0, s)
  {
    hide FsOk, Addr, OwnersGrow;
    OldAddr(l, s0, s, inum, DataSlot(12));
    var x: nat := Addr(s.inodes[inum], s.disk, DataSlot(12));
    assert x in NewBlocks(s0, s) && s.owner[x].k >= NDIRECT;
  }
}
