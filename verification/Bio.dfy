/** The buffer cache (kernel/bio.c): NBUF buffers on one circular doubly linked
    list in order of last release, with a reference count and a sleep lock each.
    The source's pointers all lead into the static array `bcache`, so they are
    modelled as positions in it; position HEAD is `bcache.head`.

    Every method below is one atomic step of the source: a region under
    `bcache.lock`, one sleep-lock acquisition or release, or one disk transfer.
    Preconditions speak only of what the calling process itself holds, so an
    interleaving of several processes is any sequence of these steps. */
module Bio {
  import opened Blocks

  const ROOTDEV := 1
  const NBUF := 30
  const HEAD := NBUF

  /** Process ids; 0 stands for "nobody" in a lock. */
  type Pid = nat

  /** A buffer. `users` and `pins` explain `refcnt`: which processes hold a
      reference (holding the sleep lock or waiting for it), and how many times
      the log has pinned the buffer. */
  datatype Buf = Buf(valid: bool, dev: nat, blockno: nat, holder: Pid, refcnt: nat, data: Block,
                     users: set<Pid>, pins: nat)

  const FreshBuf := Buf(false, 0, 0, 0, 0, ZeroBlock(), {}, 0)

  ghost predicate Distinct<T>(s: seq<T>) {
    forall i, j :: 0 <= i < j < |s| ==> s[i] != s[j]
  }

  function Without<T>(s: seq<T>, k: nat): (r: seq<T>)
    requires k < |s|
  {
    s[..k] + s[k + 1..]
  }

  /** `x` goes from where it was to the front, and the others keep their order. */
  ghost predicate MovedToFront(was: seq<nat>, now: seq<nat>, x: nat) {
    exists k :: 0 <= k < |was| && was[k] == x && now == [x] + Without(was, k)
  }

  // ----- The ring as a record of releases -----

  /** The rings between the releases `bs`. */
  ghost predicate Releases(rings: seq<seq<nat>>, bs: seq<nat>) {
    |rings| == |bs| + 1 && forall i :: 0 <= i < |bs| ==> MovedToFront(rings[i], rings[i + 1], bs[i])
  }

  /** When `b` was last released, counting from 1; 0 if it never was. */
  function LastRelease(bs: seq<nat>, b: nat): (t: nat)
    ensures t <= |bs|
  {
    if bs == [] then 0 else if bs[|bs| - 1] == b then |bs| else LastRelease(bs[..|bs| - 1], b)
  }

  ghost predicate InOrder(ring: seq<nat>, a: nat, b: nat) {
    exists i, j :: 0 <= i < j < |ring| && ring[i] == a && ring[j] == b
  }

  lemma MovedKeeps(was: seq<nat>, now: seq<nat>, x: nat, i: nat, j: nat)
    requires MovedToFront(was, now, x) && Distinct(was) && i < j < |now|
    ensures now[j] != x && (i == 0 ==> now[i] == x)
    ensures i > 0 ==> now[i] != x && InOrder(was, now[i], now[j])
  {
    var k :| 0 <= k < |was| && was[k] == x && now == [x] + Without(was, k);
    var i', j' := if i <= k then i - 1 else i, if j <= k then j - 1 else j;
    assert now[j] == was[j'];
    if i > 0 {
      assert now[i] == was[i'];
    }
  }

  lemma MovedDistinct(was: seq<nat>, now: seq<nat>, x: nat)
    requires MovedToFront(was, now, x) && Distinct(was)
    ensures Distinct(now)
  {}

  lemma Shorter(rings: seq<seq<nat>>, bs: seq<nat>)
    requires Releases(rings, bs) && bs != []
    ensures
      var n := |bs| - 1;
      Releases(rings[..n + 1], bs[..n]) && |rings| == n + 2 && MovedToFront(rings[n], rings[n + 1], bs[n])
  {
    hide MovedToFront;
    assert forall i :: 0 <= i < |bs| ==> MovedToFront(rings[i], rings[i + 1], bs[i]);
  }

  lemma {:induction false} ReleasesDistinct(rings: seq<seq<nat>>, bs: seq<nat>)
    requires Releases(rings, bs) && Distinct(rings[0])
    ensures Distinct(rings[|bs|])
    decreases |bs|
  {
    hide MovedToFront, Distinct, Releases;
    if bs != [] {
      var n := |bs| - 1;
      Shorter(rings, bs);
      ReleasesDistinct(rings[..n + 1], bs[..n]);
      MovedDistinct(rings[n], rings[n + 1], bs[n]);
    }
  }

  /** A buffer further up was released later, or neither ever was and they are as at first. */
  lemma {:induction false} ReleaseOrder(rings: seq<seq<nat>>, bs: seq<nat>, a: nat, b: nat)
    requires Releases(rings, bs) && Distinct(rings[0]) && InOrder(rings[|bs|], a, b)
    ensures LastRelease(bs, a) > LastRelease(bs, b) ||
      (LastRelease(bs, a) == LastRelease(bs, b) == 0 && InOrder(rings[0], a, b))
    decreases |bs|
  {
    hide MovedToFront, Distinct, Releases;
    if bs != [] {
      var n := |bs| - 1;
      Shorter(rings, bs);
      ReleasesDistinct(rings[..n + 1], bs[..n]);
      var i, j :| 0 <= i < j < |rings[n + 1]| && rings[n + 1][i] == a && rings[n + 1][j] == b;
      MovedKeeps(rings[n], rings[n + 1], bs[n], i, j);
      if i > 0 {
        ReleaseOrder(rings[..n + 1], bs[..n], a, b);
      }
    }
  }

  /** The buffer that bget recycles is the one whose last release is the longest ago. */
  lemma RecycledIsOldest(bc: Bcache, rings: seq<seq<nat>>, bs: seq<nat>, r: nat, b: nat)
    requires bc.RingOk() && bc.LeastRecentlyUsed(r)
    requires Releases(rings, bs) && Distinct(rings[0]) && rings[|bs|] == bc.ring
    requires b < NBUF && b != r && bc.buf[b].refcnt == 0
    ensures LastRelease(bs, r) < LastRelease(bs, b) ||
      (LastRelease(bs, r) == LastRelease(bs, b) == 0 && InOrder(rings[0], b, r))
  {
    hide MovedToFront, Distinct, Releases, LastRelease;
    var k :| 0 <= k < NBUF && bc.ring[k] == r && forall j :: k < j < NBUF ==> bc.buf[bc.ring[j]].refcnt > 0;
    assert b in bc.ring;
    var j :| 0 <= j < NBUF && bc.ring[j] == b;
    ReleaseOrder(rings, bs, b, r);
  }

  /** HEAD followed by `ring` is one circular doubly linked list. */
  ghost predicate Linked(prev: seq<nat>, next: seq<nat>, ring: seq<nat>) {
    && |prev| == |next| == NBUF + 1
    && Distinct(ring)
    && (forall i :: 0 <= i < |ring| ==> ring[i] < NBUF)
    && next[HEAD] == (if |ring| > 0 then ring[0] else HEAD)
    && prev[HEAD] == (if |ring| > 0 then ring[|ring| - 1] else HEAD)
    && (forall i {:trigger next[ring[i]]} :: 0 <= i < |ring| ==>
          next[ring[i]] == if i + 1 < |ring| then ring[i + 1] else HEAD)
    && (forall i {:trigger prev[ring[i]]} :: 0 <= i < |ring| ==>
          prev[ring[i]] == if i > 0 then ring[i - 1] else HEAD)
  }

  /** Inserting a buffer right after HEAD. */
  lemma PushFrontLinked(prev: seq<nat>, next: seq<nat>, ring: seq<nat>, b: nat)
    requires Linked(prev, next, ring) && b < NBUF && b !in ring
    ensures
      var f := next[HEAD];
      f <= NBUF && Linked(prev[b := HEAD][f := b], next[b := f][HEAD := b], [b] + ring)
  {
    var f := next[HEAD];
    var prev', next', ring' := prev[b := HEAD][f := b], next[b := f][HEAD := b], [b] + ring;
    forall i | 0 <= i < |ring'|
      ensures next'[ring'[i]] == if i + 1 < |ring'| then ring'[i + 1] else HEAD
      ensures prev'[ring'[i]] == if i > 0 then ring'[i - 1] else HEAD
    {
      if i > 0 {
        assert ring'[i] == ring[i - 1];
        assert next[ring[i - 1]] == next'[ring'[i]] && (i > 1 ==> prev[ring[i - 1]] == prev'[ring'[i]]);
      }
    }
  }

  /** Unlinking the `k`-th buffer of the list. */
  lemma UnlinkLinked(prev: seq<nat>, next: seq<nat>, ring: seq<nat>, k: nat)
    requires Linked(prev, next, ring) && k < |ring|
    ensures
      var b := ring[k];
      next[b] <= NBUF && prev[b] <= NBUF &&
      Linked(prev[next[b] := prev[b]], next[prev[b] := next[b]], Without(ring, k))
  {
    var b, rest := ring[k], Without(ring, k);
    assert next[ring[k]] <= NBUF && prev[ring[k]] <= NBUF;
    var prev', next' := prev[next[b] := prev[b]], next[prev[b] := next[b]];
    forall i | 0 <= i < |rest|
      ensures next'[rest[i]] == if i + 1 < |rest| then rest[i + 1] else HEAD
      ensures prev'[rest[i]] == if i > 0 then rest[i - 1] else HEAD
    {
      var j := if i < k then i else i + 1;
      assert rest[i] == ring[j];
      assert next[ring[j]] <= NBUF && prev[ring[j]] <= NBUF;
    }
  }

  /** `index` leads from each cached block to its buffer, and every buffer that
      has a block is the one of that block. */
  ghost predicate Indexed(buf: seq<Buf>, index: map<nat, nat>) {
    && (forall n :: n in index ==>
          index[n] < |buf| && buf[index[n]].dev == ROOTDEV && buf[index[n]].blockno == n)
    && (forall b :: 0 <= b < |buf| && buf[b].dev != 0 ==>
          buf[b].blockno in index && index[buf[b].blockno] == b)
  }

  lemma IndexedRecycle(buf: seq<Buf>, index: map<nat, nat>, b: nat, nb: Buf)
    requires Indexed(buf, index) && b < |buf| && nb.dev == ROOTDEV && nb.blockno !in index
    ensures
      var index' := (if buf[b].dev != 0 then index - {buf[b].blockno} else index)[nb.blockno := b];
      && Indexed(buf[b := nb], index')
      && forall n :: n in index ==> if index[n] == b then n == buf[b].blockno else n in index' && index'[n] == index[n]
  {}

  class Bcache {
    var disk: seq<Block>
    /** The disk after every block write: a crash leaves one of these. */
    ghost var trace: seq<seq<Block>>

    var buf: seq<Buf>
    var prev: seq<nat>
    var next: seq<nat>

    ghost var ring: seq<nat>        // list order, most recently released first
    ghost var index: map<nat, nat>  // the buffer assigned to each cached block
    ghost var view: seq<Block>      // the latest contents of every block

    /** Every buffer is on the ring exactly once. */
    ghost predicate RingOk()
      reads this
    {
      && |buf| == |ring| == NBUF
      && Linked(prev, next, ring)
      && forall b :: 0 <= b < NBUF ==> b in ring
    }

    ghost predicate IndexOk()
      reads this
    {
      Indexed(buf, index)
    }

    ghost predicate BufOk(b: Buf)
      reads this
    {
      && b.blockno < |disk| == |view|
      && (b.dev == ROOTDEV || (b.dev == 0 && !b.valid && b.refcnt == 0))
      && b.refcnt == |b.users| + b.pins
      && 0 !in b.users
      && (b.holder != 0 ==> b.holder in b.users)
      && (b.pins > 0 ==> b.valid)
      && (b.valid ==> b.data == view[b.blockno])
      // Only a locked or a pinned buffer may differ from the disk.
      && (b.valid && b.holder == 0 && b.pins == 0 ==> b.data == disk[b.blockno])
    }

    /** A block without a valid buffer has its latest contents on the disk. */
    ghost predicate ViewOk()
      reads this
    {
      && |view| == |disk| > 0
      && forall n :: 0 <= n < |view| ==>
           view[n] == disk[n] || (n in index && index[n] < |buf| && buf[index[n]].valid)
    }

    ghost predicate Valid()
      reads this
    {
      RingOk() && IndexOk() && ViewOk() && forall b :: 0 <= b < |buf| ==> BufOk(buf[b])
    }

    /** binit, on a machine whose disk holds `image`. */
    constructor (image: seq<Block>)
      requires |image| > 0
      ensures Valid() && disk == view == image && index == map[] && trace == []
      ensures forall b :: 0 <= b < NBUF ==> buf[b] == FreshBuf
    {
      var p: seq<nat>, n: seq<nat> := seq(NBUF + 1, _ => HEAD), seq(NBUF + 1, _ => HEAD);
      ghost var order: seq<nat> := [];
      for b := 0 to NBUF
        invariant Linked(p, n, order) && |order| == b
        invariant forall x :: x in order <==> 0 <= x < b
      {
        PushFrontLinked(p, n, order, b);
        n := n[b := n[HEAD]];
        p := p[b := HEAD];
        p := p[n[HEAD] := b];
        n := n[HEAD := b];
        order := [b] + order;
      }
      disk, trace, view := image, [], image;
      buf, prev, next := seq(NBUF, _ => FreshBuf), p, n;
      ring, index := order, map[];
    }

    /** The reason eviction is safe: an unreferenced buffer agrees with the disk. */
    lemma RecyclingLosesNothing(b: nat)
      requires Valid() && b < NBUF && buf[b].refcnt == 0
      ensures buf[b].users == {} && buf[b].pins == 0 && buf[b].holder == 0
      ensures buf[b].valid ==> buf[b].data == disk[buf[b].blockno] == view[buf[b].blockno]
    {
      assert BufOk(buf[b]);
    }

    /** No two buffers hold the same block of a real device. */
    lemma NoBlockCachedTwice(a: nat)
      requires Valid() && a < NBUF && buf[a].dev != 0
      ensures buf[a].blockno in index
      ensures forall b :: 0 <= b < NBUF && b != a && buf[b].dev != 0 ==> buf[b].blockno != buf[a].blockno
    {}

    /** Reassign an unreferenced buffer to another block. */
    method Recycle(pid: Pid, b: nat, dev: nat, blockno: nat)
      requires Valid() && pid != 0 && dev == ROOTDEV && blockno < |disk|
      requires b < NBUF && buf[b].refcnt == 0 && blockno !in index
      modifies this`buf, this`index
      ensures Valid() && blockno in index && index[blockno] == b
      ensures buf == old(buf)[b := Buf(false, dev, blockno, 0, 1, old(buf)[b].data, {pid}, 0)]
    {
      hide Linked, Indexed;
      assert Indexed(buf, index) && BufOk(buf[b]);
      var nb := buf[b].(dev := dev, blockno := blockno, valid := false, refcnt := 1, users := {pid});
      IndexedRecycle(buf, index, b, nb);
      if buf[b].dev != 0 {
        index := index - {buf[b].blockno};
      }
      index := index[blockno := b];
      buf := buf[b := nb];
    }

    /** The first scan of bget, from the most recently released buffer on. */
    method FindCached(dev: nat, blockno: nat) returns (r: nat)
      requires Valid() && dev == ROOTDEV
      ensures r == if blockno in index then index[blockno] else HEAD
    {
      r := next[HEAD];
      ghost var i := 0;
      while r != HEAD
        invariant 0 <= i <= NBUF
        invariant r == if i < NBUF then ring[i] else HEAD
        invariant forall j :: 0 <= j < i ==> !(buf[ring[j]].dev == dev && buf[ring[j]].blockno == blockno)
        decreases NBUF - i
      {
        if buf[r].dev == dev && buf[r].blockno == blockno {
          return;
        }
        assert next[ring[i]] == next[r];
        r := next[r];
        i := i + 1;
      }
      forall b | 0 <= b < NBUF
        ensures !(buf[b].dev == dev && buf[b].blockno == blockno)
      {
        assert b in ring;
      }
    }

    /** `r` is the unused buffer nearest to the end of the ring. */
    ghost predicate LeastRecentlyUsed(r: nat)
      requires RingOk()
      reads this
    {
      && r < NBUF && buf[r].refcnt == 0
      && exists k :: 0 <= k < NBUF && ring[k] == r && forall j :: k < j < NBUF ==> buf[ring[j]].refcnt > 0
    }

    /** The second scan of bget, from the least recently released buffer on. */
    method FindUnused() returns (r: nat)
      requires Valid()
      ensures r < NBUF ==> LeastRecentlyUsed(r)
      ensures r >= NBUF ==> r == HEAD && forall b :: 0 <= b < NBUF ==> buf[b].refcnt > 0
    {
      r := prev[HEAD];
      ghost var i := NBUF - 1;
      while r != HEAD
        invariant -1 <= i < NBUF
        invariant r == if i >= 0 then ring[i] else HEAD
        invariant forall j :: i < j < NBUF ==> buf[ring[j]].refcnt > 0
        decreases i
      {
        if buf[r].refcnt == 0 {
          return;
        }
        assert prev[ring[i]] == prev[r];
        r := prev[r];
        i := i - 1;
      }
      forall b | 0 <= b < NBUF
        ensures buf[b].refcnt > 0
      {
        assert b in ring;
      }
    }

    /** bget under bcache.lock: find the block's buffer or recycle the least
        recently released unused one. HEAD is the panic "bget: no buffers". */
    method Bget(pid: Pid, dev: nat, blockno: nat) returns (r: nat)
      requires Valid() && pid != 0 && dev == ROOTDEV && blockno < |disk|
      requires blockno in index ==> pid !in buf[index[blockno]].users
      modifies this`buf, this`index
      ensures Valid() && r <= NBUF
      ensures r == HEAD <==> blockno !in old(index) && forall b :: 0 <= b < NBUF ==> old(buf)[b].refcnt > 0
      ensures r == HEAD ==> buf == old(buf) && index == old(index)
      ensures r < NBUF ==> blockno in index && index[blockno] == r
      // A hit adds a reference to the block's own buffer ...
      ensures r < NBUF && blockno in old(index) ==>
        && r == old(index)[blockno] && index == old(index)
        && buf == old(buf)[r := old(buf)[r].(refcnt := old(buf)[r].refcnt + 1, users := old(buf)[r].users + {pid})]
      // ... and a miss takes over the last unused buffer of the ring.
      ensures r < NBUF && blockno !in old(index) ==>
        && old(LeastRecentlyUsed(r)) && old(buf)[r].users == {} && old(buf)[r].pins == 0
        && buf == old(buf)[r := Buf(false, dev, blockno, 0, 1, old(buf)[r].data, {pid}, 0)]
    {
      hide Linked;
      r := FindCached(dev, blockno);
      if r != HEAD {
        assert BufOk(buf[r]);
        buf := buf[r := buf[r].(refcnt := buf[r].refcnt + 1, users := buf[r].users + {pid})];
      } else {
        r := FindUnused();
        if r != HEAD {
          RecyclingLosesNothing(r);
          Recycle(pid, r, dev, blockno);
        }
      }
    }

    /** acquiresleep on a buffer, scheduled when the lock is free. */
    method AcquireSleep(pid: Pid, b: nat)
      requires Valid() && b < NBUF && pid in buf[b].users && buf[b].holder == 0
      modifies this`buf
      ensures Valid() && buf == old(buf)[b := old(buf)[b].(holder := pid)]
    {
      hide Linked;
      buf := buf[b := buf[b].(holder := pid)];
    }

    /** The disk read of bread, for a buffer that is not valid yet. */
    method Fill(pid: Pid, b: nat)
      requires Valid() && b < NBUF && buf[b].holder == pid != 0
      modifies this`buf
      ensures Valid() && buf == old(buf)[b := old(buf)[b].(valid := true, data := view[buf[b].blockno])]
    {
      hide Linked;
      assert BufOk(buf[b]);
      if !buf[b].valid {
        buf := buf[b := buf[b].(data := disk[buf[b].blockno])];
        buf := buf[b := buf[b].(valid := true)];
      }
    }

    /** The lock holder overwrites the cached data: the only step that changes
        the latest contents of a block. */
    method Modify(pid: Pid, b: nat, d: Block)
      requires Valid() && b < NBUF && buf[b].holder == pid != 0 && buf[b].valid
      modifies this`buf, this`view
      ensures Valid()
      ensures buf == old(buf)[b := old(buf)[b].(data := d)] && view == old(view)[buf[b].blockno := d]
    {
      hide Linked;
      assert BufOk(buf[b]);
      buf := buf[b := buf[b].(data := d)];
      view := view[buf[b].blockno := d];
    }

    /** bwrite: one disk write of the cached data. */
    method Bwrite(pid: Pid, b: nat)
      requires Valid() && b < NBUF && buf[b].holder == pid != 0 && buf[b].valid
      modifies this`disk, this`trace
      ensures Valid()
      ensures buf[b].blockno < |old(disk)| && disk == old(disk)[buf[b].blockno := buf[b].data]
      ensures trace == old(trace) + [disk]
    {
      hide Linked;
      assert BufOk(buf[b]);
      disk := disk[buf[b].blockno := buf[b].data];
      trace := trace + [disk];
    }

    /** brelse, first half: releasesleep. Clients pin what they changed (or have
        written it) before they let go of it. */
    method ReleaseSleep(pid: Pid, b: nat)
      requires Valid() && b < NBUF && buf[b].holder == pid != 0
      requires buf[b].valid && buf[b].pins == 0 ==> view[buf[b].blockno] == disk[buf[b].blockno]
      modifies this`buf
      ensures Valid() && buf == old(buf)[b := old(buf)[b].(holder := 0)]
    {
      hide Linked;
      buf := buf[b := buf[b].(holder := 0)];
    }

    /** The relinking in brelse. */
    method MoveToFront(b: nat)
      requires RingOk() && b < NBUF
      modifies this`ring, this`prev, this`next
      ensures RingOk()
      ensures MovedToFront(old(ring), ring, b)
    {
      assert b in ring;
      ghost var k :| 0 <= k < NBUF && ring[k] == b;
      UnlinkLinked(prev, next, ring, k);
      prev := prev[next[b] := prev[b]];
      next := next[prev[b] := next[b]];
      PushFrontLinked(prev, next, Without(ring, k), b);
      next := next[b := next[HEAD]];
      prev := prev[b := HEAD];
      prev := prev[next[HEAD] := b];
      next := next[HEAD := b];
      forall x | 0 <= x < NBUF
        ensures x in [b] + Without(ring, k)
      {
        assert x in ring;
        assert x in ring[..k] || x == b || x in ring[k + 1..];
      }
      ring := [b] + Without(ring, k);
    }

    /** brelse, second half: drop the reference and, when it was the last one,
        move the buffer to the front of the ring. */
    method Unref(pid: Pid, b: nat)
      requires Valid() && b < NBUF && pid in buf[b].users && buf[b].holder != pid
      modifies this`buf, this`ring, this`prev, this`next
      ensures Valid()
      ensures old(buf)[b].refcnt > 0
      ensures buf == old(buf)[b := old(buf)[b].(refcnt := old(buf)[b].refcnt - 1, users := old(buf)[b].users - {pid})]
      ensures if buf[b].refcnt == 0 then MovedToFront(old(ring), ring, b) else ring == old(ring)
    {
      hide Linked, MovedToFront;
      assert BufOk(buf[b]);
      assert |buf[b].users - {pid}| == |buf[b].users| - 1;
      buf := buf[b := buf[b].(refcnt := buf[b].refcnt - 1, users := buf[b].users - {pid})];
      if buf[b].refcnt == 0 {
        MoveToFront(b);
      }
    }

    method Bpin(pid: Pid, b: nat)
      requires Valid() && b < NBUF && buf[b].holder == pid != 0 && buf[b].valid
      modifies this`buf
      ensures Valid()
      ensures buf == old(buf)[b := old(buf)[b].(refcnt := old(buf)[b].refcnt + 1, pins := old(buf)[b].pins + 1)]
    {
      hide Linked;
      buf := buf[b := buf[b].(refcnt := buf[b].refcnt + 1, pins := buf[b].pins + 1)];
    }

    method Bunpin(pid: Pid, b: nat)
      requires Valid() && b < NBUF && buf[b].holder == pid != 0 && buf[b].pins > 0
      modifies this`buf
      ensures Valid() && old(buf)[b].refcnt > 0
      ensures buf == old(buf)[b := old(buf)[b].(refcnt := old(buf)[b].refcnt - 1, pins := old(buf)[b].pins - 1)]
    {
      hide Linked;
      assert BufOk(buf[b]);
      buf := buf[b := buf[b].(refcnt := buf[b].refcnt - 1, pins := buf[b].pins - 1)];
    }

    /** The part of bread after bget, by a process that finds the buffer unlocked. */
    method LockAndFill(pid: Pid, b: nat)
      requires Valid() && b < NBUF && pid in buf[b].users && buf[b].holder == 0
      modifies this`buf
      ensures Valid() && buf[b].blockno < |view|
      ensures buf == old(buf)[b := old(buf)[b].(holder := pid, valid := true, data := view[buf[b].blockno])]
    {
      hide Linked;
      AcquireSleep(pid, b);
      Fill(pid, b);
    }

    /** bread by a process that finds the buffer unlocked. */
    method Bread(pid: Pid, blockno: nat) returns (r: nat)
      requires Valid() && pid != 0 && blockno < |disk|
      requires blockno in index ==> buf[index[blockno]].holder == 0 && pid !in buf[index[blockno]].users
      modifies this`buf, this`index
      ensures Valid() && r <= NBUF
      ensures r == HEAD <==> blockno !in old(index) && forall b :: 0 <= b < NBUF ==> old(buf)[b].refcnt > 0
      ensures r == HEAD ==> buf == old(buf) && index == old(index)
      ensures r < NBUF ==> blockno in index && index[blockno] == r && blockno < |view|
      ensures r < NBUF && blockno in old(index) ==> r == old(index)[blockno] && index == old(index)
      ensures r < NBUF && blockno !in old(index) ==> old(buf)[r].refcnt == 0
      ensures r < NBUF ==> buf == old(buf)[r := Buf(
        true, ROOTDEV, blockno, pid, old(buf)[r].refcnt + 1, view[blockno],
        old(buf)[r].users + {pid}, old(buf)[r].pins)]
    {
      hide Linked, ViewOk, LeastRecentlyUsed;
      r := Bget(pid, ROOTDEV, blockno);
      if r != HEAD {
        assert buf[r].holder == 0 && pid in buf[r].users;
        LockAndFill(pid, r);
      }
    }

    /** brelse, both halves. */
    method Brelse(pid: Pid, b: nat)
      requires Valid() && b < NBUF && buf[b].holder == pid != 0
      requires buf[b].valid && buf[b].pins == 0 ==> view[buf[b].blockno] == disk[buf[b].blockno]
      modifies this`buf, this`ring, this`prev, this`next
      ensures Valid() && old(buf)[b].refcnt > 0
      ensures buf == old(buf)[b := old(buf)[b].(holder := 0, refcnt := old(buf)[b].refcnt - 1,
                                                users := old(buf)[b].users - {pid})]
      ensures if buf[b].refcnt == 0 then MovedToFront(old(ring), ring, b) else ring == old(ring)
    {
      hide Linked, MovedToFront;
      assert BufOk(buf[b]);
      ReleaseSleep(pid, b);
      Unref(pid, b);
    }

    /** Whether a process may take this step: it holds what the step needs, and
        it follows the log_write discipline when it unlocks a buffer. */
    predicate Enabled(e: Event)
      reads this
    {
      && 0 < e.pid && e.b < |buf|
      && match e
         case Get(pid, _, n) =>
           n < |disk| && forall b :: 0 <= b < |buf| && buf[b].dev == ROOTDEV && buf[b].blockno == n ==>
             pid !in buf[b].users
         case Lock(pid, b) => pid in buf[b].users && buf[b].holder == 0
         case Read(pid, b) => buf[b].holder == pid
         case Store(pid, b, _) => buf[b].holder == pid && buf[b].valid
         case Write(pid, b) => buf[b].holder == pid && buf[b].valid
         case Pin(pid, b) => buf[b].holder == pid && buf[b].valid
         case Unpin(pid, b) => buf[b].holder == pid && buf[b].pins > 0
         case Unlock(pid, b) =>
           && buf[b].holder == pid && buf[b].blockno < |disk|
           && (buf[b].valid && buf[b].pins == 0 ==> buf[b].data == disk[buf[b].blockno])
         case Drop(pid, b) => pid in buf[b].users && buf[b].holder != pid
    }

    /** One step of some process. */
    method Step(e: Event)
      requires Valid() && Enabled(e)
      modifies this
      ensures Valid() && |disk| == |old(disk)|
      ensures if e.Store? then old(buf)[e.b].blockno < |old(view)| && view == old(view)[old(buf)[e.b].blockno := e.d]
              else view == old(view)
      ensures e.Read? ==> buf[e.b].blockno < |view| && buf[e.b].data == view[buf[e.b].blockno]
      ensures if e.Drop? && buf[e.b].refcnt == 0 then MovedToFront(old(ring), ring, e.b) else ring == old(ring)
    {
      hide Linked, MovedToFront;
      match e
      case Get(pid, _, n) => var r := Bget(pid, ROOTDEV, n);
      case Lock(pid, b) => AcquireSleep(pid, b);
      case Read(pid, b) => Fill(pid, b);
      case Store(pid, b, d) => Modify(pid, b, d);
      case Write(pid, b) => Bwrite(pid, b);
      case Pin(pid, b) => Bpin(pid, b);
      case Unpin(pid, b) => Bunpin(pid, b);
      case Unlock(pid, b) => ReleaseSleep(pid, b);
      case Drop(pid, b) => Unref(pid, b);
    }

    /** Every interleaving: whatever steps the processes take, the ring, the
        assignment of blocks and the cleanness of unreferenced buffers survive,
        and each read returns what a plain array of blocks, updated by the
        stores so far, would return. */
    method Run(events: seq<Event>)
      returns (stores: seq<(nat, Block)>, got: seq<ReadEvent>, ghost rings: seq<seq<nat>>, ghost drops: seq<nat>)
      requires Valid()
      modifies this
      ensures Valid() && Releases(rings, drops) && rings[0] == old(ring) && rings[|drops|] == ring
      ensures Plain(old(view), stores) == view
      ensures forall i :: 0 <= i < |got| ==>
        && got[i].after <= |stores| && got[i].blockno < |old(view)|
        && got[i].data == Plain(old(view), stores[..got[i].after])[got[i].blockno]
    {
      hide Linked, IndexOk, BufOk, MovedToFront;
      stores, got, rings, drops := [], [], [ring], [];
      for i := 0 to |events|
        invariant Valid() && |view| == |old(view)|
        invariant Releases(rings, drops) && rings[0] == old(ring) && rings[|drops|] == ring
        invariant Plain(old(view), stores) == view
        invariant forall i :: 0 <= i < |got| ==>
          && got[i].after <= |stores| && got[i].blockno < |old(view)|
          && got[i].data == Plain(old(view), stores[..got[i].after])[got[i].blockno]
      {
        var e := events[i];
        if Enabled(e) {
          var n := buf[e.b].blockno;
          Step(e);
          if e.Drop? && buf[e.b].refcnt == 0 {
            rings, drops := rings + [ring], drops + [e.b];
          }
          if e.Store? {
            PlainSnoc(old(view), stores, (n, e.d));
            assert forall k :: 0 <= k <= |stores| ==> (stores + [(n, e.d)])[..k] == stores[..k];
            stores := stores + [(n, e.d)];
          } else if e.Read? {
            assert stores[..|stores|] == stores;
            got := got + [ReadEvent(buf[e.b].blockno, buf[e.b].data, |stores|)];
          }
        }
      }
    }
  }

  datatype Event =
    | Get(pid: Pid, b: nat, n: nat)
    | Lock(pid: Pid, b: nat)
    | Read(pid: Pid, b: nat)
    | Store(pid: Pid, b: nat, d: Block)
    | Write(pid: Pid, b: nat)
    | Pin(pid: Pid, b: nat)
    | Unpin(pid: Pid, b: nat)
    | Unlock(pid: Pid, b: nat)
    | Drop(pid: Pid, b: nat)

  /** A completed bread: which block, what it returned, after how many stores. */
  datatype ReadEvent = ReadEvent(blockno: nat, data: Block, after: nat)

  /** An array of blocks after a sequence of stores. */
  function Plain(m: seq<Block>, writes: seq<(nat, Block)>): (r: seq<Block>)
    ensures |r| == |m|
  {
    if writes == [] then m
    else
      var w := writes[|writes| - 1];
      var m' := Plain(m, writes[..|writes| - 1]);
      if w.0 < |m| then m'[w.0 := w.1] else m'
  }

  lemma PlainSnoc(m: seq<Block>, writes: seq<(nat, Block)>, w: (nat, Block))
    requires w.0 < |m|
    ensures Plain(m, writes + [w]) == Plain(m, writes)[w.0 := w.1]
  {
    assert (writes + [w])[..|writes|] == writes;
  }
}
