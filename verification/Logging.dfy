/** kernel/log.c: the in-memory log and its disk writes, on the buffer cache. */
module Logging {
  import opened Blocks
  import opened Bio
  import opened LogSpec
  import opened LogProtocol

  /** What the committing process may rely on about a buffer that it does not
      hold itself: the log has pinned it once if its block is logged, nobody has
      unlogged changes in it, and nobody else uses the blocks of the log. Other
      processes may hold it to read, or wait for it. */
  ghost predicate SharedAt(x: Buf, disk: seq<Block>, a: Area, pinned: seq<nat>, pid: Pid) {
    && pid !in x.users
    && x.pins == (if x.dev != 0 && x.blockno in pinned then 1 else 0)
    && (x.valid && x.pins == 0 ==> x.blockno < |disk| && x.data == disk[x.blockno])
    && (a.Contains(x.blockno) ==> x.users == {})
  }

  /** All buffers but those of `held`. */
  ghost predicate Shared(buf: seq<Buf>, disk: seq<Block>, a: Area, pinned: seq<nat>, pid: Pid, held: set<nat>) {
    forall b :: 0 <= b < |buf| && b !in held ==> SharedAt(buf[b], disk, a, pinned, pid)
  }

  /** The buffers of `held` are log blocks that the committing process has locked. */
  ghost predicate HeldOk(buf: seq<Buf>, a: Area, pid: Pid, held: set<nat>) {
    forall h :: h in held ==> h < |buf| && a.Contains(buf[h].blockno) && buf[h].users == {pid} && buf[h].holder == pid
  }

  /** All of that, with the logged blocks in the cache. */
  ghost predicate Around(buf: seq<Buf>, index: map<nat, nat>, disk: seq<Block>, a: Area, pinned: seq<nat>, pid: Pid,
      held: set<nat>) {
    Shared(buf, disk, a, pinned, pid, held) && HeldOk(buf, a, pid, held) && Cached(index, pinned)
  }

  /** The held buffers are as they were. */
  ghost predicate Kept(buf: seq<Buf>, buf': seq<Buf>, held: set<nat>) {
    |buf| == |buf'| && forall h :: h in held ==> h < |buf| && buf'[h] == buf[h]
  }

  ghost predicate SomeUnused(buf: seq<Buf>) {
    exists b :: 0 <= b < |buf| && buf[b].refcnt == 0
  }

  /** Nobody has locked a logged block. */
  ghost predicate LocksFree(buf: seq<Buf>, pinned: seq<nat>, held: set<nat>) {
    forall b :: 0 <= b < |buf| && b !in held && buf[b].dev != 0 && buf[b].blockno in pinned ==> buf[b].holder == 0
  }

  /** Nobody uses a buffer outside `held`, as on a machine that has just booted. */
  ghost predicate Alone(buf: seq<Buf>, held: set<nat>) {
    forall b :: 0 <= b < |buf| && b !in held ==> buf[b].refcnt == 0
  }

  /** Exactly the buffers of logged blocks are pinned, once. */
  ghost predicate PinsOk(buf: seq<Buf>, pinned: seq<nat>) {
    forall b :: 0 <= b < |buf| ==> buf[b].pins == if buf[b].dev != 0 && buf[b].blockno in pinned then 1 else 0
  }

  /** The buffers that are referenced but not pinned: those in use by others. */
  ghost function Busy(buf: seq<Buf>): (s: set<nat>) {
    set b | 0 <= b < |buf| && buf[b].refcnt > 0 && buf[b].pins == 0
  }

  /** How far the committing process gets: through; to the panic in bget; or to a
      sleep lock that is still held when the other processes' steps end. */
  datatype Progress = Done | NoBuffers | Asleep

  /** What the others do before the `k`-th bread. */
  function Turn(others: seq<seq<Event>>, k: nat): (t: seq<Event>) {
    if k < |others| then others[k] else []
  }

  ghost predicate Cached(index: map<nat, nat>, blocks: seq<nat>) {
    forall x :: x in blocks ==> x in index
  }

  /** Block numbers with the latest contents of those blocks. */
  ghost function EntriesOf(lh: seq<nat>, view: seq<Block>): (w: seq<LogEntry>)
    requires forall i :: 0 <= i < |lh| ==> lh[i] < |view|
    ensures Numbers(w) == lh && |w| == |lh|
  {
    seq(|lh|, i requires 0 <= i < |lh| => (lh[i], view[lh[i]]))
  }

  class Log {
    const area: Area
    const bc: Bcache
    var outstanding: nat
    var committing: bool
    var n: nat
    var block: seq<nat>   // LOGSIZE entries, of which the first n are in use

    constructor (bc: Bcache, area: Area)
      ensures this.bc == bc && this.area == area && |block| == LOGSIZE && n == 0 && State() == LogState(0, false, [])
    {
      this.bc, this.area := bc, area;
      outstanding, committing, n, block := 0, false, 0, seq(LOGSIZE, _ => 0);
    }

    ghost predicate Valid()
      reads this, bc
    {
      && bc.Valid() && |bc.view| == |bc.disk| && |block| == LOGSIZE && n <= LOGSIZE
      && area.Loggable(block[..n], |bc.disk|)
    }

    ghost function State(): (s: LogState)
      requires n <= |block|
      reads this
    {
      LogState(outstanding, committing, block[..n])
    }

    /** The contents that commit is about to write. */
    ghost function Entries(): (w: seq<LogEntry>)
      requires Valid()
      reads this, bc
      ensures Numbers(w) == block[..n] && |w| == n
    {
      EntriesOf(block[..n], bc.view)
    }

    /** The committing process can begin a round. */
    ghost predicate Ready(pid: Pid, pinned: seq<nat>)
      reads this, bc
    {
      Shared(bc.buf, bc.disk, area, pinned, pid, {}) && Cached(bc.index, pinned)
    }

    /** A step of a process that reads: bget, acquiresleep, the disk read of bread,
        or one half of brelse, on a block outside the log. */
    predicate ReaderMay(e: Event, pid: Pid)
      reads this, bc
    {
      && bc.Enabled(e) && e.pid != pid
      && if e.Get? then !area.Contains(e.n)
         else (e.Lock? || e.Read? || e.Unlock? || e.Drop?) && !area.Contains(bc.buf[e.b].blockno)
    }

    /** bget by a reader leaves the committing process's view of things alone. */
    method ReaderGet(q: Pid, x: nat, pid: Pid, ghost pinned: seq<nat>, ghost held: set<nat>)
      requires bc.Valid() && q != 0 && q != pid && x < |bc.disk| && !area.Contains(x)
      requires x in bc.index ==> q !in bc.buf[bc.index[x]].users
      requires Around(bc.buf, bc.index, bc.disk, area, pinned, pid, held)
      modifies bc`buf, bc`index
      ensures bc.Valid() && Around(bc.buf, bc.index, bc.disk, area, pinned, pid, held)
      ensures Kept(old(bc.buf), bc.buf, held)
    {
      hide Linked, Bcache.ViewOk, Bcache.LeastRecentlyUsed, Around, Kept;
      ghost var buf, index := bc.buf, bc.index;
      var r := bc.Bget(q, ROOTDEV, x);
      if r == HEAD {
        KeptSelf(buf, index, bc.disk, area, pinned, pid, held);
      } else {
        assert old(bc.BufOk(bc.buf[r]));
        ReaderGets(buf, bc.buf[r], index, bc.disk, area, pinned, pid, held, q, r, x);
        AfterReader(buf, bc.buf, index, bc.index, bc.disk, area, pinned, pid, held, r);
      }
    }

    /** So does any other step of a reader. */
    method ReaderStep(e: Event, pid: Pid, ghost pinned: seq<nat>, ghost held: set<nat>)
      requires bc.Valid() && ReaderMay(e, pid) && !e.Get?
      requires Around(bc.buf, bc.index, bc.disk, area, pinned, pid, held)
      modifies bc`buf, bc`ring, bc`prev, bc`next
      ensures bc.Valid() && Around(bc.buf, bc.index, bc.disk, area, pinned, pid, held)
      ensures Kept(old(bc.buf), bc.buf, held)
    {
      hide Linked, Bcache.ViewOk, MovedToFront, Around, Kept;
      ghost var buf := bc.buf;
      var b := e.b;
      OtherBuffer(buf, bc.index, bc.disk, area, pinned, pid, held, b);
      assert bc.BufOk(bc.buf[b]);
      match e {
        case Lock(q, _) => bc.AcquireSleep(q, b);
        case Read(q, _) =>
          if bc.buf[b].blockno !in pinned {
            CleanUnpinned(bc, area, pinned, pid, held, bc.buf[b].blockno);
          }
          bc.Fill(q, b);
        case Unlock(q, _) => bc.ReleaseSleep(q, b);
        case Drop(q, _) => bc.Unref(q, b);
      }
      AfterReader(buf, bc.buf, bc.index, bc.index, bc.disk, area, pinned, pid, held, b);
    }

    /** What the others do in the meantime; steps that are not theirs to take do
        not happen. */
    method Readers(turn: seq<Event>, pid: Pid, ghost pinned: seq<nat>, ghost held: set<nat>)
      requires bc.Valid() && Around(bc.buf, bc.index, bc.disk, area, pinned, pid, held)
      modifies bc`buf, bc`index, bc`ring, bc`prev, bc`next
      ensures bc.Valid() && Around(bc.buf, bc.index, bc.disk, area, pinned, pid, held)
      ensures Kept(old(bc.buf), bc.buf, held)
      ensures turn == [] ==> bc.buf == old(bc.buf) && bc.index == old(bc.index)
    {
      hide Linked, Bcache.ViewOk, Bcache.BufOk, Around, Kept;
      KeptSelf(bc.buf, bc.index, bc.disk, area, pinned, pid, held);
      for i := 0 to |turn|
        invariant bc.Valid() && Around(bc.buf, bc.index, bc.disk, area, pinned, pid, held)
        invariant Kept(old(bc.buf), bc.buf, held)
        invariant turn == [] ==> bc.buf == old(bc.buf) && bc.index == old(bc.index)
      {
        ghost var buf := bc.buf;
        var e := turn[i];
        if ReaderMay(e, pid) {
          if e.Get? {
            ReaderGet(e.pid, e.n, pid, pinned, held);
          } else {
            ReaderStep(e, pid, pinned, held);
          }
          KeptTrans(old(bc.buf), buf, bc.buf, held);
        }
      }
    }

    /** bread of a block whose buffer is locked: the reference is there before the wait. */
    method WaitFor(pid: Pid, x: nat, a: nat, ghost pinned: seq<nat>, ghost held: set<nat>)
      requires bc.Valid() && pid != 0 && x < |bc.disk| && Around(bc.buf, bc.index, bc.disk, area, pinned, pid, held)
      requires x in bc.index && bc.index[x] == a && a !in held && a < NBUF && bc.buf[a].holder != 0
      modifies bc`buf, bc`index
      ensures bc.Valid() && bc.index == old(bc.index) && Cached(bc.index, pinned) && !area.Contains(x)
      ensures Foreseen(old(bc.buf), bc.buf, area, pinned, held, x, Asleep, a)
      ensures a < |old(bc.buf)| && bc.buf == old(bc.buf)[a := old(bc.buf)[a].(refcnt := old(bc.buf)[a].refcnt + 1,
        users := old(bc.buf)[a].users + {pid})]
    {
      hide Linked, Bcache.ViewOk, Around, Foreseen, Cached;
      ghost var buf, index := bc.buf, bc.index;
      assert bc.BufOk(bc.buf[a]);
      FreeOfPid(buf, index, bc.disk, area, pinned, pid, held, a);
      var b := bc.Bget(pid, ROOTDEV, x);
      SleepsOn(buf, bc.buf, index, bc.disk, area, pinned, pid, held, x, a);
    }

    /** bread of block `x` by the committing process, with the others at rest. If it has to
        wait for the buffer's lock, it has the reference already. */
    method BreadShared(pid: Pid, x: nat, ghost pinned: seq<nat>, ghost held: set<nat>) returns (p: Progress, a: nat)
      requires bc.Valid() && pid != 0 && x < |bc.disk| && Around(bc.buf, bc.index, bc.disk, area, pinned, pid, held)
      requires x in bc.index ==> bc.index[x] !in held
      modifies bc`buf, bc`index
      ensures bc.Valid() && Cached(bc.index, pinned) && Foreseen(old(bc.buf), bc.buf, area, pinned, held, x, p, a)
      ensures p == NoBuffers ==> !SomeUnused(bc.buf) && x !in pinned
      ensures p == Asleep ==>
        && !area.Contains(x) && a < |old(bc.buf)| && bc.index == old(bc.index)
        && bc.buf == old(bc.buf)[a := old(bc.buf)[a].(refcnt := old(bc.buf)[a].refcnt + 1,
             users := old(bc.buf)[a].users + {pid})]
      ensures p == Done ==> a < NBUF && x < |bc.view| && Locked(bc.buf[a], area, pinned, pid, x, bc.view[x])
      ensures p == Done ==>
        a !in held && Shared(bc.buf, bc.disk, area, pinned, pid, held + {a}) && Kept(old(bc.buf), bc.buf, held)
    {
      hide Linked, Bcache.ViewOk, Bcache.BufOk, Around, Kept, Shared, HeldOk, Locked, Foreseen, SomeUnused, Cached;
      a := bc.FindCached(ROOTDEV, x);
      ghost var buf, index := bc.buf, bc.index;
      if a != HEAD && bc.buf[a].holder != 0 {
        WaitFor(pid, x, a, pinned, held);
        return Asleep, a;
      }
      CountsOk(bc);
      FreeOfPid(buf, index, bc.disk, area, pinned, pid, held, a);
      a := bc.Bread(pid, x);
      if a == HEAD {
        NoBufferFor(buf, index, bc.disk, area, pinned, pid, held, x);
        return NoBuffers, a;
      }
      GotBuffer(buf, bc.buf, index, bc.index, bc.disk, area, pinned, pid, held, x, a, bc.view[x]);
      return Done, a;
    }

    /** The same after the others' `turn`. */
    method ReadShared(pid: Pid, x: nat, turn: seq<Event>, ghost pinned: seq<nat>, ghost held: set<nat>)
      returns (p: Progress, a: nat)
      requires bc.Valid() && pid != 0 && x < |bc.disk| && Around(bc.buf, bc.index, bc.disk, area, pinned, pid, held)
      requires forall h :: h in held ==> h < |bc.buf| && bc.buf[h].blockno != x
      modifies bc`buf, bc`index, bc`ring, bc`prev, bc`next
      ensures bc.Valid() && Cached(bc.index, pinned)
      ensures p == NoBuffers ==> !SomeUnused(bc.buf) && x !in pinned
      ensures p == Asleep ==> !area.Contains(x)
      ensures p == Done ==> a < NBUF && x < |bc.view| && Locked(bc.buf[a], area, pinned, pid, x, bc.view[x])
      ensures p == Done ==>
        a !in held && Shared(bc.buf, bc.disk, area, pinned, pid, held + {a}) && Kept(old(bc.buf), bc.buf, held)
      ensures turn == [] ==> Foreseen(old(bc.buf), bc.buf, area, pinned, held, x, p, a)
    {
      hide Linked, Bcache.ViewOk, Bcache.BufOk, Around, Kept, Shared, Locked, Foreseen, SomeUnused, Cached;
      Readers(turn, pid, pinned, held);
      HeldElsewhere(old(bc.buf), bc.buf, bc.index, held, x);
      ghost var buf := bc.buf;
      p, a := BreadShared(pid, x, pinned, held);
      if p == Done {
        KeptTrans(old(bc.buf), buf, bc.buf, held);
      }
    }

    /** The two breads that a round begins with: a log block, then its home. */
    method ReadBoth(pid: Pid, log: nat, home: nat, t1: seq<Event>, t2: seq<Event>, ghost pinned: seq<nat>)
      returns (p: Progress, l: nat, d: nat)
      requires bc.Valid() && pid != 0 && log < |bc.disk| && home < |bc.disk| && log !in pinned
      requires area.Contains(log) && !area.Contains(home) && Ready(pid, pinned)
      modifies bc`buf, bc`index, bc`ring, bc`prev, bc`next
      ensures bc.Valid()
      ensures p == NoBuffers ==> !SomeUnused(bc.buf)
      ensures p == Done ==> l < NBUF && d < NBUF && l != d && log < |bc.view| && home < |bc.view|
      ensures p == Done ==>
        && Locked(bc.buf[l], area, pinned, pid, log, bc.view[log])
        && Locked(bc.buf[d], area, pinned, pid, home, bc.view[home])
        && Shared(bc.buf, bc.disk, area, pinned, pid, {l} + {d}) && Cached(bc.index, pinned)
      ensures t1 == [] && t2 == [] ==> BothForeseen(old(bc.buf), bc.buf, pinned, home, p, l, d)
    {
      hide Linked, Bcache.ViewOk, Bcache.IndexOk, Bcache.BufOk, Shared, Around, Cached, Kept, Locked, Foreseen;
      hide BothForeseen, SomeUnused;
      ghost var b0 := bc.buf;
      d := 0;
      NothingHeld(b0, bc.index, bc.disk, area, pinned, pid);
      p, l := ReadShared(pid, log, t1, pinned, {});
      ghost var p1, b1 := p, bc.buf;
      if p == Done {
        NowHeld(b1, bc.index, bc.disk, area, pinned, pid, l, log, bc.view[log]);
        p, d := ReadShared(pid, home, t2, pinned, {l});
        if p == Done {
          KeptOne(b1, bc.buf, l);
        }
      }
      if t1 == [] && t2 == [] {
        Foresee(b0, b1, bc.buf, area, pinned, log, home, p1, p, l, d);
      }
    }

    /** One round of write_log: the cached block goes to its log block. */
    method WriteLogBlock(pid: Pid, tail: nat, t1: seq<Event>, t2: seq<Event>) returns (p: Progress)
      requires Valid() && pid != 0 && tail < n && Ready(pid, block[..n])
      modifies bc
      ensures Valid()
      ensures p != Done ==> bc.disk == old(bc.disk) && bc.trace == old(bc.trace) && bc.view == old(bc.view)
      ensures p == Done ==>
        var d := old(bc.view)[block[tail]];
        && bc.disk == old(bc.disk)[area.start + tail + 1 := d]
        && bc.view == old(bc.view)[area.start + tail + 1 := d]
        && bc.trace == old(bc.trace) + [bc.disk]
      ensures p == Done ==> Ready(pid, block[..n]) && SomeUnused(bc.buf)
      ensures p == NoBuffers ==> !SomeUnused(bc.buf)
      ensures t1 == [] && t2 == [] && LocksFree(old(bc.buf), block[..n], {}) ==>
        p == (if SomeUnused(old(bc.buf)) then Done else NoBuffers) && (p == Done ==> LocksFree(bc.buf, block[..n], {}))
    {
      hide Linked, Bcache.ViewOk, Bcache.IndexOk, Bcache.BufOk, Distinct, Shared, Around, Cached, Kept, SomeUnused;
      hide LocksFree;
      ghost var pinned := block[..n];
      assert pinned[tail] == block[tail];
      var to, from;
      p, to, from := ReadBoth(pid, area.start + tail + 1, block[tail], t1, t2, pinned);
      if p != Done {
        return;
      }
      ghost var b2, d2 := bc.buf, bc.disk;
      CopyAndRelease(pid, from, to);
      assert {pid} - {pid} == {};
      IndexedOnly(bc, to, area.start + tail + 1);
      AfterCopy(b2, bc.buf, bc.index, d2, bc.disk, area, pinned, pid, from, to, area.start + tail + 1, block[tail]);
    }

    /** The second half of a round of write_log: memmove, bwrite, brelse, brelse. */
    method CopyAndRelease(pid: Pid, from: nat, to: nat)
      requires bc.Valid() && pid != 0 && from < NBUF && to < NBUF && from != to
      requires bc.buf[from].holder == pid && bc.buf[from].valid && bc.buf[from].pins > 0
      requires bc.buf[to].holder == pid && bc.buf[to].valid
      modifies bc
      ensures bc.Valid() && bc.index == old(bc.index)
      ensures old(bc.buf)[from].refcnt > 0 && old(bc.buf)[to].refcnt > 0
      ensures bc.buf ==
        old(bc.buf)[from := old(bc.buf)[from].(holder := 0, refcnt := old(bc.buf)[from].refcnt - 1,
            users := old(bc.buf)[from].users - {pid})]
          [to := old(bc.buf)[to].(holder := 0, refcnt := old(bc.buf)[to].refcnt - 1,
            users := old(bc.buf)[to].users - {pid}, data := old(bc.buf)[from].data)]
      ensures
        var k := old(bc.buf)[to].blockno;
        && k < |old(bc.disk)| == |old(bc.view)|
        && bc.disk == old(bc.disk)[k := old(bc.buf)[from].data]
        && bc.view == old(bc.view)[k := old(bc.buf)[from].data]
        && bc.trace == old(bc.trace) + [bc.disk]
    {
      hide Linked, Bcache.ViewOk, Bcache.IndexOk;
      bc.Modify(pid, to, bc.buf[from].data);
      bc.Bwrite(pid, to);
      bc.Brelse(pid, from);
      bc.Brelse(pid, to);
    }

    /** write_log, while others read: `k` blocks reach the log. It comes to the panic
        in bget exactly when no buffer is unused. */
    method WriteLog(pid: Pid, others: seq<seq<Event>>) returns (p: Progress, ghost k: nat)
      requires Valid() && pid != 0 && n > 0 && Ready(pid, block[..n])
      modifies bc
      ensures Valid() && k <= n && |bc.disk| == |old(bc.disk)|
      ensures bc.disk == area.Logged(old(bc.disk), old(Entries()), k)
      ensures bc.trace == old(bc.trace) + area.LogTrace(old(bc.disk), old(Entries()), k)
      ensures area.SameHome(bc.view, old(bc.view))
      ensures if p == Done then k == n && Ready(pid, block[..n]) && SomeUnused(bc.buf) else k < n
      ensures p == NoBuffers ==> !SomeUnused(bc.buf)
      ensures others == [] && LocksFree(old(bc.buf), block[..n], {}) ==>
        if SomeUnused(old(bc.buf)) then p == Done && LocksFree(bc.buf, block[..n], {}) else p == NoBuffers && k == 0
    {
      hide Bcache.Valid, Ready, Distinct, SomeUnused, LocksFree;
      ghost var w := Entries();
      var tail := 0;
      while tail < n
        invariant tail <= n && Valid() && |bc.disk| == |old(bc.disk)| && Ready(pid, block[..n])
        invariant bc.disk == area.Logged(old(bc.disk), w, tail)
        invariant bc.trace == old(bc.trace) + area.LogTrace(old(bc.disk), w, tail)
        invariant area.SameHome(bc.view, old(bc.view))
        invariant tail > 0 ==> SomeUnused(bc.buf)
        invariant others == [] && LocksFree(old(bc.buf), block[..n], {}) ==>
          && LocksFree(bc.buf, block[..n], {})
          && if tail == 0 then bc.buf == old(bc.buf) else SomeUnused(old(bc.buf))
      {
        assert block[..n][tail] == block[tail] && !area.Contains(block[tail]);
        assert area.Contains(area.start + tail + 1);
        assert bc.view[block[tail]] == w[tail].1;
        p := WriteLogBlock(pid, tail, Turn(others, 2 * tail), Turn(others, 2 * tail + 1));
        if p != Done {
          return p, tail;
        }
        tail := tail + 1;
      }
      return Done, n;
    }

    /** The blocks that are still pinned when `tail` of them are installed. */
    ghost function ToInstall(tail: nat, recovering: bool): (p: seq<nat>)
      requires tail <= n <= |block|
      reads this
    {
      if recovering then [] else block[tail..n]
    }

    /** What a round does with the two buffers that it has read. */
    method InstallHeld(pid: Pid, log: nat, home: nat, l: nat, d: nat, recovering: bool, ghost pinned: seq<nat>,
        ghost later: seq<nat>)
      requires bc.Valid() && pid != 0 && l < NBUF && d < NBUF && l != d
      requires log < |bc.disk| == |bc.view| && home < |bc.view| && bc.view[log] == bc.disk[log]
      requires Locked(bc.buf[l], area, pinned, pid, log, bc.view[log])
      requires Locked(bc.buf[d], area, pinned, pid, home, bc.view[home])
      requires Shared(bc.buf, bc.disk, area, pinned, pid, {l} + {d}) && Cached(bc.index, pinned)
      requires area.Contains(log) && !area.Contains(home) && log !in pinned && home !in later
      requires pinned == (if recovering then [] else [home] + later) && (recovering ==> later == [])
      modifies bc
      ensures bc.Valid() && Shared(bc.buf, bc.disk, area, later, pid, {}) && Cached(bc.index, later)
      ensures SomeUnused(bc.buf) && |bc.view| == |bc.disk|
      ensures bc.disk == old(bc.disk)[home := old(bc.disk)[log]] && bc.trace == old(bc.trace) + [bc.disk]
      ensures LocksFree(old(bc.buf), pinned, {l} + {d}) ==> LocksFree(bc.buf, later, {})
      ensures Alone(old(bc.buf), {l} + {d}) && old(bc.buf)[d].refcnt == 1 ==> Alone(bc.buf, {})
    {
      hide Linked, Bcache.ViewOk, Bcache.IndexOk, Bcache.BufOk, Shared, Cached, SomeUnused, LocksFree, Alone;
      ghost var b2, d2 := bc.buf, bc.disk;
      InstallAndRelease(pid, l, d, recovering);
      IndexedOnly(bc, d, home);
      AfterInstall(b2, bc.buf, bc.index, d2, bc.disk, area, pinned, later, pid, l, d, log, home);
    }

    /** One round of install_trans: a log block goes to its home. */
    method InstallBlock(pid: Pid, tail: nat, recovering: bool, t1: seq<Event>, t2: seq<Event>) returns (p: Progress)
      requires Valid() && pid != 0 && tail < n && Ready(pid, ToInstall(tail, recovering))
      requires recovering ==> Alone(bc.buf, {}) && t1 == [] && t2 == []
      modifies bc
      ensures Valid()
      ensures p != Done ==> bc.disk == old(bc.disk) && bc.trace == old(bc.trace)
      ensures p == Done ==>
        && bc.disk == old(bc.disk)[block[tail] := old(bc.disk)[area.start + tail + 1]]
        && bc.trace == old(bc.trace) + [bc.disk]
      ensures p == Done ==> Ready(pid, ToInstall(tail + 1, recovering)) && SomeUnused(bc.buf)
      ensures p == NoBuffers ==> !SomeUnused(bc.buf)
      ensures recovering ==> p == Done && Alone(bc.buf, {})
      ensures t1 == [] && t2 == [] && LocksFree(old(bc.buf), ToInstall(tail, recovering), {}) ==>
        SomeUnused(old(bc.buf)) && !recovering ==>
          p == Done && LocksFree(bc.buf, ToInstall(tail + 1, recovering), {})
    {
      hide Linked, Bcache.ViewOk, Bcache.IndexOk, Bcache.BufOk, Distinct, Shared, Around, Cached, Kept, SomeUnused;
      hide LocksFree, Alone, Area.Loggable, Locked, ToInstall, BothForeseen;
      ghost var pinned, later := ToInstall(tail, recovering), ToInstall(tail + 1, recovering);
      SplitPinned(tail, recovering);
      var l, d;
      CleanUnpinned(bc, area, pinned, pid, {}, area.start + tail + 1);
      p, l, d := ReadBoth(pid, area.start + tail + 1, block[tail], t1, t2, pinned);
      ForeseenRound(old(bc.buf), bc.buf, pinned, block[tail], p, l, d, t1, t2, recovering);
      if p != Done {
        return;
      }
      InstallHeld(pid, area.start + tail + 1, block[tail], l, d, recovering, pinned, later);
    }

    lemma SplitPinned(tail: nat, recovering: bool)
      requires |block| == LOGSIZE && tail < n <= LOGSIZE && area.Loggable(block[..n], |bc.view|)
      ensures
        var pinned, later := ToInstall(tail, recovering), ToInstall(tail + 1, recovering);
        && pinned == (if recovering then [] else [block[tail]] + later) && (recovering ==> later == [])
        && block[tail] !in later && |pinned| <= n
        && area.start + tail + 1 !in pinned && block[tail] != area.start + tail + 1
        && block[tail] < |bc.view| && area.start + tail + 1 < |bc.view|
        && area.Contains(area.start + tail + 1) && !area.Contains(block[tail])
    {
      assert block[..n][tail] == block[tail];
      forall i | tail < i < n
        ensures block[..n][i] == block[tail..n][i - tail] == block[tail + 1..n][i - tail - 1]
      {}
    }

    /** The second half of a round: memmove, bwrite, bunpin, brelse, brelse. */
    method InstallAndRelease(pid: Pid, l: nat, d: nat, recovering: bool)
      requires bc.Valid() && pid != 0 && l < NBUF && d < NBUF && l != d
      requires bc.buf[l].valid && bc.buf[l].holder == pid && bc.buf[l].users == {pid} && bc.buf[l].pins == 0
      requires bc.buf[d].valid && bc.buf[d].holder == pid && bc.buf[d].pins == if recovering then 0 else 1
      requires bc.buf[l].blockno != bc.buf[d].blockno
      requires bc.view[bc.buf[l].blockno] == bc.disk[bc.buf[l].blockno]
      modifies bc
      ensures bc.Valid() && bc.index == old(bc.index) && |bc.buf| == |old(bc.buf)|
      ensures bc.buf == old(bc.buf)[l := Released(old(bc.buf)[l], pid, old(bc.buf)[l].data)]
                                   [d := Released(old(bc.buf)[d], pid, old(bc.buf)[l].data)]
      ensures
        var k := old(bc.buf)[d].blockno;
        && k < |old(bc.disk)| == |old(bc.view)|
        && bc.disk == old(bc.disk)[k := old(bc.buf)[l].data]
        && bc.view == old(bc.view)[k := old(bc.buf)[l].data]
        && bc.trace == old(bc.trace) + [bc.disk]
    {
      hide Linked, Bcache.ViewOk, Bcache.IndexOk, MovedToFront;
      assert bc.BufOk(bc.buf[l]) && bc.BufOk(bc.buf[d]);
      bc.Modify(pid, d, bc.buf[l].data);
      bc.Bwrite(pid, d);
      if !recovering {
        bc.Bunpin(pid, d);
      }
      bc.Brelse(pid, l);
      bc.Brelse(pid, d);
      assert |old(bc.buf)[d].users - {pid}| == |old(bc.buf)[d].users| - 1;
    }

    /** install_trans: `k` blocks reach their homes. At boot nothing is in its way. */
    method InstallTrans(pid: Pid, recovering: bool, others: seq<seq<Event>>, from: nat)
      returns (p: Progress, ghost k: nat)
      requires Valid() && pid != 0 && Ready(pid, ToInstall(0, recovering))
      requires recovering ==> Alone(bc.buf, {}) && others == []
      modifies bc
      ensures Valid() && k <= n && |bc.disk| == |old(bc.disk)|
      ensures bc.disk == area.Installed(old(bc.disk), block[..n], k)
      ensures bc.trace == old(bc.trace) + area.InstallTrace(old(bc.disk), block[..n], k)
      ensures if p == Done then k == n && Ready(pid, []) && (n > 0 ==> SomeUnused(bc.buf)) else k < n
      ensures p == NoBuffers ==> !SomeUnused(bc.buf)
      ensures recovering ==> p == Done && Alone(bc.buf, {})
      ensures others == [] && LocksFree(old(bc.buf), block[..n], {}) && SomeUnused(old(bc.buf)) && !recovering ==>
        p == Done
    {
      hide Bcache.Valid, Ready, Distinct, SomeUnused, LocksFree, Alone;
      assert !recovering ==> ToInstall(0, recovering) == block[..n];
      var tail := 0;
      while tail < n
        invariant tail <= n && Valid() && |bc.disk| == |old(bc.disk)| && Ready(pid, ToInstall(tail, recovering))
        invariant bc.disk == area.Installed(old(bc.disk), block[..n], tail)
        invariant bc.trace == old(bc.trace) + area.InstallTrace(old(bc.disk), block[..n], tail)
        invariant recovering ==> Alone(bc.buf, {})
        invariant tail > 0 ==> SomeUnused(bc.buf)
        invariant others == [] && LocksFree(old(bc.buf), block[..n], {}) && SomeUnused(old(bc.buf)) && !recovering ==>
          LocksFree(bc.buf, ToInstall(tail, recovering), {}) && SomeUnused(bc.buf)
      {
        LogIsNotHome(area, old(bc.disk), block[..n], tail);
        assert area.Contains(area.start + tail + 1);
        p := InstallBlock(pid, tail, recovering, Turn(others, from + 2 * tail), Turn(others, from + 2 * tail + 1));
        if p != Done {
          return p, tail;
        }
        tail := tail + 1;
      }
      assert ToInstall(tail, recovering) == [];
      return Done, n;
    }

    /** Overwrite a held, unpinned block on the disk and let go of it. */
    method StoreAndRelease(pid: Pid, b: nat, d: Block)
      requires bc.Valid() && pid != 0 && b < NBUF && bc.buf[b].holder == pid && bc.buf[b].valid
      modifies bc
      ensures bc.Valid() && bc.index == old(bc.index) && |bc.disk| == |bc.view|
      ensures old(bc.buf)[b].refcnt > 0 && bc.buf == old(bc.buf)[b := old(bc.buf)[b].(
        holder := 0, refcnt := old(bc.buf)[b].refcnt - 1, users := old(bc.buf)[b].users - {pid}, data := d)]
      ensures
        var k := old(bc.buf)[b].blockno;
        && k < |old(bc.disk)| == |old(bc.view)|
        && bc.disk == old(bc.disk)[k := d] && bc.view == old(bc.view)[k := d]
        && bc.trace == old(bc.trace) + [bc.disk]
    {
      hide Linked, Bcache.IndexOk;
      bc.Modify(pid, b, d);
      bc.Bwrite(pid, b);
      bc.Brelse(pid, b);
    }

    /** write_head, while the blocks of `pinned` are pinned. */
    method WriteHead(pid: Pid, ghost pinned: seq<nat>, turn: seq<Event>) returns (p: Progress)
      requires Valid() && pid != 0 && Ready(pid, pinned) && area.start !in pinned
      modifies bc
      ensures Valid() && p != Asleep
      ensures p != Done ==> bc.disk == old(bc.disk) && bc.trace == old(bc.trace)
      ensures forall i :: 0 <= i < n ==> block[..n][i] < 0x1_0000_0000
      ensures p == Done ==>
        && bc.disk == old(bc.disk)[area.start := EncodeHead(old(bc.disk)[area.start], block[..n], n)]
        && bc.trace == old(bc.trace) + [bc.disk]
      ensures p == Done ==> Ready(pid, pinned) && SomeUnused(bc.buf)
      ensures p == NoBuffers ==> !SomeUnused(bc.buf)
      ensures turn == [] && SomeUnused(old(bc.buf)) ==>
        p == Done && (LocksFree(old(bc.buf), pinned, {}) ==> LocksFree(bc.buf, pinned, {}))
      ensures turn == [] && Alone(old(bc.buf), {}) ==> p == Done && Alone(bc.buf, {})
    {
      hide Linked, Bcache.ViewOk, Bcache.IndexOk, Bcache.BufOk, SetWord, Shared, Around, Cached, Kept, SomeUnused;
      hide LocksFree, Alone;
      var b;
      NothingHeld(bc.buf, bc.index, bc.disk, area, pinned, pid);
      CleanUnpinned(bc, area, pinned, pid, {}, area.start);
      p, b := ReadShared(pid, area.start, turn, pinned, {});
      if p != Done {
        return;
      }
      ghost var b1, d1 := bc.buf, bc.disk;
      var hb := SetWord(bc.buf[b].data, 0, n);
      var i := 0;
      while i < n
        invariant i <= n && hb == EncodeHead(bc.buf[b].data, block[..n], i)
      {
        hb := SetWord(hb, i + 1, block[i]);
        i := i + 1;
      }
      StoreAndRelease(pid, b, hb);
      assert {pid} - {pid} == {};
      IndexedOnly(bc, b, area.start);
      AfterHead(b1, bc.buf, d1, bc.disk, area, pinned, pid, b, area.start, hb);
    }

    /** read_head, on a machine that has just booted. */
    method ReadHead(pid: Pid)
      requires bc.Valid() && pid != 0 && |block| == LOGSIZE && area.HeaderOk(bc.disk) && Alone(bc.buf, {})
      modifies this`n, this`block, bc
      ensures Valid() && Alone(bc.buf, {})
      ensures bc.disk == old(bc.disk) && bc.trace == old(bc.trace) && bc.view == old(bc.view)
      ensures block[..n] == DecodeHead(bc.disk[area.start])
    {
      hide Linked, Bcache.IndexOk, Bcache.BufOk, Distinct, Word, MovedToFront, Shared, Around, Cached, Kept, Alone;
      AloneReady(bc, area, pid);
      CleanUnpinned(bc, area, [], pid, {}, area.start);
      NothingHeld(bc.buf, bc.index, bc.disk, area, [], pid);
      var p, b := ReadShared(pid, area.start, [], [], {});
      ghost var buf := bc.buf;
      var lh := bc.buf[b].data;
      n := Word(lh, 0);
      var i := 0;
      while i < n
        modifies this`block
        invariant i <= n <= LOGSIZE == |block| && n == Word(lh, 0)
        invariant forall j :: 0 <= j < i ==> block[j] == Word(lh, j + 1)
      {
        block := block[i := Word(lh, i + 1)];
        i := i + 1;
      }
      bc.Brelse(pid, b);
      AloneAgain(buf, bc.buf, b);
      assert block[..n] == DecodeHead(bc.disk[area.start]);
    }

    /** recover_from_log, on a machine that has just booted. */
    method Recover(pid: Pid)
      requires bc.Valid() && pid != 0 && |block| == LOGSIZE && area.HeaderOk(bc.disk) && Alone(bc.buf, {})
      modifies this`n, this`block, bc
      ensures Valid() && n == 0 && Alone(bc.buf, {})
      ensures bc.trace == old(bc.trace) + area.RecoveryTrace(old(bc.disk))
      ensures bc.disk == area.RecoveryState(old(bc.disk), |DecodeHead(old(bc.disk)[area.start])|)
    {
      hide Bcache.Valid, Shared, EncodeHead, Area.Installed, Alone, SomeUnused;
      ReadHead(pid);
      AloneReady(bc, area, pid);
      LogIsNotHome(area, bc.disk, block[..n], n);
      assert ToInstall(0, true) == [] && Ready(pid, []);
      var p;
      ghost var k;
      p, k := InstallTrans(pid, true, [], 0);
      n := 0;
      assert block[..n] == [];
      AloneReady(bc, area, pid);
      p := WriteHead(pid, [], []);
    }

    /** commit, while others read before each bread: its disk writes are the first
        `k` of the commit trace, all of them if it gets through. With a fixed set of
        buffers in use by others it panics exactly when those and the pinned ones
        are all there are. */
    method Commit(pid: Pid, others: seq<seq<Event>>) returns (p: Progress, ghost k: nat)
      requires Valid() && pid != 0 && Ready(pid, block[..n])
      modifies this`n, bc
      ensures Valid() && Wrote(area, old(bc.disk), old(Entries()), old(bc.trace), bc.trace, bc.disk, k)
      ensures p == Done ==> n == 0 && Ready(pid, []) && k == if old(n) == 0 then 0 else 2 * old(n) + 2
      ensures p == NoBuffers ==> !SomeUnused(bc.buf)
      ensures others == [] && LocksFree(old(bc.buf), block[..old(n)], {}) ==>
        p == if old(n) == 0 || old(n) + |Busy(old(bc.buf))| < NBUF then Done else NoBuffers
    {
      hide Bcache.Valid, Shared, Cached, EncodeHead, SomeUnused, LocksFree, Busy, Wrote, Area.Logged, Area.Installed;
      hide Area.LogTrace, Area.InstallTrace, Area.CommitTrace, Area.CommitState, Area.Committed;
      ghost var d, w, t0, m := bc.disk, Entries(), bc.trace, n;
      k := 0;
      WroteNothing(area, d, w, t0);
      assert m == 0 ==> block[..n] == [];
      if n > 0 {
        BuffersLeft(bc, area, block[..n], pid);
        assert area.start !in block[..n];
        ghost var j;
        p, j := WriteLog(pid, others);
        WroteLog(area, d, w, t0, bc.trace, j);
        k := j;
        if p != Done {
          return;
        }
        LoggedFacts(area, d, w, |w|);
        ghost var t := bc.trace;
        p := WriteHead(pid, block[..n], Turn(others, 2 * n));
        if p != Done {
          return;
        }
        CommittedIs(area, d, w);
        WroteHead(area, d, w, t0, t, bc.trace);
        k, t := m + 1, bc.trace;
        p, j := InstallTrans(pid, false, others, 2 * n + 1);
        WroteHomes(area, d, w, t0, t, bc.trace, j);
        k := m + 1 + j;
        if p != Done {
          return;
        }
        LogIsNotHome(area, area.Committed(d, w), block[..n], n);
        t := bc.trace;
        var turn := Turn(others, 4 * n + 1);
        n := 0;
        assert block[..n] == [];
        p := WriteHead(pid, [], turn);
        if p != Done {
          return;
        }
        WroteAll(area, d, w, t0, t, bc.trace);
        k := 2 * m + 2;
      }
      p := Done;
    }

    /** A commit that starts with an empty log, read off the disk's history, whatever
        the readers do and even if it panics on the way: a crash before write `n` of
        it recovers the old homes, any later crash the new ones, and in the end every
        block's latest contents are at home. */
    method CommitAtomically(pid: Pid, others: seq<seq<Event>>) returns (p: Progress)
      requires Valid() && pid != 0 && Ready(pid, block[..n]) && Word(bc.disk[area.start], 0) == 0
      modifies this`n, bc
      ensures Valid() && |old(bc.trace)| <= |bc.trace|
      ensures forall j :: |old(bc.trace)| <= j < |bc.trace| ==>
        area.Means(bc.trace[j], if j - |old(bc.trace)| < old(n) then old(bc.disk) else old(bc.view))
      ensures p == Done ==>
        n == 0 && Ready(pid, []) && Word(bc.disk[area.start], 0) == 0 && area.SameHome(bc.disk, old(bc.view))
      ensures others == [] && LocksFree(old(bc.buf), block[..old(n)], {}) ==>
        p == if old(n) == 0 || old(n) + |Busy(old(bc.buf))| < NBUF then Done else NoBuffers
    {
      hide Bcache.Valid, Shared, Cached, EncodeHead, SomeUnused, LocksFree, Busy, Area.CommitState, Area.CommitTrace;
      hide Area.Means, Area.Loggable;
      ghost var d, w, t, v, k := bc.disk, Entries(), bc.trace, bc.view, 0;
      ViewIsTransaction(pid);
      p, k := Commit(pid, others);
      CommitFinishes(area, d, w);
      forall j | |t| <= j < |bc.trace|
        ensures area.Means(bc.trace[j], if j - |t| < |w| then d else v)
      {
        CommitTraceAt(area, d, w, j - |t|);
        CommitIsAtomic(area, d, w, j - |t|);
        MeansSame(area, bc.trace[j], Plain(d, w), v);
      }
    }

    /** The latest contents of all blocks are the disk plus the logged blocks. */
    lemma ViewIsTransaction(pid: Pid)
      requires Valid() && Ready(pid, block[..n])
      ensures area.SameHome(Plain(bc.disk, Entries()), bc.view)
    {
      hide Linked, Bcache.ViewOk, Bcache.IndexOk, Bcache.BufOk, Shared, Cached;
      var w := Entries();
      PlainDistinct(bc.disk, w);
      forall x | 0 <= x < |bc.disk|
        ensures Plain(bc.disk, w)[x] == bc.view[x]
      {
        if x in block[..n] {
          var i :| 0 <= i < n && block[..n][i] == x;
          assert w[i] == (x, bc.view[x]);
        } else {
          CleanUnpinned(bc, area, block[..n], pid, {}, x);
        }
      }
    }

    // ----- The protocol steps, as log.lock makes them atomic -----

    /** One round of begin_op's loop: enter, or else go to sleep. */
    method BeginOp() returns (admitted: bool)
      requires n <= |block|
      modifies this`outstanding
      ensures admitted <==> !old(committing) && old(n) + (old(outstanding) + 1) * MAXOPBLOCKS <= LOGSIZE
      ensures admitted == CanBegin(old(State()))
      ensures State() == if admitted then LogProtocol.BeginOp(old(State())) else old(State())
    {
      if committing {
        return false;
      } else if n + (outstanding + 1) * MAXOPBLOCKS > LOGSIZE {
        return false;
      } else {
        outstanding := outstanding + 1;
        return true;
      }
    }

    /** The logged blocks are cached, and exactly they are pinned. */
    ghost predicate Pinned()
      requires n <= |block|
      reads this, bc
    {
      Cached(bc.index, block[..n]) && PinsOk(bc.buf, block[..n])
    }

    /** log_write; `false` is the panic "too big a transaction". */
    method LogWrite(pid: Pid, b: nat) returns (ok: bool)
      requires Valid() && Pinned() && outstanding >= 1
      requires b < NBUF && bc.buf[b].holder == pid != 0 && bc.buf[b].valid && !area.Contains(bc.buf[b].blockno)
      modifies this`n, this`block, bc`buf
      ensures Valid() && Pinned()
      ensures ok <==> old(n) < LOGSIZE && old(n) < area.size - 1
      ensures ok ==>
        var x := old(bc.buf)[b].blockno;
        block[..n] == if x in old(block[..n]) then old(block[..n]) else old(block[..n]) + [x]
      ensures ok <==> !TooBig(old(State()), area.size)
      ensures State() == if ok then LogProtocol.LogWrite(old(State()), old(bc.buf)[b].blockno) else old(State())
      ensures ok ==> bc.buf == old(bc.buf)[b := old(bc.buf)[b].(pins := 1, refcnt := |old(bc.buf)[b].users| + 1)]
      ensures !ok ==> bc.buf == old(bc.buf)
    {
      hide Linked, Bcache.ViewOk, Bcache.IndexOk;
      if n >= LOGSIZE || n >= area.size - 1 {
        return false;
      }
      var x := bc.buf[b].blockno;
      assert bc.BufOk(bc.buf[b]);
      bc.NoBlockCachedTwice(b);
      var i := 0;
      while i < n
        invariant 0 <= i <= n && x !in block[..i]
      {
        if block[i] == x {
          break;
        }
        i := i + 1;
      }
      assert i < n ==> block[..n][i] == x;
      block := block[i := x];
      if i == n {
        bc.Bpin(pid, b);
        n := n + 1;
        assert block[..n] == old(block)[..i] + [x];
      } else {
        assert block == old(block);
      }
      return true;
    }

    /** end_op up to the point where it decides to commit. */
    method EndOp() returns (doCommit: bool)
      requires n <= |block| && outstanding >= 1 && !committing
      modifies this`outstanding, this`committing
      ensures outstanding == old(outstanding) - 1 && (doCommit <==> committing) && (committing <==> outstanding == 0)
      ensures State() == LogProtocol.EndOp(old(State()))
    {
      outstanding := outstanding - 1;
      doCommit := false;
      if outstanding == 0 {
        doCommit := true;
        committing := true;
      }
    }

    /** The second part of end_op: commit, then let operations begin again. Their
        predecessors' writes are then at home. */
    method FinishOp(pid: Pid, others: seq<seq<Event>>) returns (p: Progress)
      requires Valid() && pid != 0 && committing && outstanding == 0 && Ready(pid, block[..n])
      requires Word(bc.disk[area.start], 0) == 0
      modifies this`n, this`committing, bc
      ensures p != Done ==> committing && outstanding == 0
      ensures p == Done ==>
        && Valid() && Ready(pid, []) && Word(bc.disk[area.start], 0) == 0 && area.SameHome(bc.disk, old(bc.view))
        && State() == LogProtocol.CommitDone(old(State())) && CanBegin(State())
    {
      hide Bcache.Valid, Shared, Cached, Area.Means, Area.Loggable;
      p := CommitAtomically(pid, others);
      if p == Done {
        committing := false;
      }
    }
  }

  // ----- A run in which a reader makes commit panic -----

  /** Nobody uses a buffer. */
  ghost predicate Unheld(buf: seq<Buf>) {
    forall b :: 0 <= b < |buf| ==> buf[b].users == {} && buf[b].holder == 0
  }

  /** Three operations have begun, nobody is at work, and `i` blocks are logged. */
  ghost predicate Resting(log: Log, i: nat)
    reads log, log.bc
  {
    && log.Valid() && log.Pinned() && log.n == i && log.block[..i] == seq(i, k => 100 + k)
    && log.outstanding == 3 && !log.committing && log.area == Area(2, 30)
    && |log.bc.disk| == 2000 && Word(log.bc.disk[2], 0) == 0 && Unheld(log.bc.buf)
  }

  lemma RestingReady(bc: Bcache, a: Area, pinned: seq<nat>, pid: Pid)
    requires bc.Valid() && Unheld(bc.buf) && PinsOk(bc.buf, pinned)
    ensures Shared(bc.buf, bc.disk, a, pinned, pid, {}) && Busy(bc.buf) == {}
  {
    hide Linked, Bcache.ViewOk;
    forall b | 0 <= b < NBUF
      ensures SharedAt(bc.buf[b], bc.disk, a, pinned, pid) && b !in Busy(bc.buf)
    {
      assert bc.BufOk(bc.buf[b]);
    }
  }

  lemma UnusedOne(buf: seq<Buf>)
    requires SomeUnused(buf) && |buf| == NBUF
    ensures !forall b :: 0 <= b < NBUF ==> buf[b].refcnt > 0
  {}

  /** bread by process `pid` when nobody is at work. */
  method ReadResting(log: Log, pid: Pid, x: nat) returns (b: nat)
    requires log.Valid() && log.Pinned() && log.n < NBUF && Unheld(log.bc.buf) && pid != 0 && x < |log.bc.disk|
    requires x !in log.block[..log.n]
    modifies log.bc`buf, log.bc`index
    ensures log.Valid() && log.Pinned() && b < NBUF && |log.bc.buf| == NBUF
    ensures forall c :: 0 <= c < NBUF && c != b ==> log.bc.buf[c].users == {} && log.bc.buf[c].holder == 0
    ensures log.bc.buf[b] == Buf(true, ROOTDEV, x, pid, 1, log.bc.view[x], {pid}, 0)
  {
    hide Linked, Bcache.ViewOk, Shared, Distinct, SomeUnused, Busy, Cached;
    ghost var buf, index, pinned := log.bc.buf, log.bc.index, log.block[..log.n];
    RestingReady(log.bc, log.area, pinned, pid);
    BuffersLeft(log.bc, log.area, pinned, pid);
    CountsOk(log.bc);
    UnusedOne(buf);
    b := log.bc.Bread(pid, x);
    assert {} + {pid} == {pid};
    StillCached(buf, log.bc.buf, index, log.bc.index, pinned, b);
  }

  /** An operation reads block `100 + i`, logs it, and lets go of it. */
  method LogOne(log: Log, i: nat)
    requires i < 29 && Resting(log, i)
    modifies log`n, log`block, log.bc
    ensures Resting(log, i + 1)
  {
    hide Linked, Bcache.ViewOk, Bcache.IndexOk, Bcache.BufOk, Distinct, MovedToFront, Cached;
    var b := ReadResting(log, 1, 100 + i);
    var ok := log.LogWrite(1, b);
    assert log.block[..log.n] == seq(i, k => 100 + k) + [100 + i];
    assert log.block[..log.n] == seq(i + 1, k => 100 + k);
    assert {1} - {1} == {};
    log.bc.Brelse(1, b);
  }

  /** Three operations log 29 blocks, all that the log of mkfs can take. */
  method ThreeOperations(image: seq<Block>) returns (log: Log)
    requires |image| == 2000 && Word(image[2], 0) == 0
    ensures fresh(log) && fresh(log.bc) && Resting(log, 29)
  {
    hide Linked, Bcache.Valid, Area.Loggable, PinsOk, Unheld, Cached;
    var bc := new Bcache(image);
    log := new Log(bc, Area(2, 30));
    var a1 := log.BeginOp();
    var a2 := log.BeginOp();
    var a3 := log.BeginOp();
    assert log.block[..0] == [] && seq(0, k => 100 + k) == [];
    Booted(log);
    for i := 0 to 29
      invariant Resting(log, i) && fresh(log) && fresh(log.bc)
    {
      LogOne(log, i);
    }
  }

  /** They end while a reader holds one more block, and commit finds no buffer. */
  method CommitWithReader(log: Log) returns (p: Progress, ghost busy: set<nat>)
    requires Resting(log, 29)
    modifies log`n, log`outstanding, log`committing, log.bc
    ensures p == NoBuffers && log.committing && log.outstanding == 0 && |busy| == 1
  {
    hide Linked, Bcache.ViewOk, Bcache.IndexOk, Bcache.BufOk, Distinct, Shared, Cached, SomeUnused, Busy, LocksFree;
    hide PinsOk, Area.Means;
    ghost var pinned := log.block[..log.n];
    RestingReady(log.bc, log.area, pinned, 3);
    CleanUnpinned(log.bc, log.area, pinned, 3, {}, 500);
    var r := ReadResting(log, 9, 500);
    var c1 := log.EndOp();
    var c2 := log.EndOp();
    var c3 := log.EndOp();
    OneReader(log.bc, log.area, pinned, r);
    busy := Busy(log.bc.buf);
    p := log.CommitAtomically(3, []);
  }

  /** On any disk with the log that mkfs lays out, a reader can make commit panic: with
      29 blocks logged, one buffer in use is enough. */
  method ReaderStopsCommit(image: seq<Block>) returns (log: Log, p: Progress, ghost busy: set<nat>)
    requires |image| == 2000 && Word(image[2], 0) == 0
    ensures fresh(log) && log.area == Area(2, 30) && |log.block| == LOGSIZE
    ensures log.block[..29] == seq(29, k => 100 + k) && |busy| == 1
    ensures p == NoBuffers && log.committing && log.outstanding == 0
  {
    log := ThreeOperations(image);
    p, busy := CommitWithReader(log);
  }

  lemma Booted(log: Log)
    requires log.bc.Valid() && log.n == 0 && |log.block| == LOGSIZE && log.area == Area(2, 30) && |log.bc.disk| == 2000
    requires forall b :: 0 <= b < NBUF ==> log.bc.buf[b] == FreshBuf
    ensures log.Valid() && log.Pinned() && Unheld(log.bc.buf)
  {
    hide Linked;
  }

  lemma OneReader(bc: Bcache, a: Area, pinned: seq<nat>, r: nat)
    requires bc.Valid() && PinsOk(bc.buf, pinned) && r < NBUF && 500 !in pinned && !a.Contains(500)
    requires 500 < |bc.disk| == |bc.view|
    requires forall c :: 0 <= c < NBUF && c != r ==> bc.buf[c].users == {} && bc.buf[c].holder == 0
    requires bc.buf[r] == Buf(true, ROOTDEV, 500, 9, 1, bc.view[500], {9}, 0) && bc.view[500] == bc.disk[500]
    ensures Shared(bc.buf, bc.disk, a, pinned, 3, {}) && LocksFree(bc.buf, pinned, {}) && Busy(bc.buf) == {r}
  {
    hide Linked, Bcache.ViewOk;
    forall b | 0 <= b < NBUF
      ensures SharedAt(bc.buf[b], bc.disk, a, pinned, 3) && (b in Busy(bc.buf) <==> b == r)
    {
      assert bc.BufOk(bc.buf[b]);
    }
  }

  /** A valid buffer of block `x`, locked by the committing process. */
  ghost predicate Locked(b: Buf, a: Area, pinned: seq<nat>, pid: Pid, x: nat, data: Block) {
    && b.valid && b.dev == ROOTDEV && b.blockno == x && b.holder == pid && pid in b.users && b.data == data
    && b.pins == (if x in pinned then 1 else 0) && b.refcnt == |b.users| + b.pins
    && (a.Contains(x) ==> b.users == {pid})
  }

  /** How a bread of `x` goes, by the buffers before it. */
  ghost predicate Foreseen(buf: seq<Buf>, buf': seq<Buf>, a: Area, pinned: seq<nat>, held: set<nat>, x: nat,
      p: Progress, r: nat) {
    && (SomeUnused(buf) ==> p != NoBuffers)
    && (!SomeUnused(buf) && a.Contains(x) && x !in pinned ==> p == NoBuffers)
    && (LocksFree(buf, pinned, held) && x in pinned ==> p == Done)
    && (LocksFree(buf, pinned, held) && p == Done ==> LocksFree(buf', pinned, held + {r}))
    && (Alone(buf, held) && |held| < 2 ==> p == Done && Alone(buf', held + {r}) && r < |buf'| && buf'[r].refcnt == 1)
  }

  /** How the two breads of a round go, by the buffers before them. */
  ghost predicate BothForeseen(buf: seq<Buf>, buf': seq<Buf>, pinned: seq<nat>, home: nat, p: Progress, l: nat,
      d: nat) {
    && (LocksFree(buf, pinned, {}) && home in pinned ==> p == if SomeUnused(buf) then Done else NoBuffers)
    && (LocksFree(buf, pinned, {}) && p == Done ==> LocksFree(buf', pinned, {l} + {d}))
    && (Alone(buf, {}) ==> p == Done && Alone(buf', {l} + {d}) && d < |buf'| && buf'[d].refcnt == 1)
  }

  lemma ForeseenRound(buf: seq<Buf>, buf': seq<Buf>, pinned: seq<nat>, home: nat, p: Progress, l: nat, d: nat,
      t1: seq<Event>, t2: seq<Event>, recovering: bool)
    requires t1 == [] && t2 == [] ==> BothForeseen(buf, buf', pinned, home, p, l, d)
    requires recovering ==> Alone(buf, {}) && t1 == [] && t2 == []
    requires !recovering ==> home in pinned
    ensures recovering ==> p == Done && Alone(buf', {l} + {d}) && d < |buf'| && buf'[d].refcnt == 1
    ensures t1 == [] && t2 == [] && LocksFree(buf, pinned, {}) && SomeUnused(buf) && !recovering ==>
      p == Done && LocksFree(buf', pinned, {l} + {d})
  {
    hide LocksFree, Alone, SomeUnused;
  }

  lemma Foresee(b0: seq<Buf>, b1: seq<Buf>, b2: seq<Buf>, a: Area, pinned: seq<nat>, log: nat, home: nat, p1: Progress,
      p: Progress, l: nat, d: nat)
    requires a.Contains(log) && log !in pinned && Foreseen(b0, b1, a, pinned, {}, log, p1, l) && p1 != Asleep
    requires if p1 == Done then Foreseen(b1, b2, a, pinned, {l}, home, p, d) else p == p1
    ensures BothForeseen(b0, b2, pinned, home, p, l, d)
  {
    hide LocksFree, Alone, SomeUnused;
    assert {} + {l} == {l};
  }

  lemma CountsOk(bc: Bcache)
    requires bc.Valid()
    ensures |bc.buf| == NBUF && forall b :: 0 <= b < NBUF ==> bc.buf[b].refcnt == |bc.buf[b].users| + bc.buf[b].pins
  {
    hide Linked;
    forall b | 0 <= b < NBUF
      ensures bc.buf[b].refcnt == |bc.buf[b].users| + bc.buf[b].pins
    {
      assert bc.BufOk(bc.buf[b]);
    }
  }

  lemma KeptSelf(buf: seq<Buf>, index: map<nat, nat>, disk: seq<Block>, a: Area, pinned: seq<nat>, pid: Pid,
      held: set<nat>)
    requires Around(buf, index, disk, a, pinned, pid, held)
    ensures Kept(buf, buf, held)
  {}

  lemma KeptTrans(a: seq<Buf>, b: seq<Buf>, c: seq<Buf>, held: set<nat>)
    requires Kept(a, b, held) && Kept(b, c, held)
    ensures Kept(a, c, held)
  {}

  /** A buffer of a block outside the log is none of the held ones. */
  lemma OtherBuffer(buf: seq<Buf>, index: map<nat, nat>, disk: seq<Block>, a: Area, pinned: seq<nat>, pid: Pid,
      held: set<nat>, b: nat)
    requires Around(buf, index, disk, a, pinned, pid, held)
    requires b < |buf| && !a.Contains(buf[b].blockno)
    ensures b !in held && SharedAt(buf[b], disk, a, pinned, pid) && Shared(buf, disk, a, pinned, pid, held)
    ensures forall h :: h in held ==> h < |buf| && buf[h].blockno != buf[b].blockno
  {}

  lemma HeldElsewhere(buf0: seq<Buf>, buf: seq<Buf>, index: map<nat, nat>, held: set<nat>, x: nat)
    requires Kept(buf0, buf, held) && Indexed(buf, index)
    requires forall h :: h in held ==> h < |buf0| && buf0[h].blockno != x
    ensures x in index ==> index[x] !in held
    ensures forall h :: h in held ==> h < |buf| && buf[h].blockno != x
  {}

  lemma SleepsOn(buf: seq<Buf>, buf': seq<Buf>, index: map<nat, nat>, disk: seq<Block>, a: Area, pinned: seq<nat>,
      pid: Pid, held: set<nat>, x: nat, r: nat)
    requires Around(buf, index, disk, a, pinned, pid, held) && Indexed(buf, index) && x in index && r == index[x]
    requires r !in held
    requires buf[r].holder != 0 && buf[r].holder in buf[r].users && buf[r].refcnt == |buf[r].users| + buf[r].pins
    ensures !a.Contains(x) && Cached(index, pinned) && Foreseen(buf, buf', a, pinned, held, x, Asleep, r)
  {
    assert |buf[r].users| > 0;
  }

  lemma FreeOfPid(buf: seq<Buf>, index: map<nat, nat>, disk: seq<Block>, a: Area, pinned: seq<nat>, pid: Pid,
      held: set<nat>, r: nat)
    requires Around(buf, index, disk, a, pinned, pid, held)
    ensures Cached(index, pinned) && (r < |buf| && r !in held ==> pid !in buf[r].users)
  {}

  /** The panic in bget. */
  lemma NoBufferFor(buf: seq<Buf>, index: map<nat, nat>, disk: seq<Block>, a: Area, pinned: seq<nat>, pid: Pid,
      held: set<nat>, x: nat)
    requires Around(buf, index, disk, a, pinned, pid, held) && x !in index && |buf| == NBUF
    requires forall b :: 0 <= b < NBUF ==> buf[b].refcnt > 0
    ensures !SomeUnused(buf) && x !in pinned && Foreseen(buf, buf, a, pinned, held, x, NoBuffers, HEAD)
  {
    if |held| < 2 && Alone(buf, held) {
      NotAllHeld(buf, held);
    }
  }

  /** The buffer that bread gives to the committing process. */
  lemma GotBuffer(buf: seq<Buf>, buf': seq<Buf>, index: map<nat, nat>, index': map<nat, nat>, disk: seq<Block>, a: Area,
      pinned: seq<nat>, pid: Pid, held: set<nat>, x: nat, r: nat, data: Block)
    requires Around(buf, index, disk, a, pinned, pid, held) && Indexed(buf, index) && Indexed(buf', index')
    requires |buf| == |buf'| == NBUF && r < NBUF
    requires forall b :: 0 <= b < NBUF ==> buf[b].refcnt == |buf[b].users| + buf[b].pins
    requires if x in index then r == index[x] && r !in held else buf[r].refcnt == 0
    requires buf' == buf[r := Buf(true, ROOTDEV, x, pid, buf[r].refcnt + 1, data, buf[r].users + {pid}, buf[r].pins)]
    requires x in index ==> buf[r].holder == 0
    ensures r !in held && Locked(buf'[r], a, pinned, pid, x, data) && Cached(index', pinned)
    ensures Shared(buf', disk, a, pinned, pid, held + {r}) && Kept(buf, buf', held)
    ensures Foreseen(buf, buf', a, pinned, held, x, Done, r)
  {
    assert r !in held;
    assert SharedAt(buf[r], disk, a, pinned, pid);
    assert |buf[r].users + {pid}| == |buf[r].users| + 1;
    StillCached(buf, buf', index, index', pinned, r);
  }

  /** What bget makes of the buffer `r` that it gives to a reader `q`. */
  lemma ReaderGets(buf: seq<Buf>, y: Buf, index: map<nat, nat>, disk: seq<Block>, a: Area, pinned: seq<nat>, pid: Pid,
      held: set<nat>, q: Pid, r: nat, x: nat)
    requires Around(buf, index, disk, a, pinned, pid, held)
    requires r < |buf| && !a.Contains(x) && q != pid && Indexed(buf, index)
    requires buf[r].refcnt == |buf[r].users| + buf[r].pins
    requires if x in index then r == index[x] && y == buf[r].(refcnt := buf[r].refcnt + 1, users := buf[r].users + {q})
             else buf[r].refcnt == 0 && y == Buf(false, ROOTDEV, x, 0, 1, buf[r].data, {q}, 0)
    ensures r !in held && SharedAt(y, disk, a, pinned, pid)
    ensures buf[r].pins > 0 ==> y.blockno == buf[r].blockno && y.dev == buf[r].dev
  {
    if x in index {
      OtherBuffer(buf, index, disk, a, pinned, pid, held, r);
    }
  }

  /** One buffer changed hands among the others. */
  lemma AfterReader(buf: seq<Buf>, buf': seq<Buf>, index: map<nat, nat>, index': map<nat, nat>, disk: seq<Block>,
      a: Area, pinned: seq<nat>, pid: Pid, held: set<nat>, r: nat)
    requires Around(buf, index, disk, a, pinned, pid, held) && Indexed(buf, index) && Indexed(buf', index')
    requires r < |buf| == |buf'| && r !in held && buf' == buf[r := buf'[r]] && SharedAt(buf'[r], disk, a, pinned, pid)
    requires buf[r].pins > 0 ==> buf'[r].blockno == buf[r].blockno && buf'[r].dev == buf[r].dev
    ensures Around(buf', index', disk, a, pinned, pid, held) && Kept(buf, buf', held)
  {
    assert SharedAt(buf[r], disk, a, pinned, pid);
    StillCached(buf, buf', index, index', pinned, r);
  }

  lemma MeansSame(a: Area, d: seq<Block>, m: seq<Block>, v: seq<Block>)
    requires a.SameHome(m, v)
    ensures a.Means(d, m) ==> a.Means(d, v)
  {}

  /** A buffer that the process lets go of, with its pin. */
  ghost function Released(b: Buf, pid: Pid, data: Block): (r: Buf) {
    b.(holder := 0, refcnt := |b.users - {pid}|, users := b.users - {pid}, pins := 0, data := data)
  }

  /** After a round of write_log. */
  lemma AfterCopy(buf: seq<Buf>, buf': seq<Buf>, index: map<nat, nat>, disk: seq<Block>, disk': seq<Block>, a: Area,
      pinned: seq<nat>, pid: Pid, from: nat, to: nat, log: nat, home: nat)
    requires |buf| == |buf'| && from < |buf| && to < |buf| && from != to && home in pinned && log !in pinned
    requires a.Contains(log)
    requires Shared(buf, disk, a, pinned, pid, {to} + {from}) && log < |disk|
    requires buf[from].blockno == home && buf[from].pins == 1 && !a.Contains(home) && buf[from].dev != 0
    requires buf[to].blockno == log && buf[to].users == {pid} && buf[to].pins == 0 && buf[to].refcnt == 1
    requires buf[from].refcnt > 0
    requires buf' ==
      buf[from := buf[from].(holder := 0, refcnt := buf[from].refcnt - 1, users := buf[from].users - {pid})]
                        [to := buf[to].(holder := 0, refcnt := 0, users := {}, data := buf[from].data)]
    requires disk' == disk[log := buf[from].data]
    requires forall b :: 0 <= b < |buf'| && b != to && buf'[b].dev != 0 ==> buf'[b].blockno != log
    requires forall b :: 0 <= b < |buf'| && buf'[b].dev == 0 ==> !buf'[b].valid
    ensures Shared(buf', disk', a, pinned, pid, {}) && SomeUnused(buf')
    ensures LocksFree(buf, pinned, {to} + {from}) ==> LocksFree(buf', pinned, {})
  {
    assert buf'[to].refcnt == 0;
  }

  /** After a round of install_trans. */
  lemma AfterInstall(buf: seq<Buf>, buf': seq<Buf>, index: map<nat, nat>, disk: seq<Block>, disk': seq<Block>, a: Area,
      pinned: seq<nat>, later: seq<nat>, pid: Pid, l: nat, d: nat, log: nat, home: nat)
    requires |buf| == |buf'| && l < |buf| && d < |buf| && l != d && a.Contains(log) && !a.Contains(home)
    requires home < |disk|
    requires pinned == later || pinned == [home] + later
    requires home !in later && log !in later && Cached(index, pinned)
    requires Shared(buf, disk, a, pinned, pid, {l} + {d})
    requires buf[l].blockno == log && buf[l].users == {pid} && log < |disk| && buf[l].data == disk[log]
    requires buf[d].blockno == home && buf[d].dev != 0
    requires buf' == buf[l := Released(buf[l], pid, buf[l].data)][d := Released(buf[d], pid, buf[l].data)]
    requires disk' == disk[home := buf[l].data]
    requires forall b :: 0 <= b < |buf'| && b != d && buf'[b].dev != 0 ==> buf'[b].blockno != home
    requires forall b :: 0 <= b < |buf'| && buf'[b].dev == 0 ==> !buf'[b].valid
    ensures Shared(buf', disk', a, later, pid, {}) && SomeUnused(buf') && Cached(index, later)
    ensures LocksFree(buf, pinned, {l} + {d}) ==> LocksFree(buf', later, {})
    ensures Alone(buf, {l} + {d}) && buf[d].users == {pid} ==> Alone(buf', {})
  {
    assert {pid} - {pid} == {};
    assert buf'[l].refcnt == 0;
    forall b | 0 <= b < |buf'|
      ensures SharedAt(buf'[b], disk', a, later, pid)
    {
      if b != l && b != d {
        assert SharedAt(buf[b], disk, a, pinned, pid);
      }
    }
  }

  /** After write_head. */
  lemma AfterHead(buf: seq<Buf>, buf': seq<Buf>, disk: seq<Block>, disk': seq<Block>, a: Area, pinned: seq<nat>,
      pid: Pid, r: nat, x: nat, data: Block)
    requires |buf| == |buf'| && r < |buf| && a.Contains(x) && x !in pinned && x < |disk|
    requires Shared(buf, disk, a, pinned, pid, {} + {r})
    requires buf[r].blockno == x && buf[r].users == {pid} && buf[r].pins == 0 && buf[r].refcnt == 1
    requires buf' == buf[r := buf[r].(holder := 0, refcnt := 0, users := {}, data := data)] && disk' == disk[x := data]
    requires forall b :: 0 <= b < |buf'| && b != r && buf'[b].dev != 0 ==> buf'[b].blockno != x
    requires forall b :: 0 <= b < |buf'| && buf'[b].dev == 0 ==> !buf'[b].valid
    ensures Shared(buf', disk', a, pinned, pid, {}) && SomeUnused(buf')
    ensures LocksFree(buf, pinned, {} + {r}) ==> LocksFree(buf', pinned, {})
    ensures Alone(buf, {} + {r}) ==> Alone(buf', {})
  {
    assert buf'[r].refcnt == 0;
  }

  /** On a machine that has just booted everything is ready. */
  lemma AloneReady(bc: Bcache, a: Area, pid: Pid)
    requires bc.Valid() && Alone(bc.buf, {})
    ensures Shared(bc.buf, bc.disk, a, [], pid, {}) && Cached(bc.index, [])
  {
    hide Linked;
    forall b | 0 <= b < |bc.buf|
      ensures SharedAt(bc.buf[b], bc.disk, a, [], pid)
    {
      assert bc.BufOk(bc.buf[b]);
      assert bc.buf[b].refcnt == 0;
    }
  }

  lemma AloneAgain(buf: seq<Buf>, buf': seq<Buf>, r: nat)
    requires r < |buf| == |buf'| && Alone(buf, {} + {r}) && buf' == buf[r := buf'[r]] && buf'[r].refcnt == 0
    ensures Alone(buf', {})
  {}

  // ----- How much of the commit trace is on the disk -----

  /** Of the disk writes of a commit, `k` came after `t0`, and left disk `e`. */
  ghost predicate Wrote(a: Area, d: seq<Block>, w: seq<LogEntry>, t0: seq<seq<Block>>, t: seq<seq<Block>>,
      e: seq<Block>, k: nat) {
    && a.Loggable(Numbers(w), |d|) && k <= |a.CommitTrace(d, w)| <= 2 * |w| + 2
    && t == t0 + a.CommitTrace(d, w)[..k] && e == if k == 0 then d else a.CommitState(d, w, k - 1)
  }

  lemma WroteNothing(a: Area, d: seq<Block>, w: seq<LogEntry>, t0: seq<seq<Block>>)
    requires a.Loggable(Numbers(w), |d|)
    ensures Wrote(a, d, w, t0, t0, d, 0)
  {
    hide Area.CommitState;
  }

  lemma WroteLog(a: Area, d: seq<Block>, w: seq<LogEntry>, t0: seq<seq<Block>>, t: seq<seq<Block>>, j: nat)
    requires a.Loggable(Numbers(w), |d|) && w != [] && j <= |w| && t == t0 + a.LogTrace(d, w, j)
    ensures Wrote(a, d, w, t0, t, a.Logged(d, w, j), j)
  {
    hide Area.Logged, Area.Installed, Area.InstallTrace;
    forall i | 0 <= i < j
      ensures a.LogTrace(d, w, j)[i] == a.CommitTrace(d, w)[i]
    {
      LogTraceAt(a, d, w, j, i);
      LogTraceAt(a, d, w, |w|, i);
    }
    assert a.LogTrace(d, w, j) == a.CommitTrace(d, w)[..j];
    LoggedNone(a, d, w);
  }

  lemma LoggedNone(a: Area, d: seq<Block>, w: seq<LogEntry>)
    requires a.Loggable(Numbers(w), |d|)
    ensures a.Logged(d, w, 0) == d
  {}

  lemma CommittedIs(a: Area, d: seq<Block>, w: seq<LogEntry>)
    requires a.Loggable(Numbers(w), |d|)
    ensures a.Committed(d, w) == a.Logged(d, w, |w|)[a.start := EncodeHead(d[a.start], Numbers(w), |w|)]
  {}

  lemma WroteHead(a: Area, d: seq<Block>, w: seq<LogEntry>, t0: seq<seq<Block>>, t: seq<seq<Block>>,
      t': seq<seq<Block>>)
    requires a.Loggable(Numbers(w), |d|) && w != [] && t == t0 + a.LogTrace(d, w, |w|) && t' == t + [a.Committed(d, w)]
    ensures Wrote(a, d, w, t0, t', a.Committed(d, w), |w| + 1)
  {
    hide Area.Logged, Area.LogTrace, Area.Committed, Wrote;
    WroteHomes(a, d, w, t0, t', t', 0);
  }

  lemma WroteHomes(a: Area, d: seq<Block>, w: seq<LogEntry>, t0: seq<seq<Block>>, t: seq<seq<Block>>,
      t': seq<seq<Block>>, j: nat)
    requires a.Loggable(Numbers(w), |d|) && w != [] && j <= |w|
    requires t == t0 + a.LogTrace(d, w, |w|) + [a.Committed(d, w)]
    requires t' == t + a.InstallTrace(a.Committed(d, w), Numbers(w), j)
    ensures Wrote(a, d, w, t0, t', a.Installed(a.Committed(d, w), Numbers(w), j), |w| + 1 + j)
  {
    hide Area.Logged, Area.LogTrace, Area.Installed, Area.Committed;
    var c, lh := a.Committed(d, w), Numbers(w);
    forall i | 0 <= i < j
      ensures a.InstallTrace(c, lh, j)[i] == a.InstallTrace(c, lh, |w|)[i]
    {
      InstallTraceAt(a, c, lh, j, i);
      InstallTraceAt(a, c, lh, |w|, i);
    }
    assert a.LogTrace(d, w, |w|) + [c] + a.InstallTrace(c, lh, j) == a.CommitTrace(d, w)[..|w| + 1 + j];
  }

  lemma WroteAll(a: Area, d: seq<Block>, w: seq<LogEntry>, t0: seq<seq<Block>>, t: seq<seq<Block>>, t': seq<seq<Block>>)
    requires a.Loggable(Numbers(w), |d|) && w != []
    requires
      var c := a.Committed(d, w);
      && t == t0 + a.LogTrace(d, w, |w|) + [c] + a.InstallTrace(c, Numbers(w), |w|)
      && t' == t + [a.Installed(c, Numbers(w), |w|)[a.start := EncodeHead(c[a.start], [], 0)]]
    ensures Wrote(a, d, w, t0, t', t'[|t'| - 1], 2 * |w| + 2)
  {
    hide Area.Logged, Area.LogTrace, Area.Installed, Area.Committed, Area.InstallTrace, EncodeHead, Area.Loggable;
    hide Numbers;
    var e := LastState(a, d, w);
    Regroup(t0, a.LogTrace(d, w, |w|), a.Committed(d, w), a.InstallTrace(a.Committed(d, w), Numbers(w), |w|), e);
    assert a.CommitTrace(d, w)[..2 * |w| + 2] == a.CommitTrace(d, w);
  }

  lemma LastState(a: Area, d: seq<Block>, w: seq<LogEntry>) returns (e: seq<Block>)
    requires a.Loggable(Numbers(w), |d|) && w != []
    ensures
      var c := a.Committed(d, w);
      && e == a.CommitState(d, w, 2 * |w| + 1) ==
        a.Installed(c, Numbers(w), |w|)[a.start := EncodeHead(c[a.start], [], 0)]
      && a.CommitTrace(d, w) == a.LogTrace(d, w, |w|) + [c] + a.InstallTrace(c, Numbers(w), |w|) + [e]
  {
    hide Area.Logged, Area.LogTrace, Area.Installed, Area.Committed, Area.InstallTrace, EncodeHead;
    e := a.CommitState(d, w, 2 * |w| + 1);
  }

  lemma Regroup<T>(t0: seq<T>, x: seq<T>, c: T, y: seq<T>, e: T)
    ensures t0 + x + [c] + y + [e] == t0 + (x + [c] + y + [e])
  {}

  // ----- How many buffers are left -----

  /** The buffers of the logged blocks are as many as those. */
  lemma {:induction false} PinnedBuffers(buf: seq<Buf>, index: map<nat, nat>, pinned: seq<nat>) returns (s: set<nat>)
    requires Indexed(buf, index) && Cached(index, pinned) && Distinct(pinned)
    ensures |s| == |pinned| && forall b :: b in s <==> 0 <= b < |buf| && buf[b].dev != 0 && buf[b].blockno in pinned
    decreases |pinned|
  {
    if pinned == [] {
      s := {};
    } else {
      var last := |pinned| - 1;
      var x := pinned[last];
      assert x in pinned && forall y :: y in pinned <==> y in pinned[..last] || y == x;
      var r := PinnedBuffers(buf, index, pinned[..last]);
      s := r + {index[x]};
      assert index[x] !in r;
    }
  }

  /** A buffer is unused just when the pinned ones and those in use by others are
      not all there are. */
  lemma BuffersLeft(bc: Bcache, a: Area, pinned: seq<nat>, pid: Pid)
    requires bc.Valid() && Shared(bc.buf, bc.disk, a, pinned, pid, {}) && Cached(bc.index, pinned) && Distinct(pinned)
    ensures SomeUnused(bc.buf) <==> |pinned| + |Busy(bc.buf)| < NBUF
  {
    hide Linked, Bcache.ViewOk, SomeUnused, Distinct, Busy;
    CountsOk(bc);
    var s := PinnedBuffers(bc.buf, bc.index, pinned);
    forall b | 0 <= b < NBUF
      ensures b in s <==> bc.buf[b].pins > 0
    {
      assert SharedAt(bc.buf[b], bc.disk, a, pinned, pid);
      assert bc.BufOk(bc.buf[b]);
    }
    UnusedCount(bc.buf, s);
  }

  lemma UnusedCount(buf: seq<Buf>, s: set<nat>)
    requires |buf| == NBUF && forall b :: 0 <= b < NBUF ==> buf[b].refcnt >= buf[b].pins
    requires (forall b :: b in s ==> b < NBUF) && forall b :: 0 <= b < NBUF ==> (b in s <==> buf[b].pins > 0)
    ensures SomeUnused(buf) <==> |s| + |Busy(buf)| < NBUF
  {
    var all := FirstOnes(NBUF);
    var used := s + Busy(buf);
    assert |used| == |s| + |Busy(buf)|;
    if u :| 0 <= u < NBUF && buf[u].refcnt == 0 {
      assert used <= all - {u};
      SubsetCard(used, all - {u});
    } else {
      assert used == all;
    }
  }

  lemma {:induction false} FirstOnes(n: nat) returns (s: set<nat>)
    ensures |s| == n && forall b :: b in s <==> 0 <= b < n
  {
    s := {};
    if n > 0 {
      var r := FirstOnes(n - 1);
      s := r + {n - 1};
    }
  }

  lemma NothingHeld(buf: seq<Buf>, index: map<nat, nat>, disk: seq<Block>, a: Area, pinned: seq<nat>, pid: Pid)
    requires Shared(buf, disk, a, pinned, pid, {}) && Cached(index, pinned)
    ensures Around(buf, index, disk, a, pinned, pid, {})
  {}

  /** The log block that a round begins with. */
  lemma NowHeld(buf: seq<Buf>, index: map<nat, nat>, disk: seq<Block>, a: Area, pinned: seq<nat>, pid: Pid, r: nat,
      x: nat, data: Block)
    requires Shared(buf, disk, a, pinned, pid, {} + {r}) && Cached(index, pinned) && r < |buf|
    requires Locked(buf[r], a, pinned, pid, x, data) && a.Contains(x)
    ensures Around(buf, index, disk, a, pinned, pid, {r}) && buf[r].blockno == x
  {
    assert {} + {r} == {r};
  }

  lemma KeptOne(buf: seq<Buf>, buf': seq<Buf>, r: nat)
    requires Kept(buf, buf', {r})
    ensures r < |buf| == |buf'| && buf'[r] == buf[r]
  {}

  lemma IndexedOnly(bc: Bcache, r: nat, x: nat)
    requires bc.Valid() && r < NBUF && bc.buf[r].dev != 0 && bc.buf[r].blockno == x
    ensures |bc.buf| == NBUF && forall b :: 0 <= b < NBUF && b != r && bc.buf[b].dev != 0 ==> bc.buf[b].blockno != x
    ensures forall b :: 0 <= b < NBUF && bc.buf[b].dev == 0 ==> !bc.buf[b].valid
  {
    bc.NoBlockCachedTwice(r);
    forall b | 0 <= b < NBUF && bc.buf[b].dev == 0
      ensures !bc.buf[b].valid
    {
      assert bc.BufOk(bc.buf[b]);
    }
  }

  lemma StillCached(buf: seq<Buf>, buf': seq<Buf>, index: map<nat, nat>, index': map<nat, nat>, pinned: seq<nat>,
      r: nat)
    requires Indexed(buf, index) && Indexed(buf', index') && Cached(index, pinned)
    requires r < |buf| == |buf'| && buf' == buf[r := buf'[r]]
    requires buf[r].blockno in pinned && buf[r].dev != 0 ==> buf'[r].blockno == buf[r].blockno && buf'[r].dev != 0
    ensures Cached(index', pinned)
  {
    forall x | x in pinned
      ensures x in index'
    {
      var f := index[x];
      assert buf'[f].blockno == x && buf'[f].dev != 0;
    }
  }

  lemma NotAllHeld(buf: seq<Buf>, held: set<nat>)
    requires |buf| == NBUF && |held| < 2 && Alone(buf, held)
    ensures SomeUnused(buf)
  {
    if 0 in held && 1 in held {
      assert {0, 1} <= held;
      SubsetCard({0, 1}, held);
    }
    assert 0 !in held || 1 !in held;
  }

  lemma SubsetCard(s: set<nat>, t: set<nat>)
    requires s <= t
    ensures |s| <= |t|
  {
    assert t == s + (t - s);
  }

  /** A block that is not logged agrees with the disk. */
  lemma CleanUnpinned(bc: Bcache, a: Area, pinned: seq<nat>, pid: Pid, held: set<nat>, x: nat)
    requires bc.Valid() && Shared(bc.buf, bc.disk, a, pinned, pid, held) && x < |bc.disk| && x !in pinned
    requires forall h :: h in held && h < |bc.buf| ==> bc.buf[h].blockno != x
    ensures bc.view[x] == bc.disk[x]
  {
    if x in bc.index {
      assert bc.BufOk(bc.buf[bc.index[x]]);
    }
  }
}
