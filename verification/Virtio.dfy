/** kernel/virtio_disk.c: the driver's side of a virtio queue and a device that
    completes requests in any order. Each method is what happens in one critical
    section of vdisk_lock, or one action of the device. */
module Virtio {

  /** Queue size. */
  const NUM := 8

  const NEXT := 1
  const WRITE := 2

  datatype Option<T> = None | Some(value: T)

  /** The three kinds of memory that descriptors point to. */
  datatype Addr = Nowhere | OpAt(i: nat) | DataOf(b: nat) | StatusOf(i: nat)

  datatype Desc = Desc(addr: Addr, len: nat, flags: nat, next: nat)

  /** struct virtio_blk_req */
  datatype Op = Op(out: bool, sector: nat)

  datatype Info = Info(b: Option<nat>, status: nat)

  /** A request in flight: its buffer, what it asks for, and its other two descriptors. */
  datatype Req = Req(b: nat, block: nat, out: bool, d1: nat, d2: nat)

  datatype Stage = Published | Taken | Done | Completed

  /** A 16-bit index one further. */
  function Inc(i: nat): (r: nat) {
    (i + 1) % 0x1_0000
  }

  /** `idx` wraps at 2^16, and the ring holds `q` from there on. */
  ghost predicate RingHolds(ring: seq<nat>, idx: nat, end: nat, q: seq<nat>) {
    && |ring| == NUM && |q| <= NUM && idx < 0x1_0000 && end == (idx + |q|) % 0x1_0000
    && forall k :: 0 <= k < |q| ==> ring[(idx + k) % NUM] == q[k]
  }

  lemma RingPut(ring: seq<nat>, idx: nat, end: nat, q: seq<nat>, h: nat)
    requires RingHolds(ring, idx, end, q) && |q| < NUM
    ensures RingHolds(ring[end % NUM := h], idx, Inc(end), q + [h])
  {
    assert end % NUM == (idx + |q|) % NUM;
    var r := ring[end % NUM := h];
    forall k | 0 <= k < |q + [h]|
      ensures r[(idx + k) % NUM] == (q + [h])[k]
    {
      if k < |q| {
        Positions(idx, k, |q|);
      }
    }
  }

  lemma Positions(idx: nat, k: nat, n: nat)
    requires k < n < NUM
    ensures (idx + k) % NUM != (idx + n) % NUM
  {}

  lemma RingGet(ring: seq<nat>, idx: nat, end: nat, q: seq<nat>)
    requires RingHolds(ring, idx, end, q)
    ensures idx == end <==> q == []
    ensures q != [] ==> ring[idx % NUM] == q[0] && RingHolds(ring, Inc(idx), end, q[1..])
  {
    if q != [] {
      assert ring[(idx + 0) % NUM] == q[0];
      forall k | 0 <= k < |q| - 1
        ensures ring[(Inc(idx) + k) % NUM] == q[1..][k]
      {
        assert (Inc(idx) + k) % NUM == (idx + (k + 1)) % NUM;
      }
    }
  }

  // ----- The queue and the requests in flight -----

  /** The driver's and the device's memory. */
  datatype Queue = Queue(free: seq<bool>, desc: seq<Desc>, ops: seq<Op>, info: seq<Info>,
    avail: seq<nat>, availIdx: nat, taken: nat, used: seq<nat>, usedIdx: nat, seen: nat)

  /** The requests, where each of them is, the owner of each descriptor in use, the
      request of each buffer, and the two rings as queues. */
  datatype Flight = Flight(reqs: map<nat, Req>, stage: map<nat, Stage>, owner: map<nat, nat>, heads: map<nat, nat>,
    pub: seq<nat>, done: seq<nat>)

  /** The chain from `h` tells the device exactly the request. */
  predicate ChainOk(q: Queue, h: nat, r: Req)
    requires |q.desc| == NUM && |q.ops| == NUM && |q.info| == NUM
  {
    && h < NUM && r.d1 < NUM && r.d2 < NUM && h != r.d1 && h != r.d2 && r.d1 != r.d2
    && q.desc[h] == Desc(OpAt(h), 16, NEXT, r.d1)
    && q.desc[r.d1] == Desc(DataOf(r.b), 1024, if r.out then NEXT else WRITE + NEXT, r.d2)
    && q.desc[r.d2] == Desc(StatusOf(h), 1, WRITE, 0)
    && q.ops[h] == Op(r.out, 2 * r.block) && q.info[h].b == Some(r.b)
  }

  ghost predicate Sizes(q: Queue) {
    |q.free| == NUM && |q.desc| == NUM && |q.ops| == NUM && |q.info| == NUM
  }

  ghost predicate Chains(q: Queue, f: Flight) {
    Sizes(q) && forall h :: h in f.reqs ==> ChainOk(q, h, f.reqs[h])
  }

  /** Free descriptors and those of the chains partition the table. */
  ghost predicate Partition(q: Queue, f: Flight) {
    Sizes(q) && FreeOk(q.free, f.owner.Keys) && Parts(f)
  }

  /** Each chain has its three descriptors, and every descriptor in use is in a chain. */
  ghost predicate Parts(f: Flight) {
    && |f.owner.Keys| == 3 * |f.reqs.Keys| && (forall h :: h in f.reqs ==> Owns(f.owner, h, f.reqs[h]))
    && (forall i :: i in f.owner ==> Owned(f, i))
  }

  ghost predicate FreeOk(free: seq<bool>, owned: set<nat>) {
    |free| == NUM && forall i: nat :: i < NUM ==> (free[i] <==> i !in owned)
  }

  predicate Owned(f: Flight, i: nat) {
    && i < NUM && i in f.owner && f.owner[i] in f.reqs
    && (i == f.owner[i] || i == f.reqs[f.owner[i]].d1 || i == f.reqs[f.owner[i]].d2)
  }

  predicate Owns(owner: map<nat, nat>, h: nat, r: Req) {
    h in owner && r.d1 in owner && r.d2 in owner && owner[h] == h && owner[r.d1] == h && owner[r.d2] == h
  }

  ghost predicate Distinct(q: seq<nat>) {
    forall i, j :: 0 <= i < j < |q| ==> q[i] != q[j]
  }

  /** Every request is at one place: one of the rings, in the device, or completed. */
  ghost predicate Staged(q: Queue, f: Flight) {
    && RingHolds(q.avail, q.taken, q.availIdx, f.pub) && RingHolds(q.used, q.seen, q.usedIdx, f.done)
    && Distinct(f.pub) && Distinct(f.done) && f.stage.Keys == f.reqs.Keys
    && (forall h :: h in f.pub <==> h in f.stage && f.stage[h] == Published)
    && (forall h :: h in f.done <==> h in f.stage && f.stage[h] == Done)
    && |q.info| == NUM
    && (forall h :: h in f.stage && h < NUM ==>
         q.info[h].status == if f.stage[h] == Done || f.stage[h] == Completed then 0 else 0xff)
  }

  /** b->disk is 1 for the buffers whose request is not completed. */
  ghost predicate Bufs(f: Flight, busy: set<nat>) {
    && f.stage.Keys == f.reqs.Keys
    && (forall h :: h in f.reqs ==> f.reqs[h].b in f.heads && f.heads[f.reqs[h].b] == h)
    && (forall b :: b in f.heads ==> f.heads[b] in f.reqs && f.reqs[f.heads[b]].b == b)
    && (forall b :: b in busy <==> b in f.heads && f.stage[f.heads[b]] != Completed)
  }

  ghost predicate Ok(q: Queue, f: Flight, busy: set<nat>) {
    Chains(q, f) && Partition(q, f) && Staged(q, f) && Bufs(f, busy)
  }

  /** Eight descriptors, three for each chain. */
  lemma AtMostTwo(q: Queue, f: Flight)
    requires Partition(q, f)
    ensures |f.reqs.Keys| <= 2
  {
    hide Owns;
    Bounded(f.owner.Keys, NUM);
  }

  lemma {:induction false} Bounded(s: set<nat>, n: nat)
    requires forall i :: i in s ==> i < n
    ensures |s| <= n
  {
    if n > 0 {
      Bounded(s - {n - 1}, n - 1);
    }
  }

  lemma {:induction false} QueueFits(q: seq<nat>, s: set<nat>)
    requires Distinct(q) && forall h :: h in q ==> h in s
    ensures |q| <= |s|
  {
    if q != [] {
      var h := q[|q| - 1];
      QueueFits(q[..|q| - 1], s - {h});
    }
  }

  /** So neither ring ever has more than two entries in it. */
  lemma RingsAreShort(q: Queue, f: Flight)
    requires Partition(q, f) && Staged(q, f)
    ensures |f.pub| <= 2 && |f.done| <= 2 && |f.reqs.Keys| <= 2
  {
    hide RingHolds, Owns, Owned;
    AtMostTwo(q, f);
    QueueFits(f.pub, f.reqs.Keys);
    QueueFits(f.done, f.reqs.Keys);
  }

  const EMPTY := Desc(Nowhere, 0, 0, 0)

  // ----- Submitting -----

  /** The queue after virtio_disk_rw has formatted and published a request. */
  function Submitted(q: Queue, h: nat, r: Req): (q': Queue)
    requires |q.free| == NUM && |q.desc| == NUM && |q.ops| == NUM && |q.info| == NUM && |q.avail| == NUM
    requires h < NUM && r.d1 < NUM && r.d2 < NUM
  {
    q.(free := q.free[h := false][r.d1 := false][r.d2 := false],
       desc := q.desc[h := Desc(OpAt(h), 16, NEXT, r.d1)]
                     [r.d1 := Desc(DataOf(r.b), 1024, if r.out then NEXT else WRITE + NEXT, r.d2)]
                     [r.d2 := Desc(StatusOf(h), 1, WRITE, 0)],
       ops := q.ops[h := Op(r.out, 2 * r.block)],
       info := q.info[h := Info(Some(r.b), 0xff)],
       avail := q.avail[q.availIdx % NUM := h],
       availIdx := Inc(q.availIdx))
  }

  ghost function Launched(f: Flight, h: nat, r: Req): (f': Flight) {
    f.(reqs := f.reqs[h := r], stage := f.stage[h := Published], owner := f.owner[h := h][r.d1 := h][r.d2 := h],
       heads := f.heads[r.b := h], pub := f.pub + [h])
  }

  /** Three free descriptors for a buffer that is not in flight. */
  ghost predicate CanLaunch(q: Queue, f: Flight, h: nat, r: Req) {
    && Sizes(q) && h < NUM && r.d1 < NUM && r.d2 < NUM && h != r.d1 && h != r.d2 && r.d1 != r.d2
    && q.free[h] && q.free[r.d1] && q.free[r.d2] && r.b !in f.heads
  }

  lemma LaunchChain(q: Queue, h: nat, r: Req, g: nat, t: Req)
    requires Sizes(q) && |q.avail| == NUM && h < NUM && r.d1 < NUM && r.d2 < NUM && h != r.d1 && h != r.d2
    requires r.d1 != r.d2
    requires ChainOk(q, g, t) && {h, r.d1, r.d2} !! {g, t.d1, t.d2}
    ensures ChainOk(Submitted(q, h, r), g, t)
  {}

  /** Descriptors of a chain are not free. */
  lemma NotFree(q: Queue, f: Flight, g: nat)
    requires Partition(q, f) && g in f.reqs
    ensures g in f.owner && f.reqs[g].d1 in f.owner && f.reqs[g].d2 in f.owner && g < NUM && f.reqs[g].d1 < NUM
    ensures f.reqs[g].d2 < NUM
    ensures !q.free[g] && !q.free[f.reqs[g].d1] && !q.free[f.reqs[g].d2]
  {
    assert Owns(f.owner, g, f.reqs[g]);
    assert Owned(f, g) && Owned(f, f.reqs[g].d1) && Owned(f, f.reqs[g].d2);
  }

  lemma LaunchOwn(q: Queue, h: nat, r: Req)
    requires Sizes(q) && |q.avail| == NUM && h < NUM && r.d1 < NUM && r.d2 < NUM && h != r.d1 && h != r.d2
    requires r.d1 != r.d2
    ensures Sizes(Submitted(q, h, r)) && ChainOk(Submitted(q, h, r), h, r)
  {}

  lemma LaunchChains(q: Queue, f: Flight, h: nat, r: Req)
    requires Chains(q, f) && Partition(q, f) && |q.avail| == NUM && CanLaunch(q, f, h, r)
    ensures Chains(Submitted(q, h, r), Launched(f, h, r))
  {
    hide Partition, Submitted, ChainOk;
    LaunchOwn(q, h, r);
    forall g | g in f.reqs && g != h
      ensures ChainOk(Submitted(q, h, r), g, f.reqs[g])
    {
      NotFree(q, f, g);
      LaunchChain(q, h, r, g, f.reqs[g]);
    }
  }

  lemma FreeSet(free: seq<bool>, owned: set<nat>, i: nat, on: bool)
    requires FreeOk(free, owned) && i < NUM
    ensures FreeOk(free[i := on], if on then owned - {i} else owned + {i})
  {}

  lemma LaunchPartition(q: Queue, f: Flight, h: nat, r: Req)
    requires Partition(q, f) && |q.avail| == NUM && CanLaunch(q, f, h, r)
    ensures h !in f.reqs && Partition(Submitted(q, h, r), Launched(f, h, r))
  {
    hide Parts;
    FreeSet(q.free, f.owner.Keys, h, false);
    FreeSet(q.free[h := false], f.owner.Keys + {h}, r.d1, false);
    FreeSet(q.free[h := false][r.d1 := false], f.owner.Keys + {h} + {r.d1}, r.d2, false);
    if h in f.reqs {
      NotFree(q, f, h);
    }
    LaunchParts(f, h, r);
  }

  lemma LaunchParts(f: Flight, h: nat, r: Req)
    requires Parts(f) && h != r.d1 && h != r.d2 && r.d1 != r.d2 && h < NUM && r.d1 < NUM && r.d2 < NUM && h !in f.reqs
    requires h !in f.owner && r.d1 !in f.owner && r.d2 !in f.owner
    ensures Parts(Launched(f, h, r)) && Launched(f, h, r).owner.Keys == f.owner.Keys + {h} + {r.d1} + {r.d2}
  {
    hide Owns, Owned;
    var f' := Launched(f, h, r);
    assert f'.owner.Keys == f.owner.Keys + {h} + {r.d1} + {r.d2};
    assert f'.reqs.Keys == f.reqs.Keys + {h};
    forall g | g in f'.reqs
      ensures Owns(f'.owner, g, f'.reqs[g])
    {
      LaunchOwns(f, h, r, g);
    }
    forall i | i in f'.owner
      ensures Owned(f', i)
    {
      LaunchOwned(f, h, r, i);
    }
  }

  lemma LaunchOwns(f: Flight, h: nat, r: Req, g: nat)
    requires h != r.d1 && h != r.d2 && r.d1 != r.d2 && h !in f.owner && r.d1 !in f.owner && r.d2 !in f.owner
    requires g != h ==> g in f.reqs && Owns(f.owner, g, f.reqs[g])
    ensures Owns(Launched(f, h, r).owner, g, if g == h then r else f.reqs[g])
  {}

  lemma LaunchOwned(f: Flight, h: nat, r: Req, i: nat)
    requires h != r.d1 && h != r.d2 && r.d1 != r.d2 && h < NUM && r.d1 < NUM && r.d2 < NUM && h !in f.reqs
    requires h !in f.owner && r.d1 !in f.owner && r.d2 !in f.owner && i in Launched(f, h, r).owner
    requires i in f.owner ==> Owned(f, i)
    ensures Owned(Launched(f, h, r), i)
  {}

  lemma LaunchStaged(q: Queue, f: Flight, h: nat, r: Req)
    requires Partition(q, f) && Staged(q, f) && CanLaunch(q, f, h, r) && h !in f.reqs
    ensures |q.avail| == NUM && Staged(Submitted(q, h, r), Launched(f, h, r))
  {
    hide Partition, RingHolds, Distinct;
    RingsAreShort(q, f);
    RingPut(q.avail, q.taken, q.availIdx, f.pub, h);
    RingSize(q.avail, q.taken, q.availIdx, f.pub);
    var f' := Launched(f, h, r);
    DistinctPut(f.pub, h);
    assert forall g :: g in f'.pub <==> g in f.pub || g == h;
  }

  lemma DistinctPut(q: seq<nat>, h: nat)
    requires Distinct(q) && h !in q
    ensures Distinct(q + [h])
  {}

  lemma LaunchedReqs(f: Flight, h: nat, r: Req)
    ensures Launched(f, h, r).reqs == f.reqs[h := r]
  {}

  lemma LaunchBufs(f: Flight, busy: set<nat>, h: nat, r: Req)
    requires Bufs(f, busy) && r.b !in f.heads && h !in f.reqs
    ensures Bufs(Launched(f, h, r), busy + {r.b})
  {}

  lemma LaunchOk(q: Queue, f: Flight, busy: set<nat>, h: nat, r: Req)
    requires Ok(q, f, busy) && CanLaunch(q, f, h, r)
    ensures |q.avail| == NUM && Ok(Submitted(q, h, r), Launched(f, h, r), busy + {r.b})
  {
    hide Submitted, Launched, Chains, RingHolds, Partition, Bufs;
    assert |q.avail| == NUM by { RingSize(q.avail, q.taken, q.availIdx, f.pub); }
    LaunchChains(q, f, h, r);
    LaunchPartition(q, f, h, r);
    LaunchStaged(q, f, h, r);
    LaunchBufs(f, busy, h, r);
  }

  lemma RingSize(ring: seq<nat>, idx: nat, end: nat, q: seq<nat>)
    requires RingHolds(ring, idx, end, q)
    ensures |ring| == NUM
  {}

  // ----- Freeing -----

  function Retired(q: Queue, h: nat, r: Req): (q': Queue)
    requires |q.free| == NUM && |q.desc| == NUM && |q.info| == NUM && h < NUM && r.d1 < NUM && r.d2 < NUM
  {
    q.(free := q.free[h := true][r.d1 := true][r.d2 := true],
       desc := q.desc[h := EMPTY][r.d1 := EMPTY][r.d2 := EMPTY],
       info := q.info[h := q.info[h].(b := None)])
  }

  ghost function Landed(f: Flight, h: nat): (f': Flight)
    requires h in f.reqs
  {
    f.(reqs := f.reqs - {h}, stage := f.stage - {h}, owner := f.owner - {h, f.reqs[h].d1, f.reqs[h].d2},
      heads := f.heads - {f.reqs[h].b})
  }

  lemma LandOk(q: Queue, f: Flight, busy: set<nat>, h: nat)
    requires Ok(q, f, busy) && h in f.reqs && h in f.stage && f.stage[h] == Completed
    ensures Sizes(q) && ChainOk(q, h, f.reqs[h]) && Ok(Retired(q, h, f.reqs[h]), Landed(f, h), busy)
  {
    hide Staged, Partition, Bufs, Retired, Landed;
    assert ChainOk(q, h, f.reqs[h]);
    LandPartition(q, f, h);
    LandChains(q, f, h);
    LandStaged(q, f, h);
    LandBufs(f, busy, h);
  }

  lemma LandChains(q: Queue, f: Flight, h: nat)
    requires Chains(q, f) && Partition(q, f) && h in f.reqs
    ensures ChainOk(q, h, f.reqs[h]) && Chains(Retired(q, h, f.reqs[h]), Landed(f, h))
  {
    hide Partition;
    var r := f.reqs[h];
    assert ChainOk(q, h, r);
    var q', f' := Retired(q, h, r), Landed(f, h);
    forall g | g in f'.reqs
      ensures ChainOk(q', g, f'.reqs[g])
    {
      ChainsApart(q, f, g, h);
    }
  }

  lemma ChainsApart(q: Queue, f: Flight, g: nat, h: nat)
    requires Partition(q, f) && g in f.reqs && h in f.reqs && g != h
    ensures {h, f.reqs[h].d1, f.reqs[h].d2} !! {g, f.reqs[g].d1, f.reqs[g].d2}
  {
    hide Owned;
    assert Owns(f.owner, g, f.reqs[g]) && Owns(f.owner, h, f.reqs[h]);
  }

  lemma LandPartition(q: Queue, f: Flight, h: nat)
    requires Partition(q, f) && h in f.reqs && ChainOk(q, h, f.reqs[h])
    ensures Partition(Retired(q, h, f.reqs[h]), Landed(f, h))
  {
    hide Parts, ChainOk;
    var r := f.reqs[h];
    NotFree(q, f, h);
    ChainDistinct(q, h, r);
    FreeSet(q.free, f.owner.Keys, h, true);
    FreeSet(q.free[h := true], f.owner.Keys - {h}, r.d1, true);
    FreeSet(q.free[h := true][r.d1 := true], f.owner.Keys - {h} - {r.d1}, r.d2, true);
    LandParts(f, h);
  }

  lemma LandParts(f: Flight, h: nat)
    requires Parts(f) && h in f.reqs && h != f.reqs[h].d1 && h != f.reqs[h].d2 && f.reqs[h].d1 != f.reqs[h].d2
    ensures Parts(Landed(f, h)) && Landed(f, h).owner.Keys == f.owner.Keys - {h} - {f.reqs[h].d1} - {f.reqs[h].d2}
  {
    hide Owned, Owns;
    var r, f' := f.reqs[h], Landed(f, h);
    LandCount(f, h);
    forall g | g in f'.reqs
      ensures Owns(f'.owner, g, f'.reqs[g])
    {
      LandOwns(f, h, g);
    }
    forall i | i in f'.owner
      ensures Owned(f', i)
    {
      LandOwned(f, h, i);
    }
  }

  lemma LandCount(f: Flight, h: nat)
    requires |f.owner.Keys| == 3 * |f.reqs.Keys| && h in f.reqs && Owns(f.owner, h, f.reqs[h])
    requires h != f.reqs[h].d1 && h != f.reqs[h].d2 && f.reqs[h].d1 != f.reqs[h].d2
    ensures Landed(f, h).owner.Keys == f.owner.Keys - {h} - {f.reqs[h].d1} - {f.reqs[h].d2}
    ensures Landed(f, h).reqs.Keys == f.reqs.Keys - {h} && |Landed(f, h).owner.Keys| == 3 * |Landed(f, h).reqs.Keys|
  {
    var r, f' := f.reqs[h], Landed(f, h);
    assert f'.owner.Keys == f.owner.Keys - {h} - {r.d1} - {r.d2};
    assert f'.reqs.Keys == f.reqs.Keys - {h};
    ThreeLess(f.owner.Keys, h, r.d1, r.d2);
  }

  lemma ThreeLess(s: set<nat>, a: nat, b: nat, c: nat)
    requires a in s && b in s && c in s && a != b && a != c && b != c
    ensures |s - {a} - {b} - {c}| == |s| - 3
  {}

  lemma LandOwns(f: Flight, h: nat, g: nat)
    requires g in f.reqs && h in f.reqs && g != h && Owns(f.owner, g, f.reqs[g]) && Owns(f.owner, h, f.reqs[h])
    ensures Owns(Landed(f, h).owner, g, f.reqs[g])
  {}

  lemma ChainDistinct(q: Queue, h: nat, r: Req)
    requires Sizes(q) && ChainOk(q, h, r)
    ensures h != r.d1 && h != r.d2 && r.d1 != r.d2
  {}

  lemma LandBufs(f: Flight, busy: set<nat>, h: nat)
    requires Bufs(f, busy) && h in f.reqs && f.stage[h] == Completed
    ensures Bufs(Landed(f, h), busy)
  {
    var f' := Landed(f, h);
    forall b | b in f'.heads
      ensures f'.heads[b] in f'.reqs && f'.reqs[f'.heads[b]].b == b
    {}
  }

  lemma LandStaged(q: Queue, f: Flight, h: nat)
    requires Staged(q, f) && Sizes(q) && h in f.reqs && f.stage[h] == Completed && ChainOk(q, h, f.reqs[h])
    ensures Staged(Retired(q, h, f.reqs[h]), Landed(f, h))
  {
    hide RingHolds, Distinct;
  }

  lemma LandOwned(f: Flight, h: nat, i: nat)
    requires h in f.reqs && i in Landed(f, h).owner && Owned(f, i)
    ensures Owned(Landed(f, h), i)
  {}

  // ----- The device, and the interrupt -----

  ghost function ToStage(f: Flight, h: nat, stage: Stage): (f': Flight) {
    f.(stage := f.stage[h := stage])
  }

  lemma DistinctGet(q: seq<nat>)
    requires Distinct(q) && q != []
    ensures Distinct(q[1..]) && forall g :: g in q[1..] <==> g in q && g != q[0]
  {
    assert q == [q[0]] + q[1..];
  }

  /** The device and the interrupt leave the chains alone. */
  lemma SameChains(q: Queue, q': Queue, f: Flight, f': Flight)
    requires Chains(q, f) && Partition(q, f) && f'.reqs == f.reqs && f'.owner == f.owner
    requires Sizes(q') && q'.desc == q.desc && q'.ops == q.ops && q'.free == q.free
    requires forall i :: 0 <= i < NUM ==> q'.info[i].b == q.info[i].b
    ensures Chains(q', f') && Partition(q', f')
  {
    hide Owns;
    forall h | h in f.reqs
      ensures ChainOk(q', h, f'.reqs[h])
    {
      assert ChainOk(q, h, f.reqs[h]);
    }
  }

  lemma StageBufs(f: Flight, f': Flight, busy: set<nat>, h: nat, stage: Stage)
    requires Bufs(f, busy) && h in f.reqs && f.stage[h] != Completed
    requires f'.reqs == f.reqs && f'.heads == f.heads && f'.stage == f.stage[h := stage]
    ensures Bufs(f', if stage == Completed then busy - {f.reqs[h].b} else busy)
  {
    assert f'.stage.Keys == f.stage.Keys;
  }

  lemma TakeOk(q: Queue, f: Flight, busy: set<nat>)
    requires Ok(q, f, busy) && f.pub != []
    ensures Ok(q.(taken := Inc(q.taken)), ToStage(f, f.pub[0], Taken).(pub := f.pub[1..]), busy)
  {
    hide RingHolds, Distinct, Partition, Chains, Bufs;
    var q', f' := q.(taken := Inc(q.taken)), ToStage(f, f.pub[0], Taken).(pub := f.pub[1..]);
    assert f.pub[0] in f.pub;
    RingGet(q.avail, q.taken, q.availIdx, f.pub);
    DistinctGet(f.pub);
    assert f'.stage.Keys == f.stage.Keys;
    assert Sizes(q) by { HaveSizes(q, f); }
    SameChains(q, q', f, f');
    StageBufs(f, f', busy, f.pub[0], Taken);
  }

  lemma HaveSizes(q: Queue, f: Flight)
    requires Chains(q, f)
    ensures Sizes(q)
  {}

  /** The completion of a request that the device has taken. */
  function Finished(q: Queue, h: nat): (q': Queue)
    requires |q.used| == NUM && |q.info| == NUM && h < NUM
  {
    q.(info := q.info[h := q.info[h].(status := 0)], used := q.used[q.usedIdx % NUM := h], usedIdx := Inc(q.usedIdx))
  }

  lemma CompleteStaged(q: Queue, f: Flight, h: nat)
    requires Staged(q, f) && |f.done| <= 2 && h in f.stage && f.stage[h] == Taken && h < NUM && |q.used| == NUM
    ensures Staged(Finished(q, h), ToStage(f, h, Done).(done := f.done + [h]))
  {
    hide RingHolds, Distinct;
    RingPut(q.used, q.seen, q.usedIdx, f.done, h);
    DistinctPut(f.done, h);
    var f' := ToStage(f, h, Done).(done := f.done + [h]);
    assert forall g :: g in f'.done <==> g in f.done || g == h;
    assert f'.stage.Keys == f.stage.Keys;
  }

  lemma CompleteOk(q: Queue, f: Flight, busy: set<nat>, h: nat)
    requires Ok(q, f, busy) && h in f.stage && f.stage[h] == Taken && h < NUM
    ensures |q.used| == NUM && |q.info| == NUM
    ensures Ok(Finished(q, h), ToStage(f, h, Done).(done := f.done + [h]), busy)
  {
    hide RingHolds, Distinct, Partition, Chains, Staged;
    assert Sizes(q) by { HaveSizes(q, f); }
    RingsAreShort(q, f);
    assert |q.used| == NUM by { UsedSize(q, f); }
    CompleteStaged(q, f, h);
    var q', f' := Finished(q, h), ToStage(f, h, Done).(done := f.done + [h]);
    SameChains(q, q', f, f');
    StageBufs(f, f', busy, h, Done);
  }

  lemma UsedSize(q: Queue, f: Flight)
    requires Staged(q, f)
    ensures |q.used| == NUM && |q.avail| == NUM
  {}

  lemma IntrOk(q: Queue, f: Flight, busy: set<nat>)
    requires Ok(q, f, busy) && f.done != []
    ensures f.done[0] in f.reqs
    ensures Ok(q.(seen := Inc(q.seen)), ToStage(f, f.done[0], Completed).(done := f.done[1..]),
      busy - {f.reqs[f.done[0]].b})
  {
    hide RingHolds, Distinct, Partition, Chains, Bufs;
    var h := f.done[0];
    assert h in f.done;
    RingGet(q.used, q.seen, q.usedIdx, f.done);
    DistinctGet(f.done);
    var q', f' := q.(seen := Inc(q.seen)), ToStage(f, h, Completed).(done := f.done[1..]);
    assert f'.stage.Keys == f.stage.Keys;
    assert Sizes(q) by { HaveSizes(q, f); }
    SameChains(q, q', f, f');
    StageBufs(f, f', busy, h, Completed);
  }

  /** The driver's struct disk with the memory it shares with the device, the
      b->disk flags, and the data on both sides. */
  class Disk {
    var q: Queue
    var busy: set<nat>          // buffers with b->disk == 1
    var data: map<nat, nat>     // the contents of each buffer
    var blocks: seq<nat>        // the contents of the disk
    ghost var flight: Flight

    ghost predicate Valid()
      reads this
    {
      && Ok(q, flight, busy)
      && forall h :: h in flight.reqs ==> flight.reqs[h].b in data && flight.reqs[h].block < |blocks|
    }

    /** An empty queue. */
    constructor (blocks: seq<nat>, data: map<nat, nat>)
      ensures Valid() && busy == {} && flight.reqs == map[] && this.blocks == blocks && this.data == data
    {
      q := Queue(seq(NUM, _ => true), seq(NUM, _ => EMPTY), seq(NUM, _ => Op(false, 0)), seq(NUM, _ => Info(None, 0)),
        seq(NUM, _ => 0), 0, 0, seq(NUM, _ => 0), 0, 0);
      busy, this.data, this.blocks := {}, data, blocks;
      flight := Flight(map[], map[], map[], map[], [], []);
    }

    /** alloc_desc */
    method AllocDesc() returns (i: int)
      requires |q.free| == NUM
      modifies this`q
      ensures i == -1 || 0 <= i < NUM
      ensures i == -1 ==> q == old(q) && forall j :: 0 <= j < NUM ==> !q.free[j]
      ensures i != -1 ==>
        old(q).free[i] && q == old(q).(free := old(q).free[i := false]) && forall j :: 0 <= j < i ==> !q.free[j]
    {
      i := 0;
      while i < NUM
        invariant 0 <= i <= NUM && q == old(q) && forall j :: 0 <= j < i ==> !q.free[j]
      {
        if q.free[i] {
          q := q.(free := q.free[i := false]);
          return i;
        }
        i := i + 1;
      }
      return -1;
    }

    /** free_desc of a descriptor in use: neither of its panics. */
    method FreeDesc(i: nat)
      requires |q.free| == NUM && |q.desc| == NUM && i < NUM && !q.free[i]
      modifies this`q
      ensures q == old(q).(free := old(q).free[i := true], desc := old(q).desc[i := EMPTY])
    {
      q := q.(desc := q.desc[i := EMPTY]);
      q := q.(free := q.free[i := true]);
    }

    /** alloc3_desc: three descriptors or none. */
    method Alloc3() returns (ok: bool, idx: seq<nat>)
      requires |q.free| == NUM && |q.desc| == NUM
      modifies this`q
      ensures ok ==>
        && |idx| == 3 && idx[0] < NUM && idx[1] < NUM && idx[2] < NUM && idx[0] != idx[1] && idx[0] != idx[2]
        && idx[1] != idx[2]
        && old(q).free[idx[0]] && old(q).free[idx[1]] && old(q).free[idx[2]]
        && q == old(q).(free := old(q).free[idx[0] := false][idx[1] := false][idx[2] := false])
      ensures !ok ==>
        && q == old(q).(desc := q.desc) && |q.desc| == NUM
        && (forall i :: 0 <= i < NUM && !q.free[i] ==> q.desc[i] == old(q).desc[i])
        && forall i, j, k :: 0 <= i < j < k < NUM ==> !(q.free[i] && q.free[j] && q.free[k])
    {
      idx := [];
      for i := 0 to 3
        invariant |idx| == i && q == old(q).(free := q.free) && |q.free| == NUM
        invariant forall k :: 0 <= k < i ==> idx[k] < NUM && old(q).free[idx[k]]
        invariant forall k, m :: 0 <= k < m < i ==> idx[k] != idx[m]
        invariant forall d :: 0 <= d < NUM ==> (q.free[d] <==> old(q).free[d] && d !in idx)
      {
        var d := AllocDesc();
        if d < 0 {
          AtMost(old(q).free, idx);
          GiveBack(idx, old(q));
          return false, [];
        }
        idx := idx + [d];
      }
      ok := true;
      assert q.free == old(q).free[idx[0] := false][idx[1] := false][idx[2] := false];
    }

    /** The inner loop of alloc3_desc. */
    method GiveBack(idx: seq<nat>, ghost was: Queue)
      requires |q.free| == NUM && |q.desc| == NUM && |was.free| == NUM && was == q.(free := was.free)
      requires forall k :: 0 <= k < |idx| ==> idx[k] < NUM && was.free[idx[k]]
      requires forall k, m :: 0 <= k < m < |idx| ==> idx[k] != idx[m]
      requires forall d :: 0 <= d < NUM ==> (q.free[d] <==> was.free[d] && d !in idx)
      modifies this`q
      ensures q == was.(desc := q.desc) && |q.desc| == NUM
      ensures forall i :: 0 <= i < NUM && !q.free[i] ==> q.desc[i] == was.desc[i]
    {
      for j := 0 to |idx|
        invariant q == was.(desc := q.desc, free := q.free) && |q.free| == NUM && |q.desc| == NUM
        invariant forall d :: 0 <= d < NUM ==> (q.free[d] <==> was.free[d] && d !in idx[j..])
        invariant forall i :: 0 <= i < NUM && !was.free[i] ==> q.desc[i] == was.desc[i]
      {
        assert idx[j] in idx[j..] && idx[j..] == [idx[j]] + idx[j + 1..];
        FreeDesc(idx[j]);
      }
      assert q.free == was.free;
    }

    /** One attempt of virtio_disk_rw to get its request to the device; without
        three descriptors the caller sleeps and tries again. */
    method Submit(b: nat, block: nat, out: bool) returns (ok: bool, h: nat, ghost r: Req)
      requires Valid() && b !in flight.heads && b in data && block < |blocks|
      modifies this`q, this`busy, this`flight
      ensures Valid()
      ensures ok ==>
        && h !in old(flight).reqs && busy == old(busy) + {b}
        && r == Req(b, block, out, r.d1, r.d2) && flight == Launched(old(flight), h, r)
      ensures !ok ==>
        && flight == old(flight) && busy == old(busy)
        && forall i, j, k :: 0 <= i < j < k < NUM ==> i in flight.owner || j in flight.owner || k in flight.owner
    {
      hide Ok, Partition, Launched;
      ghost var q0, f := q, flight;
      OkSizes(q, f, busy);
      var idx;
      ok, idx := Alloc3();
      h, r := 0, Req(b, block, out, 0, 0);
      if !ok {
        FreeDescs(q0, q, f, busy);
        return;
      }
      h, r := idx[0], Req(b, block, out, idx[1], idx[2]);
      LaunchOk(q0, f, busy, h, r);
      FreshHead(q0, f, h);
      LaunchedReqs(f, h, r);
      q := q.(ops := q.ops[h := Op(out, 2 * block)]);
      q := q.(desc := q.desc[h := Desc(OpAt(h), 16, NEXT, idx[1])]);
      q := q.(desc := q.desc[idx[1] := Desc(DataOf(b), 1024, if out then NEXT else WRITE + NEXT, idx[2])]);
      q := q.(info := q.info[h := q.info[h].(status := 0xff)]);
      q := q.(desc := q.desc[idx[2] := Desc(StatusOf(h), 1, WRITE, 0)]);
      busy := busy + {b};
      q := q.(info := q.info[h := q.info[h].(b := Some(b))]);
      q := q.(avail := q.avail[q.availIdx % NUM := h]);
      q := q.(availIdx := Inc(q.availIdx));
      flight := Launched(f, h, r);
      assert q == Submitted(q0, h, r);
    }

    /** The device looks at the next entry of the available ring, if there is one. */
    method DeviceTake() returns (h: Option<nat>)
      requires Valid()
      modifies this`q, this`flight
      ensures Valid() && (h == None <==> old(flight).pub == [])
      ensures h == None ==> q == old(q) && flight == old(flight)
      ensures h.Some? ==>
        && flight == ToStage(old(flight), old(flight).pub[0], Taken).(pub := old(flight).pub[1..])
        && h.value == old(flight).pub[0]
    {
      hide Ok, RingHolds;
      OkRings(q, flight, busy);
      RingGet(q.avail, q.taken, q.availIdx, flight.pub);
      if q.taken == q.availIdx {
        return None;
      }
      TakeOk(q, flight, busy);
      h := Some(q.avail[q.taken % NUM]);
      q := q.(taken := Inc(q.taken));
      flight := ToStage(flight, h.value, Taken).(pub := flight.pub[1..]);
    }

    /** The device carries out a request that it has taken, as the descriptors tell
        it to, and reports it. It counts in sectors of 512 bytes; it follows a
        descriptor with flag 1 to the next, and writes to memory only with flag 2. */
    method DeviceComplete(h: nat)
      requires Valid() && h in flight.stage && flight.stage[h] == Taken
      modifies this`q, this`data, this`blocks, this`flight
      ensures Valid() && flight == ToStage(old(flight), h, Done).(done := old(flight).done + [h]) && h in flight.reqs
      ensures
        var r := flight.reqs[h];
        && r.b in old(data) && r.block < |old(blocks)|
        && if r.out then blocks == old(blocks)[r.block := old(data)[r.b]] && data == old(data)
           else data == old(data)[r.b := old(blocks)[r.block]] && blocks == old(blocks)
    {
      hide Ok;
      OkChain(q, flight, busy, h);
      CompleteOk(q, flight, busy, h);
      var d0 := q.desc[h];
      var d1 := q.desc[d0.next];
      var d2 := q.desc[d1.next];
      var op := q.ops[d0.addr.i];
      var at := op.sector * 512 / d1.len;
      if op.out && d1.flags / 2 % 2 == 0 {
        blocks := blocks[at := data[d1.addr.b]];
      } else if !op.out && d1.flags / 2 % 2 == 1 {
        data := data[d1.addr.b := blocks[at]];
      }
      if d0.flags % 2 == 1 && d1.flags % 2 == 1 && d2.flags == 2 && d2.len == 1 {
        q := q.(info := q.info[d2.addr.i := q.info[d2.addr.i].(status := 0)]);
      }
      q := q.(used := q.used[q.usedIdx % NUM := h]);
      q := q.(usedIdx := Inc(q.usedIdx));
      flight := ToStage(flight, h, Done).(done := flight.done + [h]);
    }

    /** One round of virtio_disk_intr; its panic is out of reach. */
    method IntrOne() returns (more: bool)
      requires Valid()
      modifies this`q, this`busy, this`flight
      ensures Valid() && (more <==> old(flight).done != [])
      ensures !more ==> q == old(q) && flight == old(flight) && busy == old(busy)
      ensures more ==>
        && old(flight).done[0] in flight.reqs && busy == old(busy) - {flight.reqs[old(flight).done[0]].b}
        && flight == ToStage(old(flight), old(flight).done[0], Completed).(done := old(flight).done[1..])
    {
      hide Ok, RingHolds;
      OkRings(q, flight, busy);
      RingGet(q.used, q.seen, q.usedIdx, flight.done);
      more := q.seen != q.usedIdx;
      if more {
        IntrOk(q, flight, busy);
        var id := q.used[q.seen % NUM];
        OkChain(q, flight, busy, id);
        assert q.info[id].status == 0;
        var b := q.info[id].b.value;
        busy := busy - {b};
        q := q.(seen := Inc(q.seen));
        flight := ToStage(flight, id, Completed).(done := flight.done[1..]);
      }
    }

    /** virtio_disk_intr */
    method Intr()
      requires Valid()
      modifies this`q, this`busy, this`flight
      ensures Valid() && flight.done == [] && flight.reqs == old(flight).reqs && flight.pub == old(flight).pub
      ensures busy <= old(busy) && forall h :: h in flight.reqs ==>
        && h in flight.stage && h in old(flight).stage
        && flight.stage[h] == if h in old(flight).done then Completed else old(flight).stage[h]
    {
      hide Ok;
      ghost var f := flight;
      OkRings(q, flight, busy);
      var more := true;
      while more
        invariant Valid() && flight.reqs == f.reqs && flight.pub == f.pub && busy <= old(busy)
        invariant |flight.done| <= |f.done|
        invariant flight.done == f.done[|f.done| - |flight.done|..] && (!more ==> flight.done == [])
        invariant flight.stage.Keys == f.stage.Keys
        invariant forall h :: h in f.stage ==>
          flight.stage[h] == if h in f.done[..|f.done| - |flight.done|] then Completed else f.stage[h]
        decreases |flight.done|, more
      {
        ghost var n := |f.done| - |flight.done|;
        more := IntrOne();
        assert more ==> f.done[..n + 1] == f.done[..n] + [f.done[n]];
      }
      assert f.done[..|f.done|] == f.done;
    }

    /** free_chain of a chain as virtio_disk_rw formats them. */
    method FreeChain(h: nat, ghost r: Req)
      requires Sizes(q) && h < NUM && r.d1 < NUM && r.d2 < NUM && h != r.d1 && h != r.d2 && r.d1 != r.d2
      requires q.desc[h].flags == NEXT && q.desc[h].next == r.d1 && q.desc[r.d1].flags % 2 == 1
      requires q.desc[r.d1].next == r.d2
      requires q.desc[r.d2].flags == WRITE && !q.free[h] && !q.free[r.d1] && !q.free[r.d2]
      modifies this`q
      ensures q == old(q).(free := old(q).free[h := true][r.d1 := true][r.d2 := true],
        desc := old(q).desc[h := EMPTY][r.d1 := EMPTY][r.d2 := EMPTY])
    {
      var i, flag := h, NEXT;
      ghost var k := 0;
      while flag % 2 == 1
        invariant 0 <= k <= 3 && (flag % 2 == 1 <==> k < 3) && (k < 3 ==> i == [h, r.d1, r.d2][k])
        invariant q == PartFreed(old(q), h, r.d1, r.d2, k)
        decreases 3 - k
      {
        var nxt := q.desc[i].next;
        flag := q.desc[i].flags;
        FreeDesc(i);
        i, k := nxt, k + 1;
      }
    }

    /** The end of virtio_disk_rw, tried each time the caller wakes up: once the
        buffer is back, the chain is freed. */
    method Finish(h: nat, b: nat) returns (ok: bool)
      requires Valid() && h in flight.reqs && flight.reqs[h].b == b
      modifies this`q, this`flight
      ensures Valid() && (ok <==> old(flight).stage[h] == Completed)
      ensures flight == if ok then Landed(old(flight), h) else old(flight)
    {
      hide Ok;
      OkChain(q, flight, busy, h);
      if b in busy {
        return false;
      }
      LandOk(q, flight, busy, h);
      ghost var q0, r := q, flight.reqs[h];
      q := q.(info := q.info[h := q.info[h].(b := None)]);
      FreeChain(h, r);
      flight := Landed(flight, h);
      ok := true;
    }
  }

  /** The queue with the first `k` descriptors of a chain freed. */
  function PartFreed(q: Queue, h: nat, d1: nat, d2: nat, k: nat): (r: Queue)
    requires |q.free| == NUM && |q.desc| == NUM && h < NUM && d1 < NUM && d2 < NUM
  {
    var q1 := q.(free := q.free[h := true], desc := q.desc[h := EMPTY]);
    var q2 := q1.(free := q1.free[d1 := true], desc := q1.desc[d1 := EMPTY]);
    var q3 := q2.(free := q2.free[d2 := true], desc := q2.desc[d2 := EMPTY]);
    if k == 0 then q else if k == 1 then q1 else if k == 2 then q2 else q3
  }

  lemma OkRings(q: Queue, f: Flight, busy: set<nat>)
    requires Ok(q, f, busy)
    ensures RingHolds(q.avail, q.taken, q.availIdx, f.pub) && RingHolds(q.used, q.seen, q.usedIdx, f.done)
    ensures f.stage.Keys == f.reqs.Keys && |q.avail| == NUM && |q.used| == NUM
    ensures forall h :: h in f.done ==> h in f.stage && f.stage[h] == Done
  {
    hide Chains, Partition, Bufs;
    UsedSize(q, f);
  }

  /** What the queue holds for one request. */
  lemma OkChain(q: Queue, f: Flight, busy: set<nat>, h: nat)
    requires Ok(q, f, busy) && (h in f.reqs || h in f.stage)
    ensures Sizes(q) && h < NUM && h in f.reqs && h in f.stage && ChainOk(q, h, f.reqs[h])
    ensures !q.free[h] && !q.free[f.reqs[h].d1] && !q.free[f.reqs[h].d2]
    ensures f.stage[h] == Done ==> q.info[h].status == 0
    ensures f.reqs[h].b in busy <==> f.stage[h] != Completed
  {
    hide Partition, RingHolds, Distinct;
    assert ChainOk(q, h, f.reqs[h]);
    NotFree(q, f, h);
  }

  /** What the free descriptors hold does not matter. */
  lemma FreeDescs(q: Queue, q': Queue, f: Flight, busy: set<nat>)
    requires Ok(q, f, busy) && q' == q.(desc := q'.desc) && |q'.desc| == NUM
    requires forall i :: 0 <= i < NUM && !q.free[i] ==> q'.desc[i] == q.desc[i]
    requires |q.free| == NUM && forall i, j, k :: 0 <= i < j < k < NUM ==> !(q.free[i] && q.free[j] && q.free[k])
    ensures Ok(q', f, busy)
    ensures forall i, j, k :: 0 <= i < j < k < NUM ==> i in f.owner || j in f.owner || k in f.owner
  {
    hide Bufs, Parts, Staged;
    forall h | h in f.reqs
      ensures ChainOk(q', h, f.reqs[h])
    {
      assert ChainOk(q, h, f.reqs[h]);
      NotFree(q, f, h);
    }
    SameStaged(q, q', f);
  }

  lemma SameStaged(q: Queue, q': Queue, f: Flight)
    requires Staged(q, f) && q' == q.(desc := q'.desc)
    ensures Staged(q', f)
  {
    hide RingHolds, Distinct;
  }

  lemma FreshHead(q: Queue, f: Flight, h: nat)
    requires Partition(q, f) && h < NUM && q.free[h]
    ensures h !in f.reqs
  {
    hide Parts;
    if h in f.reqs {
      NotFree(q, f, h);
    }
  }

  lemma AtMost(free: seq<bool>, idx: seq<nat>)
    requires |free| == NUM && |idx| <= 2 && forall d :: 0 <= d < NUM && free[d] ==> d in idx
    ensures forall i, j, k :: 0 <= i < j < k < NUM ==> !(free[i] && free[j] && free[k])
  {
    assert forall d :: d in idx ==> (|idx| >= 1 && d == idx[0]) || (|idx| == 2 && d == idx[1]);
  }

  lemma OkSizes(q: Queue, f: Flight, busy: set<nat>)
    requires Ok(q, f, busy)
    ensures Sizes(q) && |q.avail| == NUM && |q.used| == NUM && Partition(q, f)
  {
    hide Chains, Bufs, Parts;
    UsedSize(q, f);
  }
}
