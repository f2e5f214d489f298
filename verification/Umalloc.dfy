/** user/umalloc.c: the K&R allocator. Addresses are counted in units of a Header;
    `base` lies below the heap. */
module Umalloc {

  const NULL := 0
  const BASE := 1

  /** sizeof(Header) */
  const HEADER := 16

  /** Address `n` follows `b` in a ring through `fs` in address order: it is the
      next higher one, or the lowest if `b` is the highest. */
  ghost predicate Succ(fs: set<nat>, b: nat, n: nat) {
    b in fs && n in fs && forall c :: c in fs ==> if b < n then c <= b || n <= c else c <= b && n <= c
  }

  /** The free list is one ring through `fs`, `base` the lowest. */
  ghost predicate Ring(fs: set<nat>, ptr: map<nat, nat>) {
    && BASE in fs && fs <= ptr.Keys
    && forall b {:trigger ptr[b]} :: b in fs ==> Succ(fs, b, ptr[b]) && BASE <= b
  }

  /** Free blocks are not empty, and no two of them touch. */
  ghost predicate Apart(fs: set<nat>, size: map<nat, nat>) {
    && fs <= size.Keys && (forall b :: b in fs ==> (size[b] == 0 <==> b == BASE))
    && forall b, c :: b in fs && c in fs && b < c ==> b + size[b] < c
  }

  predicate IsBlock(fs: set<nat>, live: set<nat>, b: nat) {
    b in live || (b in fs && b != BASE)
  }

  ghost predicate Covers(size: map<nat, nat>, where: map<nat, nat>, b: nat) {
    b in size && forall u: nat :: b <= u < b + size[b] ==> u in where && where[u] == b
  }

  ghost predicate Home(fs: set<nat>, live: set<nat>, size: map<nat, nat>, b: nat, u: nat) {
    IsBlock(fs, live, b) && b in size && b <= u < b + size[b]
  }

  /** Every unit obtained from sbrk is in exactly one block, free or live. */
  ghost predicate Tiled(fs: set<nat>, live: set<nat>, size: map<nat, nat>, where: map<nat, nat>) {
    && (forall b :: b in live ==> b in size && size[b] > 0 && b > BASE && b !in fs)
    && (forall b :: IsBlock(fs, live, b) ==> Covers(size, where, b))
    && (forall u :: u in where ==> Home(fs, live, size, where[u], u))
  }

  ghost predicate HeapOk(fs: set<nat>, live: set<nat>, ptr: map<nat, nat>, size: map<nat, nat>, where: map<nat, nat>) {
    Ring(fs, ptr) && Apart(fs, size) && Tiled(fs, live, size, where)
  }

  // ----- The ring -----

  lemma SuccInsert(fs: set<nat>, p: nat, q: nat, b: nat, x: nat, n: nat)
    requires Succ(fs, p, q) && Before(fs, p, b) && b !in fs && Succ(fs, x, n)
    ensures Succ(fs + {b}, p, b) && Succ(fs + {b}, b, q) && (x != p ==> Succ(fs + {b}, x, n))
  {}

  lemma SuccRemove(fs: set<nat>, p: nat, q: nat, r: nat, x: nat, n: nat)
    requires Succ(fs, p, q) && Succ(fs, q, r) && p < q && Succ(fs, x, n) && x != q
    ensures Succ(fs - {q}, p, r) && (x != p ==> Succ(fs - {q}, x, n))
  {}

  lemma RingInsert(fs: set<nat>, ptr: map<nat, nat>, p: nat, b: nat)
    requires Ring(fs, ptr) && Before(fs, p, b) && b !in fs
    ensures p in ptr && Ring(fs + {b}, ptr[b := ptr[p]][p := b])
  {
    hide Succ;
    var ptr' := ptr[b := ptr[p]][p := b];
    forall x | x in fs + {b}
      ensures Succ(fs + {b}, x, ptr'[x]) && BASE <= x
    {
      var y := if x == b then p else x;
      SuccInsert(fs, p, ptr[p], b, y, ptr[y]);
    }
  }

  lemma RingRemove(fs: set<nat>, ptr: map<nat, nat>, p: nat)
    requires Ring(fs, ptr) && p in fs && ptr[p] > p
    ensures ptr[p] in fs && Ring(fs - {ptr[p]}, ptr[p := ptr[ptr[p]]])
  {
    hide Succ;
    var q := ptr[p];
    PtrInRing(fs, ptr, p);
    assert Succ(fs, p, q) && Succ(fs, q, ptr[q]);
    var ptr' := ptr[p := ptr[q]];
    forall x | x in fs - {q}
      ensures Succ(fs - {q}, x, ptr'[x]) && BASE <= x
    {
      SuccRemove(fs, p, q, ptr[q], x, ptr[x]);
    }
  }

  // ----- free -----

  /** `p` is where free's search stops for block `b`. */
  ghost predicate Before(fs: set<nat>, p: nat, b: nat) {
    p in fs && p < b && forall c :: c in fs ==> c <= p || b <= c
  }

  lemma PlaceExists(fs: set<nat>, b: nat) returns (p: nat)
    requires BASE in fs && BASE < b
    ensures Before(fs, p, b)
    decreases b
  {
    if b - 1 in fs {
      p := b - 1;
    } else {
      p := PlaceExists(fs, b - 1);
    }
  }

  /** The free headers after block `b` is freed; `low` and `up` say whether it
      merges with the block below and with `q`, the one above. */
  function Joined(fs: set<nat>, q: nat, b: nat, low: bool, up: bool): (r: set<nat>) {
    (if low then fs else fs + {b}) - if up then {q} else {}
  }

  /** Block `b` may be freed behind `p`, and touches `p` and the block above as said. */
  ghost predicate Touches(fs: set<nat>, ptr: map<nat, nat>, size: map<nat, nat>, p: nat, b: nat, low: bool, up: bool) {
    && Ring(fs, ptr) && Apart(fs, size) && Before(fs, p, b) && b !in fs && b in size && size[b] > 0
    && p + size[p] <= b && (low <==> p + size[p] == b)
    && (ptr[p] > p ==> b + size[b] <= ptr[p]) && (up <==> b + size[b] == ptr[p])
  }

  /** The pointers after free, as the code writes them. */
  function FreedPtr(ptr: map<nat, nat>, p: nat, b: nat, low: bool, up: bool): (r: map<nat, nat>)
    requires p in ptr && ptr[p] in ptr
  {
    var next := if up then ptr[ptr[p]] else ptr[p];
    ptr[b := next][p := if low then next else b]
  }

  function FreedSize(size: map<nat, nat>, p: nat, q: nat, b: nat, low: bool, up: bool): (r: map<nat, nat>)
    requires p in size && q in size && b in size
  {
    var total := size[b] + if up then size[q] else 0;
    if low then size[b := total][p := size[p] + total] else size[b := total]
  }

  lemma FreedRing(fs: set<nat>, ptr: map<nat, nat>, size: map<nat, nat>, p: nat, b: nat, low: bool, up: bool)
    requires Touches(fs, ptr, size, p, b, low, up)
    ensures p in ptr && ptr[p] in ptr && ptr[p] in fs && (up ==> ptr[p] > b)
    ensures Ring(Joined(fs, ptr[p], b, low, up), FreedPtr(ptr, p, b, low, up))
  {
    hide Succ;
    var q := ptr[p];
    PtrInRing(fs, ptr, p);
    RingInsert(fs, ptr, p, b);
    var fs1, ptr1 := fs + {b}, ptr[b := q][p := b];
    if up {
      RingRemove(fs1, ptr1, b);
      fs1, ptr1 := fs1 - {q}, ptr1[b := ptr1[q]];
    }
    if low {
      RingRemove(fs1, ptr1, p);
      fs1, ptr1 := fs1 - {b}, ptr1[p := ptr1[b]];
    }
    assert fs1 == Joined(fs, q, b, low, up);
    assert ptr1 == FreedPtr(ptr, p, b, low, up);
  }

  lemma PtrInRing(fs: set<nat>, ptr: map<nat, nat>, p: nat)
    requires Ring(fs, ptr) && p in fs
    ensures p in ptr && ptr[p] in fs && ptr[p] in ptr
  {
    assert Succ(fs, p, ptr[p]);
  }

  lemma FreedApart(fs: set<nat>, size: map<nat, nat>, p: nat, q: nat, b: nat, low: bool, up: bool)
    requires Apart(fs, size) && Succ(fs, p, q) && Before(fs, p, b) && b !in fs && b in size && size[b] > 0 && BASE <= p
    requires p + size[p] <= b && (low <==> p + size[p] == b)
    requires (q > p ==> b + size[b] <= q) && (up <==> b + size[b] == q)
    ensures q in size && Apart(Joined(fs, q, b, low, up), FreedSize(size, p, q, b, low, up))
  {
    var r, size' := Joined(fs, q, b, low, up), FreedSize(size, p, q, b, low, up);
    forall x, y | x in r && y in r && x < y
      ensures x + size'[x] < y
    {
      var head := if low then p else b;
      if x == head {
        assert y != p && y != b;
      } else if y == b {
        assert x <= p;
      }
    }
  }

  function Relabel(where: map<nat, nat>, from: set<nat>, to: nat): (r: map<nat, nat>) {
    map u | u in where :: if where[u] in from then to else where[u]
  }

  lemma FreedTiled(fs: set<nat>, live: set<nat>, size: map<nat, nat>, where: map<nat, nat>, p: nat, q: nat, b: nat,
      low: bool, up: bool)
    requires Tiled(fs, live, size, where) && b in live && p in fs && q in fs && fs <= size.Keys && p < b
    requires (low ==> p + size[p] == b && p != BASE) && (up ==> b + size[b] == q && q != p && q != BASE)
    ensures Tiled(Joined(fs, q, b, low, up), live - {b}, FreedSize(size, p, q, b, low, up),
      Relabel(where, if up then {b, q} else {b}, if low then p else b))
  {
    hide Joined, FreedSize, IsBlock;
    var from, to := if up then {b, q} else {b}, if low then p else b;
    var fs', live', size', where' :=
      Joined(fs, q, b, low, up), live - {b}, FreedSize(size, p, q, b, low, up), Relabel(where, from, to);
    forall c | c in live'
      ensures c in size' && size'[c] > 0 && c > BASE && c !in fs'
    {
      FreedLive(fs, size, p, q, b, low, up, c);
    }
    forall c: nat | IsBlock(fs', live', c)
      ensures Covers(size', where', c)
    {
      FreedCovers(fs, live, size, where, p, q, b, low, up, c);
    }
    forall u | u in where'
      ensures Home(fs', live', size', where'[u], u)
    {
      FreedUnit(fs, live, size, where, p, q, b, low, up, u);
    }
  }

  lemma FreedUnit(fs: set<nat>, live: set<nat>, size: map<nat, nat>, where: map<nat, nat>, p: nat, q: nat, b: nat,
      low: bool, up: bool, u: nat)
    requires b in live && b in size && b !in fs && p in fs && q in fs && fs <= size.Keys && p < b && u in where
    requires Home(fs, live, size, where[u], u)
    requires (low ==> p + size[p] == b && p != BASE) && (up ==> b + size[b] == q && q != p && q != BASE && q !in live)
    requires b != BASE
    ensures
      var c := if where[u] == b || (up && where[u] == q) then (if low then p else b) else where[u];
      Home(Joined(fs, q, b, low, up), live - {b}, FreedSize(size, p, q, b, low, up), c, u)
  {}

  lemma FreedLive(fs: set<nat>, size: map<nat, nat>, p: nat, q: nat, b: nat, low: bool, up: bool, c: nat)
    requires p in size && q in size && b in size && c in size && c !in fs && c != b && c != p
    ensures
      var size' := FreedSize(size, p, q, b, low, up);
      c in size' && size'[c] == size[c] && c !in Joined(fs, q, b, low, up)
  {}

  lemma FreedCovers(fs: set<nat>, live: set<nat>, size: map<nat, nat>, where: map<nat, nat>, p: nat, q: nat, b: nat,
      low: bool, up: bool, c: nat)
    requires b in live && b in size && b !in fs && p in fs && q in fs && fs <= size.Keys && p < b && p !in live
    requires q !in live
    requires (low ==> p + size[p] == b && p != BASE) && (up ==> b + size[b] == q && q != p && q != BASE)
    requires forall d :: IsBlock(fs, live, d) ==> Covers(size, where, d)
    requires IsBlock(Joined(fs, q, b, low, up), live - {b}, c)
    ensures Covers(FreedSize(size, p, q, b, low, up),
      Relabel(where, if up then {b, q} else {b}, if low then p else b), c)
  {
    assert IsBlock(fs, live, c) && IsBlock(fs, live, b);
    if low {
      assert IsBlock(fs, live, p);
    }
    if up {
      assert IsBlock(fs, live, q);
    }
  }

  /** A live block overlaps neither the free block below it nor the one above. */
  lemma LiveTouches(fs: set<nat>, live: set<nat>, size: map<nat, nat>, where: map<nat, nat>, p: nat, q: nat, b: nat)
    requires Tiled(fs, live, size, where) && Apart(fs, size) && Before(fs, p, b) && b in live && q in fs
    ensures b !in fs && p + size[p] <= b && (q > b ==> b + size[b] <= q)
  {
    if p != BASE && p + size[p] > b {
      OneBlock(fs, live, size, where, p, b, b);
    }
    if q > b && b + size[b] > q {
      OneBlock(fs, live, size, where, b, q, q);
    }
  }

  /** No unit is in two blocks. */
  lemma OneBlock(fs: set<nat>, live: set<nat>, size: map<nat, nat>, where: map<nat, nat>, b: nat, c: nat, u: nat)
    requires Tiled(fs, live, size, where) && IsBlock(fs, live, b) && IsBlock(fs, live, c) && b in size && c in size
    requires b <= u < b + size[b] && c <= u < c + size[c]
    ensures b == c
  {
    assert Covers(size, where, b) && Covers(size, where, c);
    assert u in where && where[u] == b;
  }

  /** What free leaves behind. */
  lemma FreedOk(fs: set<nat>, live: set<nat>, ptr: map<nat, nat>, size: map<nat, nat>, where: map<nat, nat>, p: nat,
      b: nat)
    requires HeapOk(fs, live, ptr, size, where) && b in live && Before(fs, p, b)
    ensures p in ptr && p in size && ptr[p] in ptr && ptr[p] in size && ptr[p] in fs
    ensures
      var q := ptr[p];
      var low, up := p + size[p] == b, b + size[b] == q;
      HeapOk(Joined(fs, q, b, low, up), live - {b}, FreedPtr(ptr, p, b, low, up), FreedSize(size, p, q, b, low, up),
        Relabel(where, if up then {b, q} else {b}, if low then p else b))
  {
    hide Tiled, Succ;
    PtrInRing(fs, ptr, p);
    var q := ptr[p];
    BaseLowest(fs, ptr, p);
    assert b in size && size[b] > 0 && b > BASE by { LiveFacts(fs, live, size, where, b); }
    LiveTouches(fs, live, size, where, p, q, b);
    var low, up := p + size[p] == b, b + size[b] == q;
    FreedRing(fs, ptr, size, p, b, low, up);
    FreedApart(fs, size, p, q, b, low, up);
    FreedTiled(fs, live, size, where, p, q, b, low, up);
  }

  lemma LiveFacts(fs: set<nat>, live: set<nat>, size: map<nat, nat>, where: map<nat, nat>, b: nat)
    requires Tiled(fs, live, size, where) && b in live
    ensures b in size && size[b] > 0 && b > BASE && b !in fs
  {}

  lemma BaseLowest(fs: set<nat>, ptr: map<nat, nat>, p: nat)
    requires Ring(fs, ptr) && p in fs
    ensures BASE <= p && ptr[p] in fs && BASE <= ptr[p] && Succ(fs, p, ptr[p])
    ensures ptr[p] <= p ==> ptr[p] == BASE
  {
    PtrInRing(fs, ptr, p);
    assert Succ(fs, p, ptr[p]) && Succ(fs, ptr[p], ptr[ptr[p]]);
  }

  // ----- malloc -----

  /** Taking all of block `p`. */
  lemma TakenWhole(fs: set<nat>, live: set<nat>, ptr: map<nat, nat>, size: map<nat, nat>, where: map<nat, nat>,
      prevp: nat)
    requires HeapOk(fs, live, ptr, size, where) && prevp in fs && ptr[prevp] != BASE
    ensures ptr[prevp] in fs && ptr[prevp] in ptr && ptr[prevp] !in live
    ensures HeapOk(fs - {ptr[prevp]}, live + {ptr[prevp]}, ptr[prevp := ptr[ptr[prevp]]], size, where)
  {
    hide Succ;
    var p := ptr[prevp];
    BaseLowest(fs, ptr, prevp);
    RingRemove(fs, ptr, prevp);
    BaseLowest(fs, ptr, p);
    forall b | IsBlock(fs - {p}, live + {p}, b)
      ensures IsBlock(fs, live, b)
    {}
  }

  /** Taking the last `n` units of block `p`. */
  lemma TakenTail(fs: set<nat>, live: set<nat>, ptr: map<nat, nat>, size: map<nat, nat>, where: map<nat, nat>, p: nat,
      n: nat)
    requires HeapOk(fs, live, ptr, size, where) && p in fs && 0 < n < size[p]
    ensures
      var b := p + size[p] - n;
      && b !in fs && b !in live
      && HeapOk(fs, live + {b}, ptr, size[p := size[p] - n][b := n], Split(where, p, b))
  {
    hide Split, Tiled, Succ;
    var b := p + size[p] - n;
    BaseLowest(fs, ptr, p);
    if b in live {
      LiveFacts(fs, live, size, where, b);
      OneBlock(fs, live, size, where, p, b, b);
    }
    TakenTailTiled(fs, live, size, where, p, n);
  }

  function Split(where: map<nat, nat>, p: nat, b: nat): (r: map<nat, nat>) {
    map u | u in where :: if where[u] == p && u >= b then b else where[u]
  }

  lemma TakenTailTiled(fs: set<nat>, live: set<nat>, size: map<nat, nat>, where: map<nat, nat>, p: nat, n: nat)
    requires Tiled(fs, live, size, where) && p in fs && p in size && 0 < n < size[p] && BASE <= p
    requires (p == BASE ==> size[p] == 0)
    requires p + size[p] - n !in fs && p + size[p] - n !in live
    ensures
      var b := p + size[p] - n;
      Tiled(fs, live + {b}, size[p := size[p] - n][b := n], Split(where, p, b))
  {
    hide IsBlock;
    var b := p + size[p] - n;
    var live', size', where' := live + {b}, size[p := size[p] - n][b := n], Split(where, p, b);
    forall c: nat | IsBlock(fs, live', c)
      ensures Covers(size', where', c)
    {
      TailBlock(fs, live, p, b, c);
      assert Covers(size, where, if c == b then p else c);
    }
    forall u | u in where'
      ensures Home(fs, live', size', where'[u], u)
    {
      assert Home(fs, live, size, where[u], u);
      TailBlock(fs, live, p, b, where'[u]);
    }
  }

  lemma TailBlock(fs: set<nat>, live: set<nat>, p: nat, b: nat, c: nat)
    requires p in fs && p != BASE && b !in fs && b !in live
    ensures IsBlock(fs, live, p) && !IsBlock(fs, live, b)
    ensures (IsBlock(fs, live + {b}, c) <==> c == b || IsBlock(fs, live, c))
  {}

  /** The units from `a` on, `n` of them, in one more block. */
  function Grow(where: map<nat, nat>, a: nat, n: nat): (r: map<nat, nat>) {
    if n == 0 then where else Grow(where, a, n - 1)[a + n - 1 := a]
  }

  lemma {:induction false} GrowAt(where: map<nat, nat>, a: nat, n: nat, u: nat)
    ensures
      var r := Grow(where, a, n);
      (u in r <==> u in where || a <= u < a + n) && (u in r ==> r[u] == if a <= u < a + n then a else where[u])
  {
    if n > 0 {
      GrowAt(where, a, n - 1, u);
    }
  }

  lemma GrowKeys(where: map<nat, nat>, a: nat, n: nat)
    ensures Grow(where, a, n).Keys == where.Keys + Grow(map[], a, n).Keys
    ensures forall u :: u in Grow(where, a, n) ==> u in where || u < a + n
  {
    hide Grow;
    forall u: nat
      ensures u in Grow(where, a, n) <==> u in where || u in Grow(map[], a, n)
      ensures u in Grow(where, a, n) ==> u in where || u < a + n
    {
      GrowAt(where, a, n, u);
      GrowAt(map[], a, n, u);
    }
  }

  /** More memory from sbrk, as a block that nobody has freed yet. */
  lemma Obtained(fs: set<nat>, live: set<nat>, ptr: map<nat, nat>, size: map<nat, nat>, where: map<nat, nat>, a: nat,
      n: nat)
    requires HeapOk(fs, live, ptr, size, where) && n > 0 && a > BASE && forall u :: u in where ==> u < a
    ensures a !in fs && a !in live
    ensures HeapOk(fs, live + {a}, ptr, size[a := n], Grow(where, a, n))
  {
    hide Ring, Grow, Home, Covers;
    var where' := Grow(where, a, n);
    forall b: nat | IsBlock(fs, live, b)
      ensures b < a
    {
      BlockBelow(fs, live, size, where, a, b);
    }
    assert a !in fs && a !in live by { assert !IsBlock(fs, live, a); }
    forall b: nat | IsBlock(fs, live + {a}, b)
      ensures Covers(size[a := n], where', b)
    {
      assert b == a || IsBlock(fs, live, b);
      GrowCovers(size, where, a, n, b);
    }
    forall u | u in where'
      ensures Home(fs, live + {a}, size[a := n], where'[u], u)
    {
      GrowAt(where, a, n, u);
      HomeKept(fs, live, size, a, n, where'[u], u);
      assert u in where ==> Home(fs, live, size, where[u], u);
    }
  }

  lemma BlockBelow(fs: set<nat>, live: set<nat>, size: map<nat, nat>, where: map<nat, nat>, a: nat, b: nat)
    requires Tiled(fs, live, size, where) && Apart(fs, size) && IsBlock(fs, live, b) && forall u :: u in where ==> u < a
    ensures b < a
  {
    assert Covers(size, where, b);
    assert b in where;
  }

  lemma GrowCovers(size: map<nat, nat>, where: map<nat, nat>, a: nat, n: nat, b: nat)
    requires forall u :: u in where ==> u < a
    requires b == a || (Covers(size, where, b) && b != a)
    ensures Covers(size[a := n], Grow(where, a, n), b)
  {
    hide Grow;
    forall u: nat | b <= u < b + size[a := n][b]
      ensures u in Grow(where, a, n) && Grow(where, a, n)[u] == b
    {
      GrowAt(where, a, n, u);
      assert b != a ==> u in where;
    }
  }

  lemma HomeKept(fs: set<nat>, live: set<nat>, size: map<nat, nat>, a: nat, n: nat, b: nat, u: nat)
    requires !IsBlock(fs, live, a)
    ensures Home(fs, live, size, b, u) ==> Home(fs, live + {a}, size[a := n], b, u)
    ensures a <= u < a + n ==> Home(fs, live + {a}, size[a := n], a, u)
  {}

  /** What free does to the blocks in use: they keep their size and their units. */
  lemma FreedSpec(fs: set<nat>, live: set<nat>, ptr: map<nat, nat>, size: map<nat, nat>, where: map<nat, nat>, p: nat,
      b: nat)
    requires HeapOk(fs, live, ptr, size, where) && b in live && Before(fs, p, b)
    ensures p in ptr && ptr[p] in size && b in size && p in size
    ensures
      var q := ptr[p];
      var low, up := p + size[p] == b, b + size[b] == q;
      var fs', size', where' := Joined(fs, q, b, low, up), FreedSize(size, p, q, b, low, up),
        Relabel(where, if up then {b, q} else {b}, if low then p else b);
      && (forall c :: c in live - {b} ==> c in size' && size'[c] == size[c])
      && b in where' && where'[b] in fs' && where'[b] in size' && size'[where'[b]] >= size[b]
      && (forall c :: c in fs' ==> c in fs || c == b) && p in fs' && where'.Keys == where.Keys
  {
    hide Ring, Succ;
    assert p in ptr && ptr[p] in fs by { PtrInRing(fs, ptr, p); }
    LiveFacts(fs, live, size, where, b);
    assert IsBlock(fs, live, b);
    assert Covers(size, where, b);
    assert b in where && where[b] == b;
  }

  /** sbrk takes an int: the number of bytes is cut down to 32 bits. */
  function SbrkArg(nu: nat): (r: int) {
    var n := nu * HEADER % 0x1_0000_0000;
    if n < 0x8000_0000 then n else n - 0x1_0000_0000
  }

  /** morecore asks for what it means to exactly below 2^27 units; a uint number of
      bytes goes up to 2^28 + 1 units. */
  lemma SbrkArgExact(nu: nat)
    requires nu <= 0x1000_0001
    ensures SbrkArg(nu) == nu * HEADER <==> nu < 0x800_0000
  {}

  /** A request of almost 2^32 bytes comes out as a request for no memory at all. */
  lemma SbrkForNothing()
    ensures Units(0xffff_fff0) == 0x1000_0000 && SbrkArg(Units(0xffff_fff0)) == 0
  {
    assert Units(0xffff_fff0) == 0x1000_0000;
  }

  /** The number of units for `nbytes` and a header. */
  function Units(nbytes: nat): (n: nat)
    ensures n >= 1 && (n - 1) * HEADER >= nbytes > (n - 2) * HEADER
  {
    (nbytes + HEADER - 1) / HEADER + 1
  }

  /** The headers strictly between `from` and `to`, going around the ring. */
  ghost predicate Passed(from: nat, to: nat, c: nat) {
    if from < to then from < c < to else c > from || c < to
  }

  /** No free block has `n` units. */
  ghost predicate TooSmall(fs: set<nat>, size: map<nat, nat>, n: nat) {
    forall b :: b in fs && b in size ==> size[b] < n
  }

  /** No free block has room for the bytes behind its header. */
  lemma TooSmallMeans(fs: set<nat>, size: map<nat, nat>, nbytes: nat)
    ensures TooSmall(fs, size, Units(nbytes)) <==>
      forall b :: b in fs && b in size ==> 16 * size[b] < nbytes + 16
  {
    hide Units;
    var n := Units(nbytes);
    assert nbytes + 16 <= 16 * n < nbytes + 32;
  }

  lemma NoneFits(size: map<nat, nat>, n: nat)
    requires BASE in size && size[BASE] == 0 < n
    ensures TooSmall({BASE}, size, n) && forall m :: TooSmall({}, m, n)
  {}

  lemma SomeFits(fs: set<nat>, size: map<nat, nat>, p: nat, n: nat)
    requires p in fs && p in size && size[p] >= n
    ensures !TooSmall(fs, size, n)
  {}

  lemma AllPassed(fs: set<nat>, size: map<nat, nat>, from: nat, n: nat)
    requires forall c :: c in fs && Passed(from, from, c) ==> c in size && size[c] < n
    requires from in size && size[from] < n
    ensures TooSmall(fs, size, n)
  {}

  lemma PassedStep(fs: set<nat>, from: nat, p: nat, q: nat, c: nat)
    requires Succ(fs, p, q) && from in fs && c in fs && BASE <= p && BASE <= c && BASE <= from && (q <= p ==> q == BASE)
    ensures p != from ==> (Passed(from, q, c) <==> Passed(from, p, c) || c == p)
    ensures p == from ==> !Passed(from, q, c)
  {}

  function Max(a: nat, b: nat): (m: nat) {
    if a < b then b else a
  }

  lemma Nearer(fs: set<nat>, p: nat, q: nat, t: nat, brk: nat)
    requires Succ(fs, p, q) && t in fs && p != t && p < brk && q < brk && t < brk && BASE <= t && (q <= p ==> q == BASE)
    ensures Distance(q, t, brk) < Distance(p, t, brk)
  {}

  lemma TakeFacts(fs: set<nat>, live: set<nat>, ptr: map<nat, nat>, size: map<nat, nat>, where: map<nat, nat>,
      prevp: nat)
    requires HeapOk(fs, live, ptr, size, where) && prevp in fs
    ensures prevp in ptr && ptr[prevp] in fs && ptr[prevp] in ptr && ptr[prevp] in size
    ensures (ptr[prevp] == BASE ==> size[BASE] == 0)
    ensures prevp >= BASE && ptr[prevp] !in live && (ptr[prevp] != BASE ==> ptr[prevp] != prevp)
    ensures forall b :: b in live ==> b in size
  {
    hide Succ;
    BaseLowest(fs, ptr, prevp);
    PtrInRing(fs, ptr, prevp);
  }

  lemma EmptyHeap(ptr: map<nat, nat>, size: map<nat, nat>)
    requires BASE in ptr && ptr[BASE] == BASE && BASE in size && size[BASE] == 0
    ensures HeapOk({BASE}, {}, ptr, size, map[])
  {}

  lemma RingFacts(fs: set<nat>, live: set<nat>, ptr: map<nat, nat>, size: map<nat, nat>, where: map<nat, nat>, p: nat,
      from: nat, brk: nat)
    requires HeapOk(fs, live, ptr, size, where) && p in fs && from in fs && forall c :: c in fs ==> c < brk
    ensures p in ptr && p in size && ptr[p] in fs && ptr[p] in size && forall b :: b in live ==> b in size
    ensures forall c :: Passed(from, from, c) <==> c != from
    ensures p != from ==> Distance(ptr[p], from, brk) < Distance(p, from, brk)
    ensures p == from ==> forall c :: c in fs ==> !Passed(from, ptr[p], c)
    ensures p != from ==> forall c :: c in fs ==> (Passed(from, ptr[p], c) <==> Passed(from, p, c) || c == p)
  {
    hide Succ;
    PtrInRing(fs, ptr, p);
    BaseLowest(fs, ptr, p);
    BaseLowest(fs, ptr, from);
    if p != from {
      Nearer(fs, p, ptr[p], from, brk);
    }
    forall c | c in fs
      ensures p == from ==> !Passed(from, ptr[p], c)
      ensures p != from ==> (Passed(from, ptr[p], c) <==> Passed(from, p, c) || c == p)
    {
      BaseLowest(fs, ptr, c);
      PassedStep(fs, from, p, ptr[p], c);
    }
  }

  /** How far around the ring it still is from `p` to `t`. */
  function Distance(p: nat, t: nat, brk: nat): (d: nat) {
    if p <= t then t - p else if p <= brk then brk + (brk - p) else 0
  }

  /** The conditions under which free's search stops, and that it gets nearer otherwise. */
  lemma Onward(fs: set<nat>, p: nat, q: nat, t: nat, b: nat, brk: nat)
    requires BASE <= p && (q <= p ==> q == BASE) && BASE < b && Succ(fs, p, q) && Before(fs, t, b) && b !in fs
    requires p < brk && q < brk && t < brk
    ensures (b > p && b < q) || (p >= q && (b > p || b < q)) ==> Before(fs, p, b)
    ensures !(b > p && b < q) && !(p >= q && (b > p || b < q)) ==> Distance(q, t, brk) < Distance(p, t, brk)
  {}

  /** The header words that free writes. */
  lemma FreedHeads(ptr: map<nat, nat>, size: map<nat, nat>, p: nat, b: nat, ptr': map<nat, nat>, size': map<nat, nat>)
    requires p in ptr && p in size && b in size && ptr[p] in ptr && ptr[p] in size && p < b
    requires
      var q := ptr[p];
      var ptr1 := if b + size[b] == q then ptr[b := ptr[q]] else ptr[b := q];
      var size1 := if b + size[b] == q then size[b := size[b] + size[q]] else size;
      if p + size1[p] == b then ptr' == ptr1[p := ptr1[b]] && size' == size1[p := size1[p] + size1[b]]
      else ptr' == ptr1[p := b] && size' == size1
    ensures
      var low, up := p + size[p] == b, b + size[b] == ptr[p];
      ptr' == FreedPtr(ptr, p, b, low, up) && size' == FreedSize(size, p, ptr[p], b, low, up)
  {}

  /** Following the pointers `n` times. */
  function Walk(ptr: map<nat, nat>, p: nat, n: nat): (r: nat)
    decreases n
  {
    if n == 0 || p !in ptr then p else Walk(ptr, ptr[p], n - 1)
  }

  /** It is one ring: from every free header the pointers lead to every other. */
  lemma {:induction false} OneRing(fs: set<nat>, ptr: map<nat, nat>, p: nat, t: nat, brk: nat) returns (n: nat)
    requires Ring(fs, ptr) && p in fs && t in fs && forall c :: c in fs ==> c < brk
    ensures Walk(ptr, p, n) == t
    decreases Distance(p, t, brk)
  {
    if p == t {
      n := 0;
    } else {
      BaseLowest(fs, ptr, p);
      BaseLowest(fs, ptr, t);
      Nearer(fs, p, ptr[p], t, brk);
      n := OneRing(fs, ptr, ptr[p], t, brk);
      n := n + 1;
    }
  }

  /** Blocks, free or live, do not overlap. */
  lemma BlocksAreDisjoint(fs: set<nat>, live: set<nat>, ptr: map<nat, nat>, size: map<nat, nat>, where: map<nat, nat>,
      b: nat, c: nat)
    requires HeapOk(fs, live, ptr, size, where) && IsBlock(fs, live, b) && IsBlock(fs, live, c) && b < c
    ensures b in size && c in size && size[b] > 0 && b + size[b] <= c
  {
    hide Ring;
    assert Covers(size, where, b) && Covers(size, where, c);
    if b + size[b] > c {
      OneBlock(fs, live, size, where, b, c, c);
    }
  }

  /** Coalescing is complete: neighbouring free units are in the same block. */
  lemma FullyCoalesced(fs: set<nat>, live: set<nat>, ptr: map<nat, nat>, size: map<nat, nat>, where: map<nat, nat>,
      u: nat)
    requires HeapOk(fs, live, ptr, size, where) && u in where && u + 1 in where && where[u] in fs && where[u + 1] in fs
    ensures where[u] == where[u + 1]
  {
    hide Ring;
    assert Home(fs, live, size, where[u], u) && Home(fs, live, size, where[u + 1], u + 1);
    assert Covers(size, where, where[u + 1]);
  }

  class Heap {
    var ptr: map<nat, nat>
    var size: map<nat, nat>
    var freep: nat
    ghost var fs: set<nat>            // headers of the free list
    ghost var live: set<nat>          // headers of the blocks handed out
    ghost var where: map<nat, nat>    // the block of each unit obtained
    ghost var brk: nat                // all of them lie below

    ghost predicate Valid()
      reads this
    {
      && BASE < brk && (forall u :: u in where ==> u < brk) && (forall b :: b in fs ==> b < brk)
      && if freep == NULL then fs == {} && live == {} && where == map[]
         else HeapOk(fs, live, ptr, size, where) && freep in fs
    }

    constructor ()
      ensures Valid() && live == {} && where == map[]
    {
      ptr, size, freep := map[], map[], NULL;
      fs, live, where, brk := {}, {}, map[], BASE + 1;
    }

    /** free's search: from `freep` around the ring to the place of `bp`. */
    method FindPlace(bp: nat) returns (p: nat)
      requires Valid() && bp in live
      ensures Before(fs, p, bp) && p >= BASE
    {
      hide Tiled, Apart, Succ, Before, Distance;
      LiveFacts(fs, live, size, where, bp);
      ghost var t := PlaceExists(fs, bp);
      p := freep;
      while !(bp > p && bp < ptr[p])
        invariant p in fs && p in ptr
        decreases Distance(p, t, brk)
      {
        BaseLowest(fs, ptr, p);
        Onward(fs, p, ptr[p], t, bp, brk);
        if p >= ptr[p] && (bp > p || bp < ptr[p]) {
          break;
        }
        p := ptr[p];
      }
      BaseLowest(fs, ptr, p);
      Onward(fs, p, ptr[p], t, bp, brk);
    }

    /** free */
    method Free(ap: nat)
      requires Valid() && ap > 0 && ap - 1 in live
      modifies this`ptr, this`size, this`freep, this`fs, this`live, this`where
      ensures Valid() && live == old(live) - {ap - 1} && where.Keys == old(where).Keys
      ensures forall b :: b in live ==> size[b] == old(size)[b]
      ensures ap - 1 in where && where[ap - 1] in fs && where[ap - 1] in size
      ensures size[where[ap - 1]] >= old(size)[ap - 1]
    {
      hide HeapOk, Joined, Relabel, FreedSize, FreedPtr;
      var bp := ap - 1;
      var p := FindPlace(bp);
      FreedOk(fs, live, ptr, size, where, p, bp);
      FreedSpec(fs, live, ptr, size, where, p, bp);
      ghost var q, low, up := ptr[p], p + size[p] == bp, bp + size[bp] == ptr[p];
      if bp + size[bp] == ptr[p] {
        size := size[bp := size[bp] + size[ptr[p]]];
        ptr := ptr[bp := ptr[ptr[p]]];
      } else {
        ptr := ptr[bp := ptr[p]];
      }
      if p + size[p] == bp {
        size := size[p := size[p] + size[bp]];
        ptr := ptr[p := ptr[bp]];
      } else {
        ptr := ptr[p := bp];
      }
      FreedHeads(old(ptr), old(size), p, bp, ptr, size);
      freep := p;
      fs, live, where :=
        Joined(fs, q, bp, low, up), live - {bp}, Relabel(where, if up then {bp, q} else {bp}, if low then p else bp);
    }

    /** morecore; sbrk either fails or returns address `at`. */
    method Morecore(nu: nat, ok: bool, at: nat) returns (p: nat)
      requires Valid() && freep != NULL && at >= brk && 0 < nu < 0x800_0000
      modifies this
      ensures Valid() && live == old(live) && p == if ok then freep else NULL
      ensures !ok ==> unchanged(this)
      ensures ok ==>
        && freep != NULL && where.Keys == old(where).Keys + Grow(map[], at, Max(nu, 4096)).Keys
        && at in where && where[at] in fs && where[at] in size && size[where[at]] >= nu
      ensures forall b :: b in live ==> size[b] == old(size)[b]
    {
      hide HeapOk, Grow;
      var n := if nu < 4096 then 4096 else nu;
      if !ok {
        return NULL;
      }
      Obtained(fs, live, ptr, size, where, at, n);
      GrowKeys(where, at, n);
      size := size[at := n];
      live, where, brk := live + {at}, Grow(where, at, n), at + n;
      assert Valid();
      Free(at + 1);
      p := freep;
    }

    /** The end of malloc: `n` units from the block behind `prevp`, its whole or its tail. */
    method Take(prevp: nat, n: nat) returns (ap: nat)
      requires Valid() && freep != NULL && prevp in fs && prevp in ptr && ptr[prevp] in size
      requires size[ptr[prevp]] >= n > 0
      modifies this
      ensures Valid() && ap > 0 && ap - 1 !in old(live) && live == old(live) + {ap - 1} && size[ap - 1] == n
      ensures where.Keys == old(where).Keys
      ensures forall b :: b in old(live) ==> size[b] == old(size)[b]
    {
      hide HeapOk;
      var p := ptr[prevp];
      TakeFacts(fs, live, ptr, size, where, prevp);
      if size[p] == n {
        TakenWhole(fs, live, ptr, size, where, prevp);
        ptr := ptr[prevp := ptr[p]];
        fs, live := fs - {p}, live + {p};
      } else {
        TakenTail(fs, live, ptr, size, where, p, n);
        size := size[p := size[p] - n];
        where := Split(where, p, p + size[p]);
        p := p + size[p];
        size := size[p := n];
        live := live + {p};
      }
      freep := prevp;
      ap := p + 1;
    }

    /** malloc; `ok` and `at` are sbrk's answer should it be asked, which happens at
        most once. It fails only when no free block is large enough and sbrk refuses. */
    method Malloc(nbytes: nat, ok: bool, at: nat) returns (ap: nat)
      requires Valid() && at >= brk && Units(nbytes) < 0x800_0000
      modifies this
      ensures Valid()
      ensures ap == NULL <==> !ok && old(TooSmall(fs, size, Units(nbytes)))
      ensures ap == NULL <==>
        !ok && forall b :: b in old(fs) && b in old(size) ==> 16 * old(size)[b] < nbytes + 16
      ensures ap == NULL ==> live == old(live) && where == old(where)
      ensures ap != NULL ==>
        && ap - 1 !in old(live) && live == old(live) + {ap - 1} && size[ap - 1] == Units(nbytes)
        && nbytes + 16 <= 16 * size[ap - 1] < nbytes + 32
        && if ok && old(TooSmall(fs, size, Units(nbytes)))
           then where.Keys == old(where).Keys + Grow(map[], at, Max(Units(nbytes), 4096)).Keys
           else where.Keys == old(where).Keys
      ensures forall b :: b in old(live) ==> size[b] == old(size)[b]
    {
      hide HeapOk, Grow, Passed, Distance, Units, TooSmall;
      var nunits := Units(nbytes);
      TooSmallMeans(fs, size, nbytes);
      if freep == NULL {
        ptr, size, freep := ptr[BASE := BASE], size[BASE := 0], BASE;
        fs := {BASE};
        EmptyHeap(ptr, size);
        NoneFits(size, nunits);
      }
      ghost var grown, w, small := false, BASE, TooSmall(fs, size, nunits);
      var prevp := freep;
      RingFacts(fs, live, ptr, size, where, prevp, freep, brk);
      var p := ptr[prevp];
      while true
        invariant Valid() && freep != NULL && prevp in fs && prevp in ptr && p == ptr[prevp] && live == old(live)
        invariant if grown then w in fs && w in size && size[w] >= nunits && !Passed(freep, p, w)
                  else
                    && where == old(where) && at >= brk && brk == old(brk)
                    && forall c :: c in fs && Passed(freep, p, c) ==> c in size && size[c] < nunits
        invariant forall b :: b in live ==> b in size && size[b] == old(size)[b]
        invariant if grown then ok && small else small == TooSmall(fs, size, nunits)
        invariant grown ==> where.Keys == old(where).Keys + Grow(map[], at, Max(nunits, 4096)).Keys
        decreases !grown, Distance(p, freep, brk)
      {
        RingFacts(fs, live, ptr, size, where, prevp, freep, brk);
        if size[p] >= nunits {
          assert grown || !small by { SomeFits(fs, size, p, nunits); }
          ap := Take(prevp, nunits);
          return;
        }
        if p == freep {
          if !grown {
            AllPassed(fs, size, freep, nunits);
          }
          p := Morecore(nunits, ok, at);
          if p == NULL {
            return NULL;
          }
          grown, w := true, where[at];
        }
        RingFacts(fs, live, ptr, size, where, p, freep, brk);
        prevp, p := p, ptr[p];
      }
    }
  }
}
