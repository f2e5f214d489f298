/** Facts about physical memory that kernel/vm.c and kernel/kalloc.c maintain:
    the free list, one mapping more or less, growing and rolling back a user
    address space. */
module VmSpec {
  import opened PageTables
  import opened Memory

  const PGSIZE := 4096

  /** PGROUNDUP(sz) / PGSIZE */
  function Pages(sz: nat): (n: nat)
    ensures sz <= n * 4096 < sz + 4096
  {
    (sz + PGSIZE - 1) / PGSIZE
  }

  /** The 64-bit words that memset(p, 1, PGSIZE) and memset(p, 5, PGSIZE) leave. */
  const FreedWord := Pte(0x0101_0101_0101_0101 / 1024, 0x101)
  const FreshWord := Pte(0x0505_0505_0505_0505 / 1024, 0x105)

  function Filled(w: Pte): (p: Page) {
    seq(ENTRIES, _ => w)
  }

  /** The address of page `p` as a 64-bit word, and back. */
  function AddrWord(p: nat): (w: Pte) {
    Pte(4 * p, 0)
  }

  function PageOf(w: Pte): (p: nat) {
    w.ppn / 4
  }

  /** The free list runs through the first words of the free pages. */
  ghost predicate Links(page: map<nat, Page>, free: seq<nat>, freelist: nat) {
    && freelist == (if free == [] then 0 else free[0])
    && forall i {:trigger free[i]} :: 0 <= i < |free| ==>
         free[i] in page && page[free[i]][0] == AddrWord(if i + 1 < |free| then free[i + 1] else 0)
  }

  lemma KeepsUnmapped(a: Mem, b: Mem, root: nat, vpn: nat)
    requires TreeOk(a.page, a.where) && TreeOk(b.page, b.where) && SameLeaves(a, b)
    requires IsRoot(a.where, root) && vpn < MAXVPN && Leaf(a.page, a.where, root, vpn) == None
    ensures IsRoot(b.where, root) && Leaf(b.page, b.where, root, vpn) == None
  {}

  /** `c` is `a` with page `p` taken from the free list and filled. */
  ghost predicate Taken(a: Mem, c: Mem, p: nat)
    requires TreeOk(a.page, a.where) && TreeOk(c.page, c.where)
  {
    && SameLeaves(a, c) && SameUserData(a, c) && c.owned == a.owned
    && p !in Pool(c) && Pool(a) == Pool(c) + {p} && p !in a.owned
    && p in c.page && forall q :: q in a.page && q != p ==> q in c.page && c.page[q] == a.page[q]
  }

  lemma FilledPage(a: Mem, b: Mem, c: Mem, p: nat, content: Page)
    requires TreeOk(a.page, a.where) && TreeOk(b.page, b.where) && TreeOk(c.page, c.where)
    requires Taken(a, b, p) && c == b.(page := b.page[p := content]) && SameLeaves(b, c) && p !in b.owned
    ensures Taken(a, c, p)
  {
    hide TreeOk, SameLeaves;
    SameLeavesTrans(a, b, c);
    PoolOfPage(b, c.page);
  }

  lemma AddedPage(a: Mem, c: Mem, d: Mem, root: nat, vpn: nat, p: nat, perm: nat)
    requires TreeOk(a.page, a.where) && TreeOk(c.page, c.where) && TreeOk(d.page, d.where) && vpn < MAXVPN
    requires Taken(a, c, p) && LeavesAre(c, d, root, vpn, FrameEntries(p, perm, 1))
    requires Pool(d) == Pool(c) + {p} && SameUserData(c, d) && SameOutside(c, d)
    ensures LeafSet(a, d, root, vpn, Some(Pte(p, OrV(perm))))
    ensures Pool(d) == Pool(a) && SameUserData(a, d) && SameOutside(a, d)
    ensures p in d.page && d.page[p] == c.page[p]
  {
    hide TreeOk, Pool;
    forall x, v | IsRoot(a.where, x) && 0 <= v < MAXVPN
      ensures Leaf(d.page, d.where, x, v) ==
        if x == root && v == vpn then Some(Pte(p, OrV(perm))) else Leaf(a.page, a.where, x, v)
    {
      assert Leaf(c.page, c.where, x, v) == Leaf(a.page, a.where, x, v);
    }
  }

  lemma PoolPush(d: Mem, e: Mem, p: nat)
    requires e.where == d.where && e.owned == d.owned && e.free == [p] + d.free
    ensures Pool(e) == Pool(d) + {p}
  {
    assert (set q | q in e.free) == {p} + set q | q in d.free;
  }

  lemma GaveBackPage(a: Mem, c: Mem, d: Mem, e: Mem, root: nat, vpn: nat, p: nat, perm: nat)
    requires TreeOk(a.page, a.where) && TreeOk(c.page, c.where) && TreeOk(d.page, d.where) && TreeOk(e.page, e.where)
    requires Taken(a, c, p) && LeavesAre(c, d, root, vpn, FrameEntries(p, perm, 0))
    requires Pool(d) == Pool(c) && SameUserData(c, d) && SameOutside(c, d) && d.owned == c.owned
    requires SameLeaves(d, e) && SameUserData(d, e) && e.where == d.where && e.owned == d.owned
    requires e.free == [p] + d.free
    requires forall q :: q in d.page && q != p ==> q in e.page && e.page[q] == d.page[q]
    ensures SameLeaves(a, e) && Pool(e) == Pool(a) && SameUserData(a, e) && SameOutside(a, e)
  {
    hide TreeOk, Pool;
    PoolPush(d, e, p);
    forall x, v | IsRoot(a.where, x) && 0 <= v < MAXVPN
      ensures Leaf(e.page, e.where, x, v) == Leaf(a.page, a.where, x, v)
    {
      assert Leaf(c.page, c.where, x, v) == Leaf(a.page, a.where, x, v);
      assert Leaf(d.page, d.where, x, v) == Leaf(c.page, c.where, x, v);
    }
  }

  ghost function NoEntries(n: nat): (es: seq<Option<Pte>>)
    ensures |es| == n
  {
    seq(n, _ => None)
  }

  lemma DisownedNone(owned: map<nat, Use>, root: nat, vpn: nat)
    ensures Disowned(owned, root, vpn, 0) == owned
  {}

  lemma StillUnmappable(a: Mem, b: Mem, r: Range, root: nat, vpn: nat, i: nat, doFree: bool)
    requires MemOk(a, r) && MemOk(b, r) && IsRoot(a.where, root) && vpn + i < MAXVPN
    requires Unmappable(a, root, vpn + i, doFree)
    requires LeavesAre(a, b, root, vpn, NoEntries(i)) && b.owned == Disowned(a.owned, root, vpn, i)
    ensures IsRoot(b.where, root) && Unmappable(b, root, vpn + i, doFree)
  {
    hide TreeOk;
  }

  lemma UnmappedOne(a: Mem, b: Mem, c: Mem, r: Range, root: nat, vpn: nat, i: nat)
    requires MemOk(a, r) && MemOk(b, r) && MemOk(c, r)
    requires LeavesAre(a, b, root, vpn, NoEntries(i)) && LeafSet(b, c, root, vpn + i, None)
    requires b.owned == Disowned(a.owned, root, vpn, i) && c.owned == Disowned(b.owned, root, vpn + i, 1)
    requires Pool(b) == Pool(a) && SameOutside(a, b) && SameOutside(b, c)
    requires SameUserData(a.(owned := b.owned), b) && SameUserData(b.(owned := c.owned), c)
    ensures LeavesAre(a, c, root, vpn, NoEntries(i + 1)) && c.owned == Disowned(a.owned, root, vpn, i + 1)
    ensures SameOutside(a, c) && SameUserData(a.(owned := c.owned), c)
  {
    hide TreeOk, FreeOk, PagesOk, OwnedOk, Pool;
    LeavesExtend(a, b, c, root, vpn, NoEntries(i), None);
    assert NoEntries(i) + [None] == NoEntries(i + 1);
  }

  /** The entries that map `k` consecutive frames. */
  ghost function FrameEntries(p: nat, perm: nat, k: nat): (es: seq<Option<Pte>>)
    ensures |es| == k
  {
    seq(k, i requires 0 <= i < k => Some(Pte(p + i, OrV(perm))))
  }

  /** `b` translates `|es|` virtual pages from `vpn` on as `es` says, and
      everything else as `a` does. */
  ghost predicate LeavesAre(a: Mem, b: Mem, root: nat, vpn: nat, es: seq<Option<Pte>>)
    requires TreeOk(a.page, a.where) && TreeOk(b.page, b.where)
  {
    && (forall r :: IsRoot(a.where, r) <==> IsRoot(b.where, r))
    && forall r, v :: IsRoot(a.where, r) && 0 <= v < MAXVPN ==>
         Leaf(b.page, b.where, r, v) ==
         if r == root && vpn <= v < vpn + |es| then es[v - vpn] else Leaf(a.page, a.where, r, v)
  }

  lemma LeavesExtend(a: Mem, b: Mem, c: Mem, root: nat, vpn: nat, es: seq<Option<Pte>>, e: Option<Pte>)
    requires TreeOk(a.page, a.where) && TreeOk(b.page, b.where) && TreeOk(c.page, c.where)
    requires LeavesAre(a, b, root, vpn, es) && LeafSet(b, c, root, vpn + |es|, e)
    ensures LeavesAre(a, c, root, vpn, es + [e])
  {
    hide TreeOk;
    forall x, v | IsRoot(a.where, x) && 0 <= v < MAXVPN
      ensures Leaf(c.page, c.where, x, v) ==
        if x == root && vpn <= v < vpn + |es| + 1 then (es + [e])[v - vpn] else Leaf(a.page, a.where, x, v)
    {
      assert Leaf(b.page, b.where, x, v) ==
        if x == root && vpn <= v < vpn + |es| then es[v - vpn] else Leaf(a.page, a.where, x, v);
    }
  }

  lemma NothingYet(a: Mem, r: Range, root: nat, vpn: nat)
    requires MemOk(a, r)
    ensures LeavesAre(a, a, root, vpn, []) && SameUserData(a, a) && SameOutside(a, a)
  {}

  lemma LeavesBeyond(a: Mem, b: Mem, r: Range, root: nat, vpn: nat, es: seq<Option<Pte>>, v: nat)
    requires MemOk(a, r) && MemOk(b, r) && LeavesAre(a, b, root, vpn, es) && IsRoot(a.where, root)
    requires vpn + |es| <= v < MAXVPN
    ensures IsRoot(b.where, root) && Leaf(b.page, b.where, root, v) == Leaf(a.page, a.where, root, v)
  {}

  lemma GrownLeaves(a: Mem, b: Mem, c: Mem, r: Range, root: nat, vpn: nat, es: seq<Option<Pte>>)
    requires MemOk(a, r) && MemOk(b, r) && LeavesAre(a, b, root, vpn, es) && Grown(b, c, r)
    requires b.owned == a.owned && Pool(b) == Pool(a) && SameUserData(a, b) && SameOutside(a, b)
    ensures MemOk(c, r) && LeavesAre(a, c, root, vpn, es)
    ensures c.owned == a.owned && Pool(c) == Pool(a) && SameUserData(a, c) && SameOutside(a, c)
  {
    hide TreeOk, FreeOk, PagesOk, OwnedOk, Pool;
    forall x, v | IsRoot(a.where, x) && 0 <= v < MAXVPN
      ensures Leaf(c.page, c.where, x, v) ==
        if x == root && vpn <= v < vpn + |es| then es[v - vpn] else Leaf(a.page, a.where, x, v)
    {
      assert Leaf(b.page, b.where, x, v) == Leaf(c.page, c.where, x, v);
    }
  }

  lemma MappedOne(a: Mem, b: Mem, c: Mem, r: Range, root: nat, vpn: nat, es: seq<Option<Pte>>, e: Option<Pte>)
    requires MemOk(a, r) && MemOk(b, r) && MemOk(c, r) && IsRoot(a.where, root)
    requires LeavesAre(a, b, root, vpn, es) && LeafSet(b, c, root, vpn + |es|, e)
    requires b.owned == a.owned && Pool(b) == Pool(a)
    requires SameUserData(a, b) && SameOutside(a, b) && SameUserData(b, c) && SameOutside(b, c)
    ensures LeavesAre(a, c, root, vpn, es + [e]) && IsRoot(c.where, root) && SameUserData(a, c) && SameOutside(a, c)
  {
    hide TreeOk, FreeOk, PagesOk, OwnedOk, Pool;
    LeavesExtend(a, b, c, root, vpn, es, e);
  }

  lemma NothingOwned(a: Mem, root: nat, vpn: nat)
    requires forall p :: p in a.owned ==> a.owned[p] != Use(root, vpn)
    ensures Disowned(a.owned, root, vpn, 1) == a.owned && SameUserData(a, a) && SameOutside(a, a)
  {}

  lemma DisownedPool(a: Mem, p: nat)
    requires p in a.owned && p !in a.free && p !in a.where
    ensures p !in Pool(a.(owned := a.owned - {p}))
  {}

  /** A user page that went to the free list. */
  lemma FreedPool(a: Mem, m: Mem, p: nat)
    requires p in a.owned && m.free == [p] + a.free && m.where == a.where && m.owned == a.owned - {p}
    requires TreeOk(a.page, a.where) && TreeOk(m.page, m.where) && SameLeaves(a.(owned := m.owned), m)
    requires forall q :: q in a.page && q != p ==> q in m.page && m.page[q] == a.page[q]
    ensures Pool(m) == Pool(a) && SameOutside(a, m) && SameLeaves(a, m)
  {
    hide TreeOk;
    assert (set q | q in m.free) == {p} + set q | q in a.free;
  }

  /** Clearing the entry of a page whose user memory is already gone. */
  lemma UnmapAfter(a: Mem, m: Mem, r: Range, root: nat, vpn: nat, t: nat)
    requires MemOk(a, r) && MemOk(m, r) && m.where == a.where && IsRoot(a.where, root) && vpn < MAXVPN
    requires SameLeaves(a, m) && Pool(m) == Pool(a) && SameOutside(a, m)
    requires m.owned == Disowned(a.owned, root, vpn, 1) && SameUserData(a.(owned := m.owned), m)
    requires TableFor(a.page, a.where, root, vpn, 0) == Some(t)
    ensures t in m.where && t in m.page
    ensures
      var b := WithEntry(m, t, vpn, ZeroPte, m.owned);
      && MemOk(b, r) && LeafSet(a, b, root, vpn, None)
      && Pool(b) == Pool(a) && SameOutside(a, b) && SameUserData(a.(owned := m.owned), b)
  {
    hide TreeOk, OwnedOk, FreeOk, SameLeaves, LeafSet, Pool;
    UnmapMem(m, r, t, vpn);
    var b := WithEntry(m, t, vpn, ZeroPte, m.owned);
    LeafSetAfter(a, m, b, root, vpn, None);
    TableNotFree(m, r, t);
    PoolOfPage(m, b.page);
  }

  /** What uvmunmap asks of each page: mapped, a leaf, and user memory of this
      mapping exactly if it is to be freed. */
  ghost predicate Unmappable(m: Mem, root: nat, vpn: nat, doFree: bool)
    requires TreeOk(m.page, m.where) && IsRoot(m.where, root) && vpn < MAXVPN
  {
    var e := Leaf(m.page, m.where, root, vpn);
    && e.Some? && e.value.flags != PTE_V
    && (if doFree then e.value.ppn in m.owned && m.owned[e.value.ppn] == Use(root, vpn)
        else forall p :: p in m.owned ==> m.owned[p] != Use(root, vpn))
  }

  /** User memory without that of `n` virtual pages. */
  ghost function Disowned(owned: map<nat, Use>, root: nat, vpn: nat, n: nat): (r: map<nat, Use>) {
    map p | p in owned && !(owned[p].root == root && vpn <= owned[p].vpn < vpn + n) :: owned[p]
  }

  /** A virtual page has at most one user page. */
  lemma OwnedOnce(m: Mem, r: Range, root: nat, vpn: nat)
    requires MemOk(m, r) && IsRoot(m.where, root) && vpn < MAXVPN && Unmappable(m, root, vpn, true)
    ensures
      var p := Leaf(m.page, m.where, root, vpn).value.ppn;
      m.owned - {p} == Disowned(m.owned, root, vpn, 1) && r.Contains(p)
  {
    hide TreeOk;
    forall q | q in m.owned && m.owned[q] == Use(root, vpn)
      ensures q == Leaf(m.page, m.where, root, vpn).value.ppn
    {
      assert Mapped(m, q);
    }
  }

  /** Taking a page off the free list and hanging it into a page table. */
  lemma HangGrown(a: Mem, m: Mem, r: Range, t: nat, i: nat, c: nat)
    requires MemOk(a, r) && MemOk(m, r) && SameLeaves(a, m) && SameUserData(a, m)
    requires m.owned == a.owned && Pool(a) == Pool(m) + {c}
    requires forall q :: q in a.page && q != c ==> q in m.page && m.page[q] == a.page[q]
    requires t in m.where && m.where[t].level > 0 && t in m.page && i < ENTRIES && !V(m.page[t][i])
    requires r.Contains(c) && c !in Pool(m) && InBounds(HungWhere(m.where, t, i, c)[c])
    ensures Grown(a, Mem(Hung(m.page, t, i, c), m.free, HungWhere(m.where, t, i, c), m.owned), r)
  {
    hide MemOk, SameLeaves, Pool;
    TableNotFree(m, r, t);
    var b := Mem(Hung(m.page, t, i, c), m.free, HungWhere(m.where, t, i, c), m.owned);
    HangMem(m, r, t, i, c);
    MemTrees(a, r);
    MemTrees(m, r);
    MemTrees(b, r);
    SameLeavesTrans(a, m, b);
    assert SameUserData(a, b);
    forall q | q in a.page && q !in Pool(a)
      ensures q in b.page && b.page[q] == a.page[q]
    {
      assert q != c && q != t;
    }
  }

  lemma MemTrees(m: Mem, r: Range)
    requires MemOk(m, r)
    ensures TreeOk(m.page, m.where) && OwnedOk(m) && PagesOk(m, r) && FreeOk(m, r)
  {}

  lemma GrownUserData(a: Mem, b: Mem, r: Range)
    requires Grown(a, b, r)
    ensures MemOk(b, r) && SameUserData(a, b) && SameOutside(a, b) && b.owned == a.owned && Pool(b) == Pool(a)
  {}

  /** Setting the leaf that walk has found. */
  lemma MapAfterGrown(a: Mem, m: Mem, r: Range, root: nat, vpn: nat, t: nat, e: Pte, own: bool)
    requires Grown(a, m, r) && IsRoot(a.where, root) && IsRoot(m.where, root) && vpn < MAXVPN && V(e)
    requires Leaf(a.page, a.where, root, vpn) == None && TableFor(m.page, m.where, root, vpn, 0) == Some(t)
    requires own ==> r.Contains(e.ppn) && e.ppn !in Pool(a)
    ensures t in m.page && t in m.where && !V(m.page[t][PX(0, vpn)])
    ensures
      var b := WithEntry(m, t, vpn, e, if own then m.owned[e.ppn := Use(root, vpn)] else m.owned);
      && MemOk(b, r) && LeafSet(a, b, root, vpn, Some(e)) && SameUserData(a, b) && SameOutside(a, b)
      && Pool(b) == Pool(a) + (if own then {e.ppn} else {})
  {
    hide TreeOk, OwnedOk, FreeOk, PagesOk, SameLeaves, LeafSet;
    UnmappedEntry(a, m, root, vpn, t);
    var b := WithEntry(m, t, vpn, e, if own then m.owned[e.ppn := Use(root, vpn)] else m.owned);
    MapMem(m, r, t, vpn, e, own);
    LeafSetAfter(a, m, b, root, vpn, Some(e));
  }

  lemma UnmappedEntry(a: Mem, b: Mem, root: nat, vpn: nat, t: nat)
    requires TreeOk(a.page, a.where) && TreeOk(b.page, b.where) && SameLeaves(a, b)
    requires IsRoot(a.where, root) && IsRoot(b.where, root) && vpn < MAXVPN
    requires Leaf(a.page, a.where, root, vpn) == None && TableFor(b.page, b.where, root, vpn, 0) == Some(t)
    ensures t in b.page && t in b.where && !V(b.page[t][PX(0, vpn)])
  {}

  lemma LeafSetAfter(a: Mem, b: Mem, c: Mem, root: nat, vpn: nat, e: Option<Pte>)
    requires TreeOk(a.page, a.where) && TreeOk(b.page, b.where) && TreeOk(c.page, c.where)
    requires SameLeaves(a, b) && LeafSet(b, c, root, vpn, e)
    ensures LeafSet(a, c, root, vpn, e)
  {
    hide TreeOk;
    forall x, v | IsRoot(a.where, x) && 0 <= v < MAXVPN
      ensures Leaf(c.page, c.where, x, v) == if x == root && v == vpn then e else Leaf(a.page, a.where, x, v)
    {
      assert Leaf(b.page, b.where, x, v) == Leaf(a.page, a.where, x, v);
    }
  }

  lemma TableNotFree(m: Mem, r: Range, t: nat)
    requires MemOk(m, r) && t in m.where
    ensures t !in m.free && t in Pool(m)
  {}

  lemma EmptyOk(m: Mem, r: Range)
    requires 0 < r.lo && (forall p :: r.Contains(p) ==> p in m.page) && m.where == map[] && m.owned == map[]
    requires Distinct(m.free) && forall p :: p in m.free ==> r.Contains(p)
    ensures MemOk(m, r)
  {}

  lemma SameLeavesTrans(a: Mem, b: Mem, c: Mem)
    requires TreeOk(a.page, a.where) && TreeOk(b.page, b.where) && TreeOk(c.page, c.where)
    requires SameLeaves(a, b) && SameLeaves(b, c)
    ensures SameLeaves(a, c)
  {
    hide TreeOk;
    forall x, v | IsRoot(a.where, x) && 0 <= v < MAXVPN
      ensures Leaf(c.page, c.where, x, v) == Leaf(a.page, a.where, x, v)
    {
      assert Leaf(b.page, b.where, x, v) == Leaf(a.page, a.where, x, v);
    }
  }

  lemma GrownRefl(m: Mem, r: Range)
    requires MemOk(m, r)
    ensures Grown(m, m, r)
  {
    SameLeavesRefl(m);
  }

  lemma LinksSame(page: map<nat, Page>, page': map<nat, Page>, free: seq<nat>, freelist: nat)
    requires Links(page, free, freelist)
    requires forall p :: p in free && p in page ==> p in page' && page'[p] == page[p]
    ensures Links(page', free, freelist)
  {}

  /** kfree's linking: the freed page becomes the head of the list. */
  lemma LinksPush(page: map<nat, Page>, free: seq<nat>, freelist: nat, p: nat)
    requires Links(page, free, freelist) && p !in free
    ensures Links(page[p := Filled(FreedWord)[0 := AddrWord(freelist)]], [p] + free, p)
  {}

  lemma LinksEmpty(page: map<nat, Page>)
    ensures Links(page, [], 0) && Distinct([])
  {}

  lemma DistinctPush(s: seq<nat>, p: nat)
    requires Distinct(s) && p !in s
    ensures Distinct([p] + s)
  {}

  /** Taking the head of the free list. */
  lemma FreeListHead(m: Mem, r: Range, freelist: nat, c: Page)
    requires PagesOk(m, r) && FreeOk(m, r) && Links(m.page, m.free, freelist)
    ensures freelist == 0 <==> m.free == []
    ensures freelist != 0 ==>
      var rest := m.(free := m.free[1..]);
      && m.free == [freelist] + rest.free && r.Contains(freelist) && freelist in m.page
      && freelist !in rest.free && FreeOk(rest, r) && freelist !in Pool(rest) && Pool(m) == Pool(rest) + {freelist}
      && freelist !in m.where && freelist !in m.owned
      && Links(m.page[freelist := c], rest.free, PageOf(m.page[freelist][0]))
  {
    if m.free != [] {
      assert m.free == [freelist] + m.free[1..];
      assert m.free[0] in m.free;
      LinksPop(m.page, m.free, c);
    }
  }

  lemma LinksPop(page: map<nat, Page>, free: seq<nat>, c: Page)
    requires free != [] && Links(page, free, free[0]) && Distinct(free)
    ensures free[0] in page && Links(page[free[0] := c], free[1..], PageOf(page[free[0]][0]))
  {
    assert forall i :: 0 <= i < |free| - 1 ==> free[1..][i] == free[i + 1];
  }

  lemma PoolOfPage(m: Mem, page: map<nat, Page>)
    ensures Pool(m.(page := page)) == Pool(m)
  {}

  lemma SameLeavesRefl(m: Mem)
    requires TreeOk(m.page, m.where)
    ensures SameLeaves(m, m)
  {}
  /** Leaf entries for the pages `frames` with permissions `flags`. */
  ghost function EntriesFor(frames: seq<nat>, flags: seq<nat>): (es: seq<Option<Pte>>)
    requires |frames| <= |flags|
    ensures |es| == |frames|
  {
    seq(|frames|, i requires 0 <= i < |frames| => Some(Pte(frames[i], OrV(flags[i]))))
  }

  /** `frames` became user memory of consecutive virtual pages. */
  ghost function Adopted(owned: map<nat, Use>, root: nat, vpn: nat, frames: seq<nat>): (o: map<nat, Use>) {
    if frames == [] then owned
    else
      var k := |frames| - 1;
      Adopted(owned, root, vpn, frames[..k])[frames[k] := Use(root, vpn + k)]
  }

  lemma {:induction false} AdoptedFacts(owned: map<nat, Use>, root: nat, vpn: nat, frames: seq<nat>)
    requires Distinct(frames) && forall i :: 0 <= i < |frames| ==> frames[i] !in owned
    ensures
      var o := Adopted(owned, root, vpn, frames);
      && (forall p :: p in o <==> p in owned || p in frames)
      && (forall p :: p in owned ==> o[p] == owned[p])
      && (forall i :: 0 <= i < |frames| ==> frames[i] in o && o[frames[i]] == Use(root, vpn + i))
  {
    if frames != [] {
      var k := |frames| - 1;
      AdoptedFacts(owned, root, vpn, frames[..k]);
      assert frames == frames[..k] + [frames[k]];
    }
  }

  /** `b` is `a` with the virtual pages from `vpn` on mapped to new user pages. */
  ghost predicate Extended(a: Mem, b: Mem, r: Range, root: nat, vpn: nat, frames: seq<nat>, flags: seq<nat>) {
    && MemOk(a, r) && MemOk(b, r) && |frames| <= |flags|
    && LeavesAre(a, b, root, vpn, EntriesFor(frames, flags))
    && b.owned == Adopted(a.owned, root, vpn, frames)
    && Distinct(frames) && (forall i :: 0 <= i < |frames| ==> frames[i] !in a.owned)
    && Pool(b) == Pool(a) && SameUserData(a, b) && SameOutside(a, b)
  }

  lemma ExtendedNone(a: Mem, r: Range, root: nat, vpn: nat, flags: seq<nat>)
    requires MemOk(a, r)
    ensures Extended(a, a, r, root, vpn, [], flags)
  {
    hide MemOk;
    MemTrees(a, r);
    NothingYet(a, r, root, vpn);
  }

  lemma ExtendOne(a: Mem, b: Mem, c: Mem, r: Range, root: nat, vpn: nat, frames: seq<nat>, flags: seq<nat>, p: nat)
    requires Extended(a, b, r, root, vpn, frames, flags) && |frames| < |flags| && MemOk(c, r)
    requires LeafSet(b, c, root, vpn + |frames|, Some(Pte(p, OrV(flags[|frames|]))))
    requires p !in b.owned && c.owned == b.owned[p := Use(root, vpn + |frames|)]
    requires Pool(c) == Pool(b) && SameUserData(b, c) && SameOutside(b, c)
    ensures Extended(a, c, r, root, vpn, frames + [p], flags)
  {
    hide TreeOk, OwnedOk, FreeOk, PagesOk, LeavesAre, LeafSet, Pool;
    LeavesExtend(a, b, c, root, vpn, EntriesFor(frames, flags), Some(Pte(p, OrV(flags[|frames|]))));
    assert EntriesFor(frames + [p], flags) == EntriesFor(frames, flags) + [Some(Pte(p, OrV(flags[|frames|])))];
    AdoptedFacts(a.owned, root, vpn, frames);
    assert (frames + [p])[..|frames|] == frames;
    assert b.owned.Keys >= a.owned.Keys;
  }

  /** The new pages can be unmapped and freed again. */
  lemma RollbackReady(a: Mem, b: Mem, r: Range, root: nat, vpn: nat, frames: seq<nat>, flags: seq<nat>)
    requires Extended(a, b, r, root, vpn, frames, flags) && IsRoot(a.where, root) && vpn + |frames| <= MAXVPN
    requires forall i :: 0 <= i < |flags| ==> OrV(flags[i]) != PTE_V
    ensures IsRoot(b.where, root) && forall v :: vpn <= v < vpn + |frames| ==> Unmappable(b, root, v, true)
  {
    hide TreeOk, OwnedOk, FreeOk, PagesOk, Pool, Distinct;
    AdoptedFacts(a.owned, root, vpn, frames);
    forall v | vpn <= v < vpn + |frames|
      ensures Unmappable(b, root, v, true)
    {
      assert frames[v - vpn] in b.owned;
    }
  }

  /** Undoing an extension restores every translation and every owner. */
  lemma RolledBack(a: Mem, b: Mem, c: Mem, r: Range, root: nat, vpn: nat, frames: seq<nat>, flags: seq<nat>)
    requires Extended(a, b, r, root, vpn, frames, flags) && IsRoot(a.where, root) && vpn + |frames| <= MAXVPN
    requires MemOk(c, r)
    requires forall v :: vpn <= v < vpn + |frames| ==> Leaf(a.page, a.where, root, v) == None
    requires LeavesAre(b, c, root, vpn, NoEntries(|frames|)) && c.owned == Disowned(b.owned, root, vpn, |frames|)
    requires Pool(c) == Pool(b) && SameOutside(b, c) && SameUserData(b.(owned := c.owned), c)
    ensures SameLeaves(a, c) && c.owned == a.owned && Pool(c) == Pool(a) && SameUserData(a, c) && SameOutside(a, c)
  {
    hide TreeOk, FreeOk, PagesOk, Pool, LeavesAre, SameLeaves, OwnedOk;
    DisownAdopted(a, root, vpn, frames);
    RolledBackLeaves(a, b, c, root, vpn, EntriesFor(frames, flags));
  }

  lemma DisownAdopted(a: Mem, root: nat, vpn: nat, frames: seq<nat>)
    requires TreeOk(a.page, a.where) && OwnedOk(a) && IsRoot(a.where, root) && vpn + |frames| <= MAXVPN
    requires forall v :: vpn <= v < vpn + |frames| ==> Leaf(a.page, a.where, root, v) == None
    requires Distinct(frames) && forall i :: 0 <= i < |frames| ==> frames[i] !in a.owned
    ensures Disowned(Adopted(a.owned, root, vpn, frames), root, vpn, |frames|) == a.owned
  {
    hide TreeOk;
    AdoptedFacts(a.owned, root, vpn, frames);
    forall p | p in a.owned
      ensures !(a.owned[p].root == root && vpn <= a.owned[p].vpn < vpn + |frames|)
    {
      assert Mapped(a, p);
    }
  }

  lemma RolledBackLeaves(a: Mem, b: Mem, c: Mem, root: nat, vpn: nat, es: seq<Option<Pte>>)
    requires TreeOk(a.page, a.where) && TreeOk(b.page, b.where) && TreeOk(c.page, c.where)
    requires LeavesAre(a, b, root, vpn, es) && LeavesAre(b, c, root, vpn, NoEntries(|es|))
    requires IsRoot(a.where, root) && vpn + |es| <= MAXVPN
    requires forall v :: vpn <= v < vpn + |es| ==> Leaf(a.page, a.where, root, v) == None
    ensures SameLeaves(a, c)
  {
    hide TreeOk;
    forall x, v | IsRoot(a.where, x) && 0 <= v < MAXVPN
      ensures Leaf(c.page, c.where, x, v) == Leaf(a.page, a.where, x, v)
    {
      assert IsRoot(b.where, x);
      assert Leaf(b.page, b.where, x, v) ==
        if x == root && vpn <= v < vpn + |es| then es[v - vpn] else Leaf(a.page, a.where, x, v);
    }
  }

  // ----- User address spaces -----

  /** TRAPFRAME / PGSIZE: user memory lies below. */
  const TRAPFRAME := MAXVPN - 2

  /** User memory is exactly the first `n` pages of the table's address space. */
  ghost predicate Space(m: Mem, root: nat, n: nat)
    requires TreeOk(m.page, m.where)
  {
    && IsRoot(m.where, root) && n <= TRAPFRAME
    && (forall v :: 0 <= v < n ==> Unmappable(m, root, v, true))
    && (forall v :: n <= v < TRAPFRAME ==> Leaf(m.page, m.where, root, v) == None)
  }

  ghost function UsesBelow(owned: map<nat, Use>, root: nat, n: nat): (s: set<nat>) {
    set p | p in owned && owned[p].root == root && owned[p].vpn < n
  }

  lemma {:induction false} UsesCount(m: Mem, root: nat, n: nat)
    requires TreeOk(m.page, m.where) && IsRoot(m.where, root) && n <= MAXVPN
    requires forall v :: 0 <= v < n ==> Unmappable(m, root, v, true)
    ensures n <= |UsesBelow(m.owned, root, n)|
  {
    hide TreeOk;
    if n > 0 {
      UsesCount(m, root, n - 1);
      assert Unmappable(m, root, n - 1, true);
      var p := Leaf(m.page, m.where, root, n - 1).value.ppn;
      var rest := UsesBelow(m.owned, root, n - 1);
      assert p !in rest;
      CardSubset(rest + {p}, UsesBelow(m.owned, root, n));
    }
  }

  lemma CardSubset(a: set<nat>, b: set<nat>)
    requires a <= b
    ensures |a| <= |b|
  {
    assert b == a + (b - a);
  }

  lemma {:induction false} RangeCard(s: set<nat>, lo: nat, hi: nat)
    requires lo <= hi && forall p :: p in s ==> lo <= p < hi
    ensures |s| <= hi - lo
    decreases hi
  {
    if s != {} {
      RangeCard(s - {hi - 1}, lo, hi - 1);
    }
  }

  /** An address space is no larger than physical memory. */
  lemma SpaceFits(m: Mem, r: Range, root: nat, n: nat)
    requires MemOk(m, r) && Space(m, root, n) && r.lo <= r.hi
    ensures n <= r.hi - r.lo
  {
    hide TreeOk, OwnedOk, FreeOk;
    UsesCount(m, root, n);
    RangeCard(UsesBelow(m.owned, root, n), r.lo, r.hi);
  }

  /** Extending an address space at its end. */
  lemma ExtendedSpace(a: Mem, b: Mem, r: Range, root: nat, n: nat, frames: seq<nat>, flags: seq<nat>)
    requires Extended(a, b, r, root, n, frames, flags) && Space(a, root, n) && n + |frames| <= TRAPFRAME
    requires forall i :: 0 <= i < |flags| ==> OrV(flags[i]) != PTE_V
    ensures Space(b, root, n + |frames|)
  {
    hide TreeOk, OwnedOk, FreeOk, PagesOk, Pool, Distinct;
    RollbackReady(a, b, r, root, n, frames, flags);
    AdoptedFacts(a.owned, root, n, frames);
    forall v | 0 <= v < n
      ensures Unmappable(b, root, v, true)
    {
      assert Unmappable(a, root, v, true);
    }
    forall v | n + |frames| <= v < TRAPFRAME
      ensures Leaf(b.page, b.where, root, v) == None
    {
      assert Leaf(a.page, a.where, root, v) == None;
    }
  }

  /** Unmapping the end of an address space. */
  lemma ShrunkSpace(a: Mem, c: Mem, r: Range, root: nat, n: nat, k: nat)
    requires MemOk(a, r) && MemOk(c, r) && Space(a, root, n) && k <= n
    requires LeavesAre(a, c, root, k, NoEntries(n - k)) && c.owned == Disowned(a.owned, root, k, n - k)
    ensures Space(c, root, k)
  {
    hide TreeOk, OwnedOk, FreeOk, PagesOk;
    forall v | 0 <= v < k
      ensures Unmappable(c, root, v, true)
    {
      assert Unmappable(a, root, v, true);
    }
    forall v | k <= v < TRAPFRAME
      ensures Leaf(c.page, c.where, root, v) == None
    {
      assert v >= n ==> Leaf(a.page, a.where, root, v) == None;
    }
  }

  ghost function Repeat(flag: nat, n: nat): (s: seq<nat>)
    ensures |s| == n && forall i :: 0 <= i < n ==> s[i] == flag
  {
    seq(n, _ => flag)
  }

  ghost predicate AllPages(page: map<nat, Page>, frames: seq<nat>, contents: seq<Page>) {
    |frames| <= |contents| && forall i :: 0 <= i < |frames| ==> frames[i] in page && page[frames[i]] == contents[i]
  }

  /** The contents of earlier new pages survive the next one. */
  lemma AllPagesExtend(b: Mem, c: Mem, frames: seq<nat>, contents: seq<Page>, p: nat)
    requires AllPages(b.page, frames, contents) && |frames| < |contents|
    requires forall i :: 0 <= i < |frames| ==> frames[i] in b.owned
    requires SameUserData(b, c) && p in c.page && c.page[p] == contents[|frames|]
    ensures AllPages(c.page, frames + [p], contents)
  {}

  lemma ExtendedOwns(a: Mem, b: Mem, r: Range, root: nat, vpn: nat, frames: seq<nat>, flags: seq<nat>)
    requires Extended(a, b, r, root, vpn, frames, flags)
    ensures forall i :: 0 <= i < |frames| ==> frames[i] in b.owned
  {
    AdoptedFacts(a.owned, root, vpn, frames);
  }

  lemma ExtendedFacts(a: Mem, b: Mem, r: Range, root: nat, vpn: nat, frames: seq<nat>, flags: seq<nat>)
    requires Extended(a, b, r, root, vpn, frames, flags)
    ensures MemOk(a, r) && MemOk(b, r) && Pool(b) == Pool(a) && SameUserData(a, b) && SameOutside(a, b)
  {}

  lemma ExtendedLeaf(a: Mem, b: Mem, r: Range, root: nat, vpn: nat, frames: seq<nat>, flags: seq<nat>, i: nat)
    requires Extended(a, b, r, root, vpn, frames, flags) && i < |frames| && IsRoot(b.where, root) && vpn + i < MAXVPN
    ensures MemOk(b, r) && frames[i] > 0
    ensures Leaf(b.page, b.where, root, vpn + i) == Some(Pte(frames[i], OrV(flags[i])))
  {
    hide TreeOk, OwnedOk, FreeOk, SameUserData, SameOutside, Pool;
    AdoptedFacts(a.owned, root, vpn, frames);
    assert frames[i] in b.owned;
  }

  lemma ExtendedLeaves(a: Mem, b: Mem, r: Range, root: nat, vpn: nat, frames: seq<nat>, flags: seq<nat>)
    requires Extended(a, b, r, root, vpn, frames, flags) && IsRoot(b.where, root) && vpn + |frames| <= MAXVPN
    ensures MemOk(b, r) && |frames| <= |flags|
    ensures forall i :: 0 <= i < |frames| ==>
      Leaf(b.page, b.where, root, vpn + i) == Some(Pte(frames[i], OrV(flags[i])))
  {
    hide TreeOk, OwnedOk, FreeOk, PagesOk, LeavesAre, Adopted, Distinct, Pool, SameUserData, SameOutside;
    ExtendedFacts(a, b, r, root, vpn, frames, flags);
    MemTrees(b, r);
    forall i | 0 <= i < |frames|
      ensures Leaf(b.page, b.where, root, vpn + i) == Some(Pte(frames[i], OrV(flags[i])))
    {
      ExtendedLeaf(a, b, r, root, vpn, frames, flags, i);
    }
  }

  lemma FramesMapped(a: Mem, b: Mem, root: nat, vpn: nat, p: nat, perm: nat, k: nat)
    requires TreeOk(a.page, a.where) && TreeOk(b.page, b.where) && IsRoot(a.where, root) && vpn + k <= MAXVPN
    requires LeavesAre(a, b, root, vpn, FrameEntries(p, perm, k))
    ensures IsRoot(b.where, root)
    ensures forall v :: vpn <= v < vpn + k ==>
      Leaf(b.page, b.where, root, v) == Some(Pte(p + (v - vpn), if perm % 2 == 1 then perm else perm + 1))
  {
    hide TreeOk;
    var es := FrameEntries(p, perm, k);
    forall v | vpn <= v < vpn + k
      ensures Leaf(b.page, b.where, root, v) == Some(Pte(p + (v - vpn), if perm % 2 == 1 then perm else perm + 1))
    {
      var i := v - vpn;
      assert Leaf(b.page, b.where, root, v) == es[i] == Some(Pte(p + i, OrV(perm)));
    }
  }

  /** A failed attempt to add a page leaves an extension what it is. */
  lemma ExtendedGrown(a: Mem, b: Mem, c: Mem, r: Range, root: nat, vpn: nat, frames: seq<nat>, flags: seq<nat>)
    requires Extended(a, b, r, root, vpn, frames, flags) && MemOk(c, r)
    requires SameLeaves(b, c) && c.owned == b.owned && Pool(c) == Pool(b) && SameUserData(b, c) && SameOutside(b, c)
    ensures Extended(a, c, r, root, vpn, frames, flags)
  {
    hide TreeOk, OwnedOk, FreeOk, PagesOk, Pool, Distinct;
    AdoptedFacts(a.owned, root, vpn, frames);
    var es := EntriesFor(frames, flags);
    forall x, v | IsRoot(a.where, x) && 0 <= v < MAXVPN
      ensures Leaf(c.page, c.where, x, v) ==
        if x == root && vpn <= v < vpn + |es| then es[v - vpn] else Leaf(a.page, a.where, x, v)
    {
      assert IsRoot(b.where, x);
      assert Leaf(c.page, c.where, x, v) == Leaf(b.page, b.where, x, v);
    }
  }

  lemma SameSpace(a: Mem, c: Mem, root: nat, n: nat)
    requires TreeOk(a.page, a.where) && TreeOk(c.page, c.where) && Space(a, root, n)
    requires SameLeaves(a, c) && c.owned == a.owned
    ensures Space(c, root, n)
  {
    hide TreeOk;
    forall v | 0 <= v < TRAPFRAME
      ensures Leaf(c.page, c.where, root, v) == Leaf(a.page, a.where, root, v)
    {}
    forall v | 0 <= v < n
      ensures Unmappable(c, root, v, true)
    {
      assert Unmappable(a, root, v, true);
    }
  }

  // ----- Freeing a page table -----

  /** The subtree of `t` is as it was in `page0`, has no leaf, and is not free yet. */
  ghost predicate Freeable(page: map<nat, Page>, free: seq<nat>, page0: map<nat, Page>, where0: map<nat, Node>, t: nat)
    requires TreeOk(page0, where0) && t in where0
  {
    && (forall d :: d in Sub(where0, t) ==> d in page && page[d] == page0[d] && d !in free)
    && (forall d, i :: d in Sub(where0, t) && where0[d].level == 0 && 0 <= i < ENTRIES ==> !V(page0[d][i]))
  }

  /** From `pages` and `frees`, the tables below the first `i` entries of `t` went to the free list. */
  ghost predicate Freeing(page: map<nat, Page>, free: seq<nat>, pages: map<nat, Page>, frees: seq<nat>,
      page0: map<nat, Page>, where0: map<nat, Node>, t: nat, i: nat)
    requires TreeOk(page0, where0) && t in where0
  {
    && page.Keys >= pages.Keys && t in page
    && (forall p :: p in free <==> p in frees || p in Below(where0, t, i))
    && (forall j :: i <= j < ENTRIES ==> page[t][j] == page0[t][j])
    && (forall p :: p in pages && p != t && p !in Below(where0, t, i) ==> page[p] == pages[p])
  }

  /** `b` is `a` with one more page table, which maps nothing. */
  ghost predicate NewTree(a: Mem, b: Mem, root: nat)
    requires TreeOk(a.page, a.where) && TreeOk(b.page, b.where)
  {
    && b.owned == a.owned && IsRoot(b.where, root)
    && (forall x :: IsRoot(b.where, x) <==> x == root || IsRoot(a.where, x))
    && (forall v :: 0 <= v < MAXVPN ==> Leaf(b.page, b.where, root, v) == None)
    && (forall x, v :: IsRoot(a.where, x) && 0 <= v < MAXVPN ==>
          Leaf(b.page, b.where, x, v) == Leaf(a.page, a.where, x, v))
  }

  /** `b` has all the page tables of `a` but one, and they translate alike. */
  ghost predicate OtherTrees(a: Mem, b: Mem, root: nat)
    requires TreeOk(a.page, a.where) && TreeOk(b.page, b.where)
  {
    && (forall x :: IsRoot(b.where, x) <==> x != root && IsRoot(a.where, x))
    && (forall x, v :: IsRoot(a.where, x) && x != root && 0 <= v < MAXVPN ==>
          Leaf(b.page, b.where, x, v) == Leaf(a.page, a.where, x, v))
  }

  /** Flags and contents of the first `n` pages of an address space. */
  ghost function SpaceFlags(m: Mem, root: nat, n: nat): (s: seq<nat>)
    requires TreeOk(m.page, m.where) && Space(m, root, n)
    ensures |s| == n
  {
    seq(n, v requires 0 <= v < n => FlagsAt(m, root, v))
  }

  ghost function FlagsAt(m: Mem, root: nat, v: nat): (f: nat)
    requires TreeOk(m.page, m.where) && IsRoot(m.where, root) && v < MAXVPN && Unmappable(m, root, v, true)
  {
    Leaf(m.page, m.where, root, v).value.flags
  }

  ghost function SpacePages(m: Mem, r: Range, root: nat, n: nat): (s: seq<Page>)
    requires MemOk(m, r) && Space(m, root, n)
    ensures |s| == n
  {
    seq(n, v requires 0 <= v < n => PageAt(m, r, root, v))
  }

  ghost function PageAt(m: Mem, r: Range, root: nat, v: nat): (p: Page)
    requires MemOk(m, r) && IsRoot(m.where, root) && v < MAXVPN && Unmappable(m, root, v, true)
  {
    m.page[Leaf(m.page, m.where, root, v).value.ppn]
  }

  lemma NewTreeOk(a: Mem, b: Mem, r: Range, root: nat)
    requires MemOk(a, r) && MemOk(b, r) && Taken(a, b, root) && r.Contains(root)
    requires root !in b.where && b.page[root] == ZeroPage() && b.where == a.where
    ensures
      var c := b.(where := b.where[root := Node(root, 2, 0, root)]);
      && MemOk(c, r) && NewTree(a, c, root) && Pool(c) == Pool(a) && SameUserData(a, c) && SameOutside(a, c)
  {
    hide TreeOk, OwnedOk, Distinct, NewTree, SameLeaves;
    var c := b.(where := b.where[root := Node(root, 2, 0, root)]);
    AddRootOk(b.page, b.where, root);
    NewTreeLeaves(a, b, root);
    NewTreeOwned(a, c, root);
  }

  lemma NewTreeOwned(a: Mem, c: Mem, root: nat)
    requires TreeOk(a.page, a.where) && TreeOk(c.page, c.where) && OwnedOk(a) && NewTree(a, c, root)
    ensures OwnedOk(c)
  {
    hide TreeOk;
    forall p | p in c.owned
      ensures Mapped(c, p)
    {
      assert Mapped(a, p);
    }
  }

  lemma NewTreeLeaves(a: Mem, b: Mem, root: nat)
    requires TreeOk(a.page, a.where) && TreeOk(b.page, b.where) && Taken(a, b, root)
    requires root !in b.where && b.page[root] == ZeroPage() && b.where == a.where
    requires TreeOk(b.page, b.where[root := Node(root, 2, 0, root)])
    ensures NewTree(a, b.(where := b.where[root := Node(root, 2, 0, root)]), root)
  {
    hide DownOk, UpOk;
    var c := b.(where := b.where[root := Node(root, 2, 0, root)]);
    forall v | 0 <= v < MAXVPN
      ensures Leaf(c.page, c.where, root, v) == None
    {
      AddRootTableFor(b.page, b.where, root, root, v, 0);
    }
    forall x, v | IsRoot(a.where, x) && 0 <= v < MAXVPN
      ensures Leaf(c.page, c.where, x, v) == Leaf(a.page, a.where, x, v)
    {
      assert Leaf(b.page, b.where, x, v) == Leaf(a.page, a.where, x, v);
      AddRootTableFor(b.page, b.where, root, x, v, 0);
    }
  }

  /** While the child's space grows, the parent's stays what it was. */
  lemma ParentUnchanged(a: Mem, b: Mem, r: Range, parent: nat, child: nat, n: nat, i: nat, frames: seq<nat>)
    requires MemOk(a, r) && Space(a, parent, n) && parent != child && i < n
    requires Extended(a, b, r, child, 0, frames, SpaceFlags(a, parent, n))
    ensures IsRoot(b.where, parent) && Leaf(b.page, b.where, parent, i).Some?
    ensures
      var e := Leaf(b.page, b.where, parent, i).value;
      && e.flags == SpaceFlags(a, parent, n)[i] == OrV(e.flags)
      && e.ppn in b.page && b.page[e.ppn] == SpacePages(a, r, parent, n)[i]
  {
    hide TreeOk, OwnedOk, FreeOk, Pool, Distinct;
    assert Unmappable(a, parent, i, true);
    assert Leaf(b.page, b.where, parent, i) == Leaf(a.page, a.where, parent, i);
  }

  lemma CopiedSpace(a: Mem, r: Range, root: nat, n: nat)
    requires MemOk(a, r) && Space(a, root, n)
    ensures forall v :: 0 <= v < n ==>
      var e := Leaf(a.page, a.where, root, v);
      && e.Some? && e.value.ppn in a.page && OrV(SpaceFlags(a, root, n)[v]) == e.value.flags
      && SpacePages(a, r, root, n)[v] == a.page[e.value.ppn]
  {
    hide TreeOk, FreeOk, OwnedOk;
    forall v | 0 <= v < n
      ensures
        var e := Leaf(a.page, a.where, root, v);
        && e.Some? && e.value.ppn in a.page && OrV(SpaceFlags(a, root, n)[v]) == e.value.flags
        && SpacePages(a, r, root, n)[v] == a.page[e.value.ppn]
    {
      assert Unmappable(a, root, v, true);
    }
  }

  lemma SpaceFlagsAreLeaves(a: Mem, root: nat, n: nat)
    requires TreeOk(a.page, a.where) && Space(a, root, n)
    ensures forall i :: 0 <= i < n ==> OrV(SpaceFlags(a, root, n)[i]) != PTE_V
  {
    hide TreeOk;
    forall i | 0 <= i < n
      ensures OrV(SpaceFlags(a, root, n)[i]) != PTE_V
    {
      assert Unmappable(a, root, i, true);
    }
  }

  /** The user memory of all trees but one. */
  ghost function OwnedElsewhere(owned: map<nat, Use>, root: nat): (o: map<nat, Use>) {
    map p | p in owned && owned[p].root != root :: owned[p]
  }

  /** Unmapping a whole address space: the table is bare and ready for freewalk,
      and its user pages are on the free list. */
  lemma BareTable(a: Mem, b: Mem, r: Range, root: nat, n: nat)
    requires MemOk(a, r) && MemOk(b, r) && Space(a, root, n) && b.where == a.where && Pool(b) == Pool(a)
    requires forall v :: TRAPFRAME <= v < MAXVPN ==> Leaf(a.page, a.where, root, v) == None
    requires LeavesAre(a, b, root, 0, NoEntries(n)) && b.owned == Disowned(a.owned, root, 0, n)
    ensures forall v :: 0 <= v < MAXVPN ==> Leaf(b.page, b.where, root, v) == None
    ensures b.owned == OwnedElsewhere(a.owned, root)
    ensures forall p :: p in b.free <==> p in a.free || (p in a.owned && a.owned[p].root == root)
  {
    hide TreeOk, Distinct;
    forall p | p in a.owned && a.owned[p].root == root
      ensures a.owned[p].vpn < n
    {
      assert Mapped(a, p);
    }
    forall p
      ensures p in b.free <==> p in Pool(a) && p !in a.where && p !in b.owned
      ensures p in a.free <==> p in Pool(a) && p !in a.where && p !in a.owned
    {
      assert p in Pool(b) <==> p in Pool(a);
    }
  }

  lemma BareIsFreeable(b: Mem, r: Range, root: nat)
    requires MemOk(b, r) && IsRoot(b.where, root)
    requires forall v :: 0 <= v < MAXVPN ==> Leaf(b.page, b.where, root, v) == None
    ensures Freeable(b.page, b.free, b.page, b.where, root)
  {
    hide DownOk, UpOk, OwnedOk, Distinct, Sub;
    SubOfRoot(b.page, b.where, root);
    forall d, i | d in Sub(b.where, root) && b.where[d].level == 0 && 0 <= i < ENTRIES
      ensures !V(b.page[d][i])
    {
      EmptyTables(b.page, b.where, root, d, i);
    }
  }

  /** Freeing a bare page table. */
  lemma FreedTree(b: Mem, page: map<nat, Page>, free: seq<nat>, r: Range, root: nat)
    requires MemOk(b, r) && IsRoot(b.where, root) && Distinct(free)
    requires forall p :: p in b.owned ==> b.owned[p].root != root
    requires forall p :: p in free <==> p in b.free || p in Sub(b.where, root)
    requires page.Keys >= b.page.Keys && forall p :: p in b.page && p !in Sub(b.where, root) ==> page[p] == b.page[p]
    ensures
      var c := Mem(page, free, WithoutTree(b.where, root), b.owned);
      MemOk(c, r) && OtherTrees(b, c, root) && Pool(c) == Pool(b) && SameUserData(b, c) && SameOutside(b, c)
  {
    hide DownOk, UpOk, Distinct, Sub, OtherTrees, OwnedOk;
    var c := Mem(page, free, WithoutTree(b.where, root), b.owned);
    SubOfRoot(b.page, b.where, root);
    WithoutTreeOk(b.page, b.where, root);
    SameTablesTree(b.page, page, c.where);
    FreedTreeLeaves(b, c, root);
    OtherTreesOwned(b, c, root);
  }

  lemma FreedTreeLeaves(b: Mem, c: Mem, root: nat)
    requires TreeOk(b.page, b.where) && c.where == WithoutTree(b.where, root)
    requires TreeOk(b.page, c.where) && TreeOk(c.page, c.where) && SameTables(b.page, c.page, c.where)
    ensures OtherTrees(b, c, root)
  {
    hide DownOk, UpOk;
    forall x, v | IsRoot(b.where, x) && x != root && 0 <= v < MAXVPN
      ensures Leaf(c.page, c.where, x, v) == Leaf(b.page, b.where, x, v)
    {
      WithoutTreeTableFor(b.page, b.where, root, x, v, 0);
      SameTablesLeaf(b.page, c.page, c.where, x, v);
    }
  }

  lemma OtherTreesOwned(b: Mem, c: Mem, root: nat)
    requires TreeOk(b.page, b.where) && TreeOk(c.page, c.where) && OwnedOk(b) && OtherTrees(b, c, root)
    requires c.owned == b.owned && forall p :: p in b.owned ==> b.owned[p].root != root
    ensures OwnedOk(c)
  {
    hide TreeOk;
    forall p | p in c.owned
      ensures Mapped(c, p)
    {
      assert Mapped(b, p);
    }
  }

  lemma OtherTreesAfter(a: Mem, b: Mem, c: Mem, root: nat, n: nat)
    requires TreeOk(a.page, a.where) && TreeOk(b.page, b.where) && TreeOk(c.page, c.where)
    requires LeavesAre(a, b, root, 0, NoEntries(n)) && OtherTrees(b, c, root)
    ensures OtherTrees(a, c, root)
  {
    hide TreeOk;
    forall x, v | IsRoot(a.where, x) && x != root && 0 <= v < MAXVPN
      ensures Leaf(c.page, c.where, x, v) == Leaf(a.page, a.where, x, v)
    {
      assert Leaf(b.page, b.where, x, v) == Leaf(a.page, a.where, x, v);
    }
  }

  lemma FreeIsDistinct(m: Mem, r: Range)
    requires MemOk(m, r)
    ensures Distinct(m.free)
  {}

  lemma SameOutsideTrans(a: Mem, b: Mem, c: Mem)
    requires SameOutside(a, b) && SameOutside(b, c) && Pool(b) == Pool(a)
    ensures SameOutside(a, c)
  {}
}
