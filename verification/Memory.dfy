/** Who owns each physical page: the allocator's free list, a page table, or a
    user mapping (kernel/kalloc.c, kernel/vm.c). */
module Memory {
  import opened PageTables

  /** The one user mapping of a page. */
  datatype Use = Use(root: nat, vpn: nat)

  /** Physical memory with the owner of every page that is free, holds a page
      table, or holds user memory. */
  datatype Mem = Mem(page: map<nat, Page>, free: seq<nat>, where: map<nat, Node>, owned: map<nat, Use>)

  /** The allocatable pages: from the end of the kernel to PHYSTOP. */
  datatype Range = Range(lo: nat, hi: nat) {
    predicate Contains(p: nat) {
      lo <= p < hi
    }
  }

  ghost predicate Distinct(s: seq<nat>) {
    forall i, j :: 0 <= i < j < |s| ==> s[i] != s[j]
  }

  ghost predicate FreeOk(m: Mem, r: Range) {
    && Distinct(m.free)
    && forall p :: p in m.free ==> r.Contains(p) && p !in m.where && p !in m.owned
  }

  ghost predicate PagesOk(m: Mem, r: Range) {
    && 0 < r.lo && (forall p :: r.Contains(p) ==> p in m.page)
    && (forall t :: t in m.where ==> r.Contains(t))
    && (forall p :: p in m.owned ==> r.Contains(p) && p !in m.where)
  }

  /** Every user page is mapped where its use says. */
  ghost predicate OwnedOk(m: Mem)
    requires TreeOk(m.page, m.where)
  {
    forall p :: p in m.owned ==> Mapped(m, p)
  }

  ghost predicate Mapped(m: Mem, p: nat)
    requires TreeOk(m.page, m.where) && p in m.owned
  {
    var u := m.owned[p];
    && IsRoot(m.where, u.root) && u.vpn < MAXVPN
    && var e := Leaf(m.page, m.where, u.root, u.vpn); e.Some? && e.value.ppn == p
  }

  ghost predicate MemOk(m: Mem, r: Range) {
    PagesOk(m, r) && FreeOk(m, r) && TreeOk(m.page, m.where) && OwnedOk(m)
  }

  /** All the pages with one of the three kinds of owners. */
  ghost function Pool(m: Mem): (s: set<nat>) {
    (set p | p in m.free) + m.where.Keys + m.owned.Keys
  }

  /** `b` translates every address of every page table of `a` as `a` does. */
  ghost predicate SameLeaves(a: Mem, b: Mem)
    requires TreeOk(a.page, a.where) && TreeOk(b.page, b.where)
  {
    && (forall r :: IsRoot(a.where, r) <==> IsRoot(b.where, r))
    && forall r, v :: IsRoot(a.where, r) && 0 <= v < MAXVPN ==>
         Leaf(b.page, b.where, r, v) == Leaf(a.page, a.where, r, v)
  }

  ghost predicate SameUserData(a: Mem, b: Mem) {
    forall p :: p in a.owned && p in a.page ==> p in b.page && b.page[p] == a.page[p]
  }

  /** Pages with other owners (kernel stacks, pipes, ...) are untouched. */
  ghost predicate SameOutside(a: Mem, b: Mem) {
    forall p :: p in a.page && p !in Pool(a) ==> p in b.page && b.page[p] == a.page[p]
  }

  /** Only page-table pages were added, taken from the free list. */
  ghost predicate Grown(a: Mem, b: Mem, r: Range) {
    && MemOk(a, r) && MemOk(b, r)
    && SameLeaves(a, b) && b.owned == a.owned && SameUserData(a, b) && SameOutside(a, b) && Pool(b) == Pool(a)
  }

  lemma GrownTrans(a: Mem, b: Mem, c: Mem, r: Range)
    requires Grown(a, b, r) && Grown(b, c, r)
    ensures Grown(a, c, r)
  {
    hide TreeOk, OwnedOk, FreeOk, Pool;
    forall x, v | IsRoot(a.where, x) && 0 <= v < MAXVPN
      ensures Leaf(c.page, c.where, x, v) == Leaf(a.page, a.where, x, v)
    {
      assert Leaf(b.page, b.where, x, v) == Leaf(a.page, a.where, x, v);
    }
  }

  // ----- Changing a page that no table and no mapping uses -----

  /** kalloc and kfree, and filling a page in between, leave all translations alone. */
  lemma OutsidePage(m: Mem, r: Range, p: nat, c: Page, free: seq<nat>)
    requires MemOk(m, r) && r.Contains(p) && p !in m.where
    requires FreeOk(m.(free := free), r)
    ensures
      var m' := Mem(m.page[p := c], free, m.where, m.owned);
      MemOk(m', r) && SameLeaves(m, m') && (p !in m.owned ==> SameUserData(m, m'))
  {
    hide DownOk, UpOk;
    var m' := Mem(m.page[p := c], free, m.where, m.owned);
    SameTablesTree(m.page, m'.page, m.where);
    forall x, v | IsRoot(m.where, x) && 0 <= v < MAXVPN
      ensures Leaf(m'.page, m'.where, x, v) == Leaf(m.page, m.where, x, v)
    {
      SameTablesLeaf(m.page, m'.page, m.where, x, v);
    }
    SameLeavesOwned(m, m');
  }

  /** Mappings survive what keeps the translations. */
  lemma SameLeavesOwned(m: Mem, m': Mem)
    requires TreeOk(m.page, m.where) && TreeOk(m'.page, m'.where) && OwnedOk(m)
    requires SameLeaves(m, m') && m'.owned == m.owned
    ensures OwnedOk(m')
  {
    hide DownOk, UpOk;
    forall p | p in m'.owned
      ensures Mapped(m', p)
    {
      assert Mapped(m, p);
    }
  }

  lemma HangLeaves(m: Mem, t: nat, i: nat, c: nat)
    requires TreeOk(m.page, m.where) && t in m.where && m.where[t].level > 0 && i < ENTRIES && !V(m.page[t][i])
    requires c !in m.where && InBounds(HungWhere(m.where, t, i, c)[c])
    ensures
      var m' := Mem(Hung(m.page, t, i, c), m.free, HungWhere(m.where, t, i, c), m.owned);
      TreeOk(m'.page, m'.where) && SameLeaves(m, m')
  {
    hide DownOk, UpOk;
    var m' := Mem(Hung(m.page, t, i, c), m.free, HungWhere(m.where, t, i, c), m.owned);
    HangTree(m.page, m.where, t, i, c);
    forall x, v | IsRoot(m.where, x) && 0 <= v < MAXVPN
      ensures Leaf(m'.page, m'.where, x, v) == Leaf(m.page, m.where, x, v)
    {
      HangLeaf(m.page, m.where, t, i, c, x, v);
    }
  }

  /** Hanging an unowned page into a page table. */
  lemma HangMem(m: Mem, r: Range, t: nat, i: nat, c: nat)
    requires MemOk(m, r) && t in m.where && m.where[t].level > 0 && t in m.page && i < ENTRIES && !V(m.page[t][i])
    requires r.Contains(c) && c !in Pool(m) && InBounds(HungWhere(m.where, t, i, c)[c])
    ensures
      var m' := Mem(Hung(m.page, t, i, c), m.free, HungWhere(m.where, t, i, c), m.owned);
      MemOk(m', r) && SameLeaves(m, m') && SameUserData(m, m') && Pool(m') == Pool(m) + {c}
  {
    hide TreeOk, SameLeaves, OwnedOk;
    var m' := Mem(Hung(m.page, t, i, c), m.free, HungWhere(m.where, t, i, c), m.owned);
    HangLeaves(m, t, i, c);
    SameLeavesOwned(m, m');
  }

  /** `b` differs from `a` in the translation of one virtual page. */
  ghost predicate LeafSet(a: Mem, b: Mem, root: nat, vpn: nat, e: Option<Pte>)
    requires TreeOk(a.page, a.where) && TreeOk(b.page, b.where)
  {
    && (forall r :: IsRoot(a.where, r) <==> IsRoot(b.where, r))
    && forall r, v :: IsRoot(a.where, r) && 0 <= v < MAXVPN ==>
         Leaf(b.page, b.where, r, v) == if r == root && v == vpn then e else Leaf(a.page, a.where, r, v)
  }

  /** Memory with the bottom-level entry for `vpn`, in table `t`, overwritten. */
  ghost function WithEntry(m: Mem, t: nat, vpn: nat, e: Pte, owned: map<nat, Use>): (m': Mem)
    requires t in m.page && vpn < MAXVPN
  {
    Mem(m.page[t := m.page[t][PX(0, vpn) := e]], m.free, m.where, owned)
  }

  lemma SetEntryLeaves(m: Mem, t: nat, vpn: nat, e: Pte, owned: map<nat, Use>)
    requires TreeOk(m.page, m.where) && t in m.where && m.where[t].level == 0
    requires vpn < MAXVPN && m.where[t].prefix == Prefix(0, vpn)
    ensures
      var m' := WithEntry(m, t, vpn, e, owned);
      TreeOk(m'.page, m'.where) && LeafSet(m, m', m.where[t].root, vpn, if V(e) then Some(e) else None)
  {
    hide DownOk, UpOk;
    var m' := WithEntry(m, t, vpn, e, owned);
    SetLeafTree(m.page, m.where, t, PX(0, vpn), e);
    forall x, v | IsRoot(m.where, x) && 0 <= v < MAXVPN
      ensures Leaf(m'.page, m'.where, x, v) ==
        if x == m.where[t].root && v == vpn then (if V(e) then Some(e) else None) else Leaf(m.page, m.where, x, v)
    {
      SetLeafLeaf(m.page, m.where, vpn, t, e, x, v);
    }
  }

  /** Installing a leaf for an unmapped virtual page. The page becomes user
      memory if `own` is set and is merely referred to otherwise. */
  lemma MapMem(m: Mem, r: Range, t: nat, vpn: nat, e: Pte, own: bool)
    requires MemOk(m, r) && t in m.where && m.where[t].level == 0 && V(e)
    requires vpn < MAXVPN && m.where[t].prefix == Prefix(0, vpn) && !V(m.page[t][PX(0, vpn)])
    requires own ==> r.Contains(e.ppn) && e.ppn !in Pool(m)
    ensures IsRoot(m.where, m.where[t].root)
    ensures
      var owned := if own then m.owned[e.ppn := Use(m.where[t].root, vpn)] else m.owned;
      var m' := WithEntry(m, t, vpn, e, owned);
      MemOk(m', r) && LeafSet(m, m', m.where[t].root, vpn, Some(e)) && SameUserData(m, m')
  {
    hide TreeOk, LeafSet, OwnedOk;
    var owned := if own then m.owned[e.ppn := Use(m.where[t].root, vpn)] else m.owned;
    SetEntryLeaves(m, t, vpn, e, owned);
    TableIsUnique(m.page, m.where, t, vpn);
    MapOwned(m, WithEntry(m, t, vpn, e, owned), m.where[t].root, vpn, e, own);
  }

  lemma MapOwned(m: Mem, m': Mem, root: nat, vpn: nat, e: Pte, own: bool)
    requires TreeOk(m.page, m.where) && OwnedOk(m) && TreeOk(m'.page, m'.where) && IsRoot(m.where, root) && vpn < MAXVPN
    requires LeafSet(m, m', root, vpn, Some(e)) && Leaf(m.page, m.where, root, vpn) == None
    requires m'.owned == if own then m.owned[e.ppn := Use(root, vpn)] else m.owned
    ensures OwnedOk(m')
  {
    hide TreeOk;
    forall p | p in m'.owned
      ensures Mapped(m', p)
    {
      if !(own && p == e.ppn) {
        assert Mapped(m, p);
      }
    }
  }

  /** Clearing a leaf whose page is no longer user memory. */
  lemma UnmapMem(m: Mem, r: Range, t: nat, vpn: nat)
    requires MemOk(m, r) && t in m.where && m.where[t].level == 0
    requires vpn < MAXVPN && m.where[t].prefix == Prefix(0, vpn)
    requires forall p :: p in m.owned ==> m.owned[p] != Use(m.where[t].root, vpn)
    ensures
      var m' := WithEntry(m, t, vpn, ZeroPte, m.owned);
      MemOk(m', r) && LeafSet(m, m', m.where[t].root, vpn, None) && SameUserData(m, m')
  {
    hide DownOk, UpOk;
    var m' := WithEntry(m, t, vpn, ZeroPte, m.owned);
    SetEntryLeaves(m, t, vpn, ZeroPte, m.owned);
    forall p | p in m.owned
      ensures Mapped(m', p)
    {
      assert Mapped(m, p);
    }
  }

  /** Giving up user pages without unmapping them yet. */
  lemma DisownMem(m: Mem, r: Range, p: nat)
    requires MemOk(m, r)
    ensures MemOk(m.(owned := m.owned - {p}), r)
  {
    hide DownOk, UpOk;
    var m' := m.(owned := m.owned - {p});
    forall q | q in m'.owned
      ensures Mapped(m', q)
    {
      assert Mapped(m, q);
    }
  }
}
