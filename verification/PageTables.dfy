/** Sv39 page tables (kernel/vm.c, kernel/riscv.h) in physical memory: three
    levels of 512-entry tables that together act as one flat map from virtual
    page numbers to leaf entries. */
module PageTables {

  datatype Option<T> = None | Some(value: T)

  /** A 64-bit word seen as a page-table entry: bits 10 and up (for an entry,
      the physical page number) and the ten flag bits below them. */
  datatype Pte = Pte(ppn: nat, flags: nat)

  const PTE_V := 1
  const PTE_R := 2
  const PTE_W := 4
  const PTE_X := 8
  const PTE_U := 16

  const ENTRIES := 512

  /** One beyond the largest virtual page number: MAXVA / PGSIZE. */
  const MAXVPN := 0x400_0000

  const ZeroPte := Pte(0, 0)

  predicate V(e: Pte) {
    e.flags % 2 == 1
  }

  /** Any of PTE_R, PTE_W, PTE_X. */
  predicate HasRWX(e: Pte) {
    e.flags / 2 % 8 != 0
  }

  /** `flags | PTE_V` */
  function OrV(flags: nat): (r: nat) {
    if flags % 2 == 1 then flags else flags + 1
  }

  type Page = p: seq<Pte> | |p| == ENTRIES witness seq(ENTRIES, _ => Pte(0, 0))

  /** A page after memset(..., 0, PGSIZE). */
  function ZeroPage(): (p: Page)
    ensures forall i :: 0 <= i < ENTRIES ==> p[i] == ZeroPte
  {
    seq(ENTRIES, _ => ZeroPte)
  }

  /** PX(level, va) for virtual page number `vpn`. */
  function PX(level: nat, vpn: nat): (i: nat)
    requires level <= 2 && vpn < MAXVPN
    ensures i < ENTRIES
  {
    if level == 0 then vpn % 512 else if level == 1 then vpn / 512 % 512 else vpn / 0x4_0000
  }

  /** The part of `vpn` above the index for `level`. */
  function Prefix(level: nat, vpn: nat): (x: nat)
    requires level <= 2 && vpn < MAXVPN
  {
    if level == 0 then vpn / 512 else if level == 1 then vpn / 0x4_0000 else 0
  }

  lemma PrefixStep(level: nat, vpn: nat)
    requires 0 < level <= 2 && vpn < MAXVPN
    ensures Prefix(level - 1, vpn) == Prefix(level, vpn) * 512 + PX(level, vpn)
  {}

  /** What a page-table page is for: in whose tree, at which level, for which
      addresses, and which page points to it. */
  datatype Node = Node(root: nat, level: nat, prefix: nat, parent: nat)

  /** The table pages form trees without sharing: a valid entry of an inner
      table is a bare pointer to the table for its addresses, and every table
      but a root hangs where it belongs. */
  ghost predicate TreeOk(page: map<nat, Page>, where: map<nat, Node>) {
    Present(page, where) && DownOk(page, where) && UpOk(page, where)
  }

  ghost predicate Present(page: map<nat, Page>, where: map<nat, Node>) {
    && (forall t :: t in where ==> t in page && InBounds(where[t]))
    && (forall t :: t in where && where[t].level == 2 ==> where[t] == Node(t, 2, 0, t))
  }

  /** The table serves addresses below MAXVA. */
  ghost predicate InBounds(n: Node) {
    n.level == 2 || (n.level == 1 && n.prefix < MAXVPN / 0x4_0000) || (n.level == 0 && n.prefix < MAXVPN / 512)
  }

  ghost predicate DownOk(page: map<nat, Page>, where: map<nat, Node>)
    requires Present(page, where)
  {
    forall t, i :: t in where && where[t].level > 0 && 0 <= i < ENTRIES && V(page[t][i]) ==>
      PointsDown(page, where, t, i)
  }

  ghost predicate UpOk(page: map<nat, Page>, where: map<nat, Node>)
    requires Present(page, where)
  {
    forall t :: t in where && where[t].level < 2 ==> PointedTo(page, where, t)
  }

  ghost predicate PointsDown(page: map<nat, Page>, where: map<nat, Node>, t: nat, i: nat)
    requires t in where && t in page && i < ENTRIES && where[t].level > 0
  {
    var e, n := page[t][i], where[t];
    e.flags == PTE_V && e.ppn in where && where[e.ppn] == Node(n.root, n.level - 1, n.prefix * 512 + i, t)
  }

  ghost predicate PointedTo(page: map<nat, Page>, where: map<nat, Node>, t: nat)
    requires t in where
  {
    var n := where[t];
    && n.parent in where && n.parent in page
    && where[n.parent].root == n.root && where[n.parent].level == n.level + 1
    && where[n.parent].prefix == n.prefix / 512
    && page[n.parent][n.prefix % 512] == Pte(t, PTE_V)
  }

  ghost predicate IsRoot(where: map<nat, Node>, root: nat) {
    root in where && where[root].level == 2
  }

  /** The table for `level` on the path to `vpn`, if it exists. */
  ghost function TableFor(page: map<nat, Page>, where: map<nat, Node>, root: nat, vpn: nat,
      level: nat): (r: Option<nat>)
    requires TreeOk(page, where) && IsRoot(where, root) && vpn < MAXVPN && level <= 2
    ensures r.Some? ==>
      && r.value in where && where[r.value].root == root
      && where[r.value].level == level && where[r.value].prefix == Prefix(level, vpn)
    decreases 2 - level
  {
    if level == 2 then Some(root)
    else
      var up := TableFor(page, where, root, vpn, level + 1);
      if up.None? then None
      else
        var e := page[up.value][PX(level + 1, vpn)];
        if !V(e) then None
        else
          PrefixStep(level + 1, vpn);
          assert PointsDown(page, where, up.value, PX(level + 1, vpn));
          Some(e.ppn)
  }

  /** The flat map: the valid leaf entry for a virtual page, if any. */
  ghost function Leaf(page: map<nat, Page>, where: map<nat, Node>, root: nat, vpn: nat): (r: Option<Pte>)
    requires TreeOk(page, where) && IsRoot(where, root) && vpn < MAXVPN
    ensures r.Some? ==> V(r.value)
  {
    var t := TableFor(page, where, root, vpn, 0);
    if t.None? then None
    else
      var e := page[t.value][PX(0, vpn)];
      if V(e) then Some(e) else None
  }

  // ----- What the hardware finds -----

  /** Where a valid entry of the page at `t` points. */
  function Down(page: map<nat, Page>, t: Option<nat>, i: nat): (r: Option<nat>)
    requires i < ENTRIES
  {
    if t.Some? && t.value in page && V(page[t.value][i]) then Some(page[t.value][i].ppn) else None
  }

  /** Address translation for Sv39 (section 4.4 of the RISC-V privileged specification) in
      memory alone: nine bits of the virtual page number choose an entry of the root,
      nine more one of the page that it points to, and the last nine the leaf. */
  function Sv39(page: map<nat, Page>, root: nat, v2: nat, v1: nat, v0: nat): (r: Option<Pte>)
    requires v2 < ENTRIES && v1 < ENTRIES && v0 < ENTRIES
  {
    var t := Down(page, Down(page, Some(root), v2), v1);
    if t.Some? && t.value in page && V(page[t.value][v0]) then Some(page[t.value][v0]) else None
  }

  /** The flat map is that translation, and the last-level table is the one it reads. On
      the way there are only pointers to tables, no larger pages. */
  lemma LeafIsSv39(page: map<nat, Page>, where: map<nat, Node>, root: nat, v2: nat, v1: nat, v0: nat)
    requires TreeOk(page, where) && IsRoot(where, root) && v2 < 256 && v1 < 512 && v0 < 512
    ensures
      var vpn := v2 * 0x4_0000 + v1 * 512 + v0;
      && vpn < MAXVPN && Leaf(page, where, root, vpn) == Sv39(page, root, v2, v1, v0)
      && TableFor(page, where, root, vpn, 0) == Down(page, Down(page, Some(root), v2), v1)
    ensures root in page && (V(page[root][v2]) ==> !HasRWX(page[root][v2]))
    ensures
      var t := Down(page, Some(root), v2);
      t.Some? ==> t.value in page && (V(page[t.value][v1]) ==> !HasRWX(page[t.value][v1]))
  {
    var vpn := v2 * 0x4_0000 + v1 * 512 + v0;
    assert vpn / 0x4_0000 == v2 && vpn / 512 % 512 == v1 && vpn % 512 == v0 by {
      assert vpn / 512 == v2 * 512 + v1;
    }
    var t1, t0 := TableFor(page, where, root, vpn, 1), TableFor(page, where, root, vpn, 0);
    assert TableFor(page, where, root, vpn, 2) == Some(root);
    assert t1 == Down(page, Some(root), v2);
    assert t0 == Down(page, t1, v1);
    if V(page[root][v2]) {
      assert PointsDown(page, where, root, v2);
    }
    if t1.Some? && V(page[t1.value][v1]) {
      assert PointsDown(page, where, t1.value, v1);
    }
  }

  /** Every virtual page number has these three parts. */
  lemma ThreeParts(vpn: nat)
    requires vpn < MAXVPN
    ensures
      var v2, v1, v0 := vpn / 0x4_0000, vpn / 512 % 512, vpn % 512;
      v2 < 256 && v1 < 512 && v0 < 512 && vpn == v2 * 0x4_0000 + v1 * 512 + v0
  {}

  /** The table of a tree for a level and an address is the only one. */
  lemma {:induction false} TableIsUnique(page: map<nat, Page>, where: map<nat, Node>, t: nat, vpn: nat)
    requires TreeOk(page, where) && t in where && vpn < MAXVPN
    requires where[t].prefix == Prefix(where[t].level, vpn)
    ensures IsRoot(where, where[t].root)
    ensures TableFor(page, where, where[t].root, vpn, where[t].level) == Some(t)
    decreases 2 - where[t].level
  {
    if where[t].level < 2 {
      assert PointedTo(page, where, t);
      PrefixStep(where[t].level + 1, vpn);
      TableIsUnique(page, where, where[t].parent, vpn);
    }
  }

  /** No sharing: two tables never serve the same addresses at the same level. */
  lemma {:induction false} NoSharing(page: map<nat, Page>, where: map<nat, Node>, t: nat, u: nat)
    requires TreeOk(page, where) && t in where && u in where
    requires where[t].root == where[u].root && where[t].level == where[u].level && where[t].prefix == where[u].prefix
    ensures t == u
    decreases 2 - where[t].level
  {
    if where[t].level < 2 {
      assert PointedTo(page, where, t) && PointedTo(page, where, u);
      NoSharing(page, where, where[t].parent, where[u].parent);
    }
  }

  // ----- What a write to memory does to the flat map -----

  ghost predicate SameTables(page: map<nat, Page>, page': map<nat, Page>, where: map<nat, Node>) {
    forall t :: t in where ==> t in page && t in page' && page'[t] == page[t]
  }

  /** Memory that agrees on the tables translates alike. */
  lemma SameTablesTree(page: map<nat, Page>, page': map<nat, Page>, where: map<nat, Node>)
    requires TreeOk(page, where) && SameTables(page, page', where)
    ensures TreeOk(page', where)
  {
    forall t, i | t in where && where[t].level > 0 && 0 <= i < ENTRIES && V(page'[t][i])
      ensures PointsDown(page', where, t, i)
    {
      assert PointsDown(page, where, t, i);
    }
    forall t | t in where && where[t].level < 2
      ensures PointedTo(page', where, t)
    {
      assert PointedTo(page, where, t);
    }
  }

  lemma {:induction false} SameTablesTableFor( page: map<nat, Page>, page': map<nat, Page>, where: map<nat, Node>,
      root: nat, vpn: nat, level: nat)
    requires TreeOk(page, where) && TreeOk(page', where) && SameTables(page, page', where)
    requires vpn < MAXVPN && level <= 2 && IsRoot(where, root)
    ensures TableFor(page', where, root, vpn, level) == TableFor(page, where, root, vpn, level)
    decreases 2 - level
  {
    hide DownOk, UpOk;
    if level < 2 {
      SameTablesTableFor(page, page', where, root, vpn, level + 1);
    }
  }

  lemma SameTablesLeaf(page: map<nat, Page>, page': map<nat, Page>, where: map<nat, Node>, root: nat, vpn: nat)
    requires TreeOk(page, where) && TreeOk(page', where) && SameTables(page, page', where)
    requires vpn < MAXVPN && IsRoot(where, root)
    ensures Leaf(page', where, root, vpn) == Leaf(page, where, root, vpn)
  {
    hide DownOk, UpOk;
    SameTablesTableFor(page, page', where, root, vpn, 0);
  }

  /** Hanging a fresh zeroed table `c` into entry `i` of table `t`. */
  ghost function Hung(page: map<nat, Page>, t: nat, i: nat, c: nat): (r: map<nat, Page>)
    requires t in page && i < ENTRIES
  {
    page[c := ZeroPage()][t := page[t][i := Pte(c, PTE_V)]]
  }

  ghost function HungWhere(where: map<nat, Node>, t: nat, i: nat, c: nat): (r: map<nat, Node>)
    requires t in where && where[t].level > 0
  {
    where[c := Node(where[t].root, where[t].level - 1, where[t].prefix * 512 + i, t)]
  }

  lemma HangTree(page: map<nat, Page>, where: map<nat, Node>, t: nat, i: nat, c: nat)
    requires TreeOk(page, where) && t in where && where[t].level > 0 && i < ENTRIES
    requires !V(page[t][i]) && c !in where && c != t && InBounds(HungWhere(where, t, i, c)[c])
    ensures TreeOk(Hung(page, t, i, c), HungWhere(where, t, i, c))
  {
    var page', where' := Hung(page, t, i, c), HungWhere(where, t, i, c);
    forall u, j | u in where' && where'[u].level > 0 && 0 <= j < ENTRIES && V(page'[u][j])
      ensures PointsDown(page', where', u, j)
    {
      if u != c && !(u == t && j == i) {
        assert PointsDown(page, where, u, j);
      }
    }
    forall u | u in where' && where'[u].level < 2
      ensures PointedTo(page', where', u)
    {
      if u != c {
        assert PointedTo(page, where, u);
        assert where[u].parent != t || where[u].prefix % 512 != i;
      }
    }
  }

  /** A new table maps nothing and disturbs no existing translation. */
  lemma {:induction false} HangTableFor(page: map<nat, Page>, where: map<nat, Node>, t: nat, i: nat, c: nat, root: nat,
      vpn: nat, level: nat)
    requires TreeOk(page, where) && t in where && where[t].level > 0 && i < ENTRIES
    requires !V(page[t][i]) && c !in where && c != t && InBounds(HungWhere(where, t, i, c)[c])
    requires vpn < MAXVPN && level <= 2 && IsRoot(where, root)
    requires TreeOk(Hung(page, t, i, c), HungWhere(where, t, i, c))
    ensures
      var before := TableFor(page, where, root, vpn, level);
      var after := TableFor(Hung(page, t, i, c), HungWhere(where, t, i, c), root, vpn, level);
      after == before || (before.None? && after == Some(c))
    decreases 2 - level
  {
    hide DownOk, UpOk;
    if level < 2 {
      HangTableFor(page, where, t, i, c, root, vpn, level + 1);
      var page', where' := Hung(page, t, i, c), HungWhere(where, t, i, c);
      var up, up' := TableFor(page, where, root, vpn, level + 1), TableFor(page', where', root, vpn, level + 1);
      var k := PX(level + 1, vpn);
      if up.Some? {
        assert up' == up && up.value != c;
        assert page'[up.value][k] == if up.value == t && k == i then Pte(c, PTE_V) else page[up.value][k];
      } else if up'.Some? {
        assert page'[c][k] == ZeroPte;
      }
    }
  }

  lemma HangLeaf(page: map<nat, Page>, where: map<nat, Node>, t: nat, i: nat, c: nat, root: nat, vpn: nat)
    requires TreeOk(page, where) && t in where && where[t].level > 0 && i < ENTRIES
    requires !V(page[t][i]) && c !in where && c != t && InBounds(HungWhere(where, t, i, c)[c])
    requires vpn < MAXVPN && IsRoot(where, root)
    requires TreeOk(Hung(page, t, i, c), HungWhere(where, t, i, c))
    ensures Leaf(Hung(page, t, i, c), HungWhere(where, t, i, c), root, vpn) == Leaf(page, where, root, vpn)
  {
    hide DownOk, UpOk, InBounds;
    HangTableFor(page, where, t, i, c, root, vpn, 0);
  }

  /** Writing entry `i` of a bottom table. */
  lemma SetLeafTree(page: map<nat, Page>, where: map<nat, Node>, t: nat, i: nat, e: Pte)
    requires TreeOk(page, where) && t in where && where[t].level == 0 && i < ENTRIES
    ensures TreeOk(page[t := page[t][i := e]], where)
  {
    var page' := page[t := page[t][i := e]];
    forall u, j | u in where && where[u].level > 0 && 0 <= j < ENTRIES && V(page'[u][j])
      ensures PointsDown(page', where, u, j)
    {
      assert PointsDown(page, where, u, j);
    }
    forall u | u in where && where[u].level < 2
      ensures PointedTo(page', where, u)
    {
      assert PointedTo(page, where, u);
    }
  }

  lemma {:induction false} SetLeafTableFor( page: map<nat, Page>, where: map<nat, Node>, t: nat, i: nat, e: Pte,
      root: nat, vpn: nat, level: nat)
    requires TreeOk(page, where) && t in where && where[t].level == 0 && i < ENTRIES
    requires vpn < MAXVPN && level <= 2 && IsRoot(where, root)
    requires TreeOk(page[t := page[t][i := e]], where)
    ensures TableFor(page[t := page[t][i := e]], where, root, vpn, level) == TableFor(page, where, root, vpn, level)
    decreases 2 - level
  {
    hide DownOk, UpOk;
    if level < 2 {
      SetLeafTableFor(page, where, t, i, e, root, vpn, level + 1);
    }
  }

  /** It changes the translation of its own virtual page and of no other. */
  lemma SetLeafLeaf(page: map<nat, Page>, where: map<nat, Node>, vpn0: nat, t: nat, e: Pte, root: nat, vpn: nat)
    requires TreeOk(page, where) && t in where && where[t].level == 0
    requires vpn0 < MAXVPN && where[t].prefix == Prefix(0, vpn0)
    requires vpn < MAXVPN && IsRoot(where, root)
    requires TreeOk(page[t := page[t][PX(0, vpn0) := e]], where)
    ensures Leaf(page[t := page[t][PX(0, vpn0) := e]], where, root, vpn) ==
            if root == where[t].root && vpn == vpn0 then (if V(e) then Some(e) else None)
            else Leaf(page, where, root, vpn)
  {
    hide DownOk, UpOk;
    SetLeafTableFor(page, where, t, PX(0, vpn0), e, root, vpn, 0);
    TableIsUnique(page, where, t, vpn0);
  }

  // ----- Subtrees -----

  /** The prefix `k` levels further up. */
  function Up(x: nat, k: nat): (y: nat) {
    if k == 0 then x else Up(x / 512, k - 1)
  }

  ghost predicate Under(t: Node, d: Node) {
    d.root == t.root && d.level <= t.level && Up(d.prefix, t.level - d.level) == t.prefix
  }

  /** The tables at and below `t`. */
  ghost function Sub(where: map<nat, Node>, t: nat): (s: set<nat>)
    requires t in where
  {
    set d | d in where && Under(where[t], where[d])
  }

  /** The entry of `t` through which the table `d` below it is reached. */
  ghost function ChildIndex(t: Node, d: Node): (i: nat)
    requires d.level < t.level
  {
    Up(d.prefix, t.level - 1 - d.level) % 512
  }

  /** The tables below the first `i` entries of `t`. */
  ghost function Below(where: map<nat, Node>, t: nat, i: nat): (s: set<nat>)
    requires t in where
  {
    set d | d in where && Under(where[t], where[d]) && where[d].level < where[t].level
      && ChildIndex(where[t], where[d]) < i
  }

  lemma {:induction false} UpStep(x: nat, k: nat)
    ensures Up(x, k + 1) == Up(x, k) / 512
  {
    if k > 0 {
      UpStep(x / 512, k - 1);
    }
  }

  /** Every table below `t` hangs on one of the tables that `t` points to. */
  lemma {:induction false} ChildAbove(page: map<nat, Page>, where: map<nat, Node>, t: nat, d: nat)
    requires TreeOk(page, where) && t in where && d in where
    requires Under(where[t], where[d]) && where[d].level < where[t].level
    ensures
      var i := ChildIndex(where[t], where[d]);
      && V(page[t][i]) && page[t][i].ppn in where
      && where[page[t][i].ppn].level == where[t].level - 1 && Under(where[page[t][i].ppn], where[d])
    decreases where[t].level - where[d].level
  {
    assert PointedTo(page, where, d);
    var p := where[d].parent;
    if where[d].level + 1 == where[t].level {
      NoSharing(page, where, p, t);
    } else {
      ChildAbove(page, where, t, p);
    }
  }

  /** The tables below entry `i` of `t` are those of the table it points to. */
  lemma ChildSub(page: map<nat, Page>, where: map<nat, Node>, t: nat, i: nat, d: nat)
    requires TreeOk(page, where) && t in where && where[t].level > 0 && i < ENTRIES && d in where
    requires V(page[t][i]) && page[t][i].ppn in where && d in Sub(where, page[t][i].ppn)
    ensures d in Sub(where, t) && where[d].level < where[t].level && ChildIndex(where[t], where[d]) == i
  {
    assert PointsDown(page, where, t, i);
    UpStep(where[d].prefix, where[t].level - 1 - where[d].level);
  }

  /** One entry more: its table's subtree, or nothing if the entry is empty. */
  lemma BelowStep(page: map<nat, Page>, where: map<nat, Node>, t: nat, i: nat)
    requires TreeOk(page, where) && t in where && i < ENTRIES && where[t].level > 0
    ensures !V(page[t][i]) ==> Below(where, t, i + 1) == Below(where, t, i)
    ensures V(page[t][i]) ==>
      var c := page[t][i].ppn;
      && c in where && where[c].level == where[t].level - 1 && page[t][i].flags == PTE_V
      && Below(where, t, i + 1) == Below(where, t, i) + Sub(where, c)
      && Below(where, t, i) !! Sub(where, c) && Sub(where, c) <= Sub(where, t) - {t}
  {
    if V(page[t][i]) {
      assert PointsDown(page, where, t, i);
      forall d | d in Sub(where, page[t][i].ppn)
        ensures d in Below(where, t, i + 1) && d !in Below(where, t, i) && d in Sub(where, t) - {t}
      {
        ChildSub(page, where, t, i, d);
      }
    }
    forall d | d in Below(where, t, i + 1) && d !in Below(where, t, i)
      ensures V(page[t][i]) && page[t][i].ppn in where && d in Sub(where, page[t][i].ppn)
    {
      ChildAbove(page, where, t, d);
    }
  }

  lemma BelowAll(page: map<nat, Page>, where: map<nat, Node>, t: nat)
    requires TreeOk(page, where) && t in where
    ensures Sub(where, t) == Below(where, t, ENTRIES) + {t} && Below(where, t, 0) == {}
    ensures forall i :: t !in Below(where, t, i)
    ensures where[t].level == 0 ==> forall i :: Below(where, t, i) == {}
  {
    forall d | d in Sub(where, t) && where[d].level == where[t].level
      ensures d == t
    {
      NoSharing(page, where, d, t);
    }
  }

  /** Cutting a whole tree out leaves the other trees alone. */
  ghost function WithoutTree(where: map<nat, Node>, root: nat): (w: map<nat, Node>) {
    map t | t in where && where[t].root != root :: where[t]
  }

  lemma WithoutTreeOk(page: map<nat, Page>, where: map<nat, Node>, root: nat)
    requires TreeOk(page, where)
    ensures TreeOk(page, WithoutTree(where, root))
  {
    var w := WithoutTree(where, root);
    forall t, i | t in w && w[t].level > 0 && 0 <= i < ENTRIES && V(page[t][i])
      ensures PointsDown(page, w, t, i)
    {
      assert PointsDown(page, where, t, i);
    }
    forall t | t in w && w[t].level < 2
      ensures PointedTo(page, w, t)
    {
      assert PointedTo(page, where, t);
    }
  }

  /** A tree's tables are those at and below its root. */
  lemma SubOfRoot(page: map<nat, Page>, where: map<nat, Node>, root: nat)
    requires TreeOk(page, where) && IsRoot(where, root)
    ensures forall d :: d in Sub(where, root) <==> d in where && where[d].root == root
  {
    forall d | d in where && where[d].root == root
      ensures Under(where[root], where[d])
    {
      var x := where[d].prefix;
      assert Up(x, 1) == Up(x / 512, 0) && Up(x, 2) == Up(x / 512, 1) && Up(x / 512, 1) == Up(x / 512 / 512, 0);
    }
  }

  /** When nothing is mapped, the bottom tables are empty. */
  lemma EmptyTables(page: map<nat, Page>, where: map<nat, Node>, root: nat, d: nat, i: nat)
    requires TreeOk(page, where) && IsRoot(where, root)
    requires forall v :: 0 <= v < MAXVPN ==> Leaf(page, where, root, v) == None
    requires d in where && where[d].root == root && where[d].level == 0 && i < ENTRIES
    ensures !V(page[d][i])
  {
    var v := where[d].prefix * 512 + i;
    assert v < MAXVPN && PX(0, v) == i && Prefix(0, v) == where[d].prefix;
    TableIsUnique(page, where, d, v);
    assert Leaf(page, where, root, v) == None;
  }

  /** A new root over a zeroed page. */
  lemma AddRootOk(page: map<nat, Page>, where: map<nat, Node>, root: nat)
    requires TreeOk(page, where) && root !in where && root in page && page[root] == ZeroPage()
    ensures TreeOk(page, where[root := Node(root, 2, 0, root)])
  {
    var w := where[root := Node(root, 2, 0, root)];
    forall t, i | t in w && w[t].level > 0 && 0 <= i < ENTRIES && V(page[t][i])
      ensures PointsDown(page, w, t, i)
    {
      assert PointsDown(page, where, t, i);
    }
    forall t | t in w && w[t].level < 2
      ensures PointedTo(page, w, t)
    {
      assert PointedTo(page, where, t);
    }
  }

  lemma {:induction false} AddRootTableFor(page: map<nat, Page>, where: map<nat, Node>, root: nat, x: nat, vpn: nat,
      level: nat)
    requires TreeOk(page, where) && root !in where && root in page && page[root] == ZeroPage()
    requires TreeOk(page, where[root := Node(root, 2, 0, root)])
    requires vpn < MAXVPN && level <= 2 && (x == root || IsRoot(where, x))
    ensures
      var t := TableFor(page, where[root := Node(root, 2, 0, root)], x, vpn, level);
      if x == root then t == if level == 2 then Some(root) else None else t == TableFor(page, where, x, vpn, level)
    decreases 2 - level
  {
    hide DownOk, UpOk;
    if level < 2 {
      AddRootTableFor(page, where, root, x, vpn, level + 1);
    }
  }

  lemma {:induction false} WithoutTreeTableFor(page: map<nat, Page>, where: map<nat, Node>, root: nat, x: nat, vpn: nat,
      level: nat)
    requires TreeOk(page, where) && TreeOk(page, WithoutTree(where, root))
    requires vpn < MAXVPN && level <= 2 && IsRoot(where, x) && x != root
    ensures IsRoot(WithoutTree(where, root), x)
    ensures TableFor(page, WithoutTree(where, root), x, vpn, level) == TableFor(page, where, x, vpn, level)
    decreases 2 - level
  {
    hide DownOk, UpOk;
    if level < 2 {
      WithoutTreeTableFor(page, where, root, x, vpn, level + 1);
    }
  }
}
