/** kernel/kalloc.c and kernel/vm.c: the page allocator and user page tables. */
module Vm {
  import opened PageTables
  import opened Memory
  import opened VmSpec

  /** (PHYSTOP - KERNBASE) / PGSIZE */
  const MAXPAGES := 0x8000

  class Kernel {
    const r: Range
    var page: map<nat, Page>
    var freelist: nat
    ghost var free: seq<nat>
    ghost var where: map<nat, Node>
    ghost var owned: map<nat, Use>

    ghost function M(): (m: Mem)
      reads this
    {
      Mem(page, free, where, owned)
    }

    ghost predicate Valid()
      reads this
    {
      MemOk(M(), r) && Links(page, free, freelist) && r.lo <= r.hi <= r.lo + MAXPAGES
    }

    /** kinit: freerange over the allocatable pages. */
    constructor (r: Range, page: map<nat, Page>)
      requires 0 < r.lo <= r.hi <= r.lo + MAXPAGES && forall p :: r.Contains(p) ==> p in page
      ensures Valid() && this.r == r && where == map[] && owned == map[]
      ensures forall p :: p in free <==> r.Contains(p)
    {
      hide Links;
      var mem: map<nat, Page>, head: nat := page, 0;
      ghost var list: seq<nat> := [];
      LinksEmpty(page);
      var p := r.lo;
      while p + 1 <= r.hi
        invariant r.lo <= p && (p == r.lo || p <= r.hi) && forall q :: r.Contains(q) ==> q in mem
        invariant Distinct(list) && (forall q :: q in list <==> r.lo <= q < p)
        invariant Links(mem, list, head)
        decreases r.hi - p
      {
        LinksPush(mem, list, head, p);
        DistinctPush(list, p);
        mem := mem[p := Filled(FreedWord)[0 := AddrWord(head)]];
        head := p;
        list := [p] + list;
        p := p + 1;
      }
      EmptyOk(Mem(mem, list, map[], map[]), r);
      this.r, this.page, freelist := r, mem, head;
      free, where, owned := list, map[], map[];
    }

    /** kfree, as far as the free list is concerned. */
    method PushFree(p: nat)
      requires Links(page, free, freelist) && Distinct(free) && p !in free
      modifies this`page, this`freelist, this`free
      ensures Links(page, free, freelist) && Distinct(free) && free == [p] + old(free)
      ensures page.Keys == old(page).Keys + {p}
      ensures forall q :: q in old(page) && q != p ==> page[q] == old(page)[q]
    {
      hide Links, Distinct;
      LinksPush(page, free, freelist, p);
      DistinctPush(free, p);
      page := page[p := Filled(FreedWord)];
      page := page[p := page[p][0 := AddrWord(freelist)]];
      freelist := p;
      free := [p] + free;
      assert page == old(page)[p := Filled(FreedWord)[0 := AddrWord(old(freelist))]];
    }

    /** kfree of a page that nobody owns any more. */
    method Kfree(p: nat)
      requires Valid() && r.Contains(p) && p !in Pool(M())
      modifies this`page, this`freelist, this`free
      ensures Valid() && free == [p] + old(free)
      ensures SameLeaves(old(M()), M()) && SameUserData(old(M()), M())
      ensures forall q :: q in old(page) && q != p ==> q in page && page[q] == old(page)[q]
    {
      hide TreeOk, OwnedOk, SameLeaves, Links, Distinct;
      PushFree(p);
      OutsidePage(old(M()), r, p, page[p], free);
      assert page == old(page)[p := page[p]];
    }

    /** kalloc; 0 when no page is free. */
    method Kalloc() returns (p: nat)
      requires Valid()
      modifies this`page, this`freelist, this`free
      ensures Valid()
      ensures p == 0 ==> old(free) == [] && M() == old(M())
      ensures p != 0 ==>
        old(free) == [p] + free && r.Contains(p) && p !in Pool(M()) && Pool(old(M())) == Pool(M()) + {p}
      ensures p != 0 ==> p !in free && p !in where && p !in owned
      ensures SameLeaves(old(M()), M()) && SameUserData(old(M()), M())
      ensures forall q :: q in old(page) && q != p ==> q in page && page[q] == old(page)[q]
    {
      hide TreeOk, OwnedOk, SameLeaves, FreeOk, Pool, Links;
      FreeListHead(M(), r, freelist, Filled(FreshWord));
      p := freelist;
      if p != 0 {
        freelist := PageOf(page[p][0]);
        free := free[1..];
        page := page[p := Filled(FreshWord)];
        PoolOfPage(old(M()).(free := free), page);
        OutsidePage(old(M()), r, p, page[p], free);
      } else {
        SameLeavesRefl(M());
      }
    }

    /** The allocating step of walk: a fresh table for entry `i` of table `t`. */
    method GrowTable(t: nat, i: nat) returns (c: nat)
      requires Valid() && t in where && where[t].level > 0 && t in page && i < ENTRIES && !V(page[t][i])
      requires InBounds(Node(where[t].root, where[t].level - 1, where[t].prefix * 512 + i, t))
      modifies this`page, this`freelist, this`free, this`where
      ensures Valid() && Grown(old(M()), M(), r)
      ensures c == 0 ==> M() == old(M()) && free == []
      ensures c != 0 ==> c !in old(where) && where == HungWhere(old(where), t, i, c) && |free| == |old(free)| - 1
    {
      hide MemOk, Grown, SameLeaves, Pool, Links, SameUserData;
      TableNotFree(M(), r, t);
      c := Kalloc();
      if c != 0 {
        ghost var m := M();
        page := page[c := ZeroPage()];
        page := page[t := page[t][i := Pte(c, PTE_V)]];
        where := HungWhere(where, t, i, c);
        HangGrown(old(M()), m, r, t, i, c);
        GrownUserData(old(M()), M(), r);
        LinksSame(m.page, page, free, freelist);
      } else {
        GrownRefl(M(), r);
      }
    }

    /** walk: the bottom-level table for a virtual page, 0 if there is none. */
    method Walk(root: nat, vpn: nat, alloc: bool) returns (t: nat)
      requires Valid() && IsRoot(where, root) && vpn < MAXVPN
      modifies this`page, this`freelist, this`free, this`where
      ensures Valid() && Grown(old(M()), M(), r) && IsRoot(where, root)
      ensures !alloc ==> M() == old(M()) && freelist == old(freelist)
      ensures t == 0 ==> TableFor(page, where, root, vpn, 0) == None && (alloc ==> free == [] && |old(free)| < 2)
      ensures t != 0 ==> TableFor(page, where, root, vpn, 0) == Some(t) && t in page && |old(free)| <= |free| + 2
    {
      hide TreeOk, OwnedOk, SameLeaves, FreeOk, Pool, Links;
      t := root;
      GrownRefl(M(), r);
      var level := 2;
      while level > 0
        invariant 0 <= level <= 2 && Valid() && Grown(old(M()), M(), r) && IsRoot(where, root)
        invariant t in where && t in page && TableFor(page, where, root, vpn, level) == Some(t)
        invariant !alloc ==> M() == old(M()) && freelist == old(freelist)
        invariant |old(free)| <= |free| + 2 - level
      {
        ghost var m := M();
        var i := PX(level, vpn);
        assert where[t].prefix == Prefix(level, vpn);
        if V(page[t][i]) {
          assert TableFor(page, where, root, vpn, level - 1) == Some(page[t][i].ppn);
          t := page[t][i].ppn;
        } else {
          if !alloc {
            return 0;
          }
          PrefixStep(level, vpn);
          var c := GrowTable(t, i);
          GrownTrans(old(M()), m, M(), r);
          if c == 0 {
            return 0;
          }
          TableIsUnique(page, where, c, vpn);
          t := c;
        }
        level := level - 1;
      }
    }

    /** walk without allocation, and the valid entry that it finds. */
    method Lookup(root: nat, vpn: nat) returns (e: Option<Pte>)
      requires Valid() && IsRoot(where, root) && vpn < MAXVPN
      modifies this`page, this`freelist, this`free, this`where
      ensures Valid() && M() == old(M()) && freelist == old(freelist) && TreeOk(page, where)
      ensures e == Leaf(page, where, root, vpn)
    {
      hide MemOk, Grown, Links;
      MemTrees(M(), r);
      var t := Walk(root, vpn, false);
      e := if t != 0 && V(page[t][PX(0, vpn)]) then Some(page[t][PX(0, vpn)]) else None;
    }

    /** One round of mappages' loop; `false` when walk finds no memory. */
    method MapPage(root: nat, vpn: nat, p: nat, perm: nat, own: bool) returns (ok: bool)
      requires Valid() && IsRoot(where, root) && vpn < MAXVPN && Leaf(page, where, root, vpn) == None
      requires own ==> r.Contains(p) && p !in Pool(M())
      modifies this`page, this`freelist, this`free, this`where, this`owned
      ensures Valid() && SameUserData(old(M()), M())
      ensures ok ==>
        && LeafSet(old(M()), M(), root, vpn, Some(Pte(p, OrV(perm))))
        && owned == (if own then old(owned)[p := Use(root, vpn)] else old(owned))
        && Pool(M()) == Pool(old(M())) + (if own then {p} else {})
        && SameOutside(old(M()), M())
      ensures !ok ==> Grown(old(M()), M(), r) && free == []
      ensures |old(free)| <= |free| + if ok then 2 else 1
    {
      hide MemOk, Grown, SameLeaves, Pool, Links, SameUserData, SameOutside, LeafSet;
      var t := Walk(root, vpn, true);
      GrownUserData(old(M()), M(), r);
      if t == 0 {
        return false;
      }
      ghost var m := M();
      MapAfterGrown(old(M()), m, r, root, vpn, t, Pte(p, OrV(perm)), own);
      TableNotFree(m, r, t);
      page := page[t := page[t][PX(0, vpn) := Pte(p, OrV(perm))]];
      if own {
        owned := owned[p := Use(root, vpn)];
      }
      LinksSame(m.page, page, free, freelist);
      return true;
    }

    /** kfree of a page of user memory, which its mapping still refers to. */
    method FreeUserPage(p: nat)
      requires Valid() && p in owned
      modifies this`page, this`freelist, this`free, this`owned
      ensures Valid() && SameLeaves(old(M()), M())
      ensures owned == old(owned) - {p} && free == [p] + old(free)
      ensures Pool(M()) == Pool(old(M())) && SameOutside(old(M()), M())
      ensures SameUserData(old(M()).(owned := owned), M())
    {
      hide TreeOk, OwnedOk, SameLeaves, Pool, Links, SameUserData, SameOutside, Distinct;
      DisownMem(M(), r, p);
      DisownedPool(M(), p);
      owned := owned - {p};
      Kfree(p);
      FreedPool(old(M()), M(), p);
    }

    /** One round of uvmunmap's loop. */
    method UnmapPage(root: nat, vpn: nat, doFree: bool)
      requires Valid() && IsRoot(where, root) && vpn < MAXVPN && Unmappable(M(), root, vpn, doFree)
      modifies this`page, this`freelist, this`free, this`owned, this`where
      ensures Valid() && where == old(where) && LeafSet(old(M()), M(), root, vpn, None)
      ensures owned == Disowned(old(owned), root, vpn, 1)
      ensures Pool(M()) == Pool(old(M())) && SameOutside(old(M()), M())
      ensures SameUserData(old(M()).(owned := owned), M())
    {
      hide MemOk, SameLeaves, Pool, Links, SameUserData, SameOutside, LeafSet, Grown, Disowned;
      ghost var a := M();
      MemTrees(a, r);
      var t := Walk(root, vpn, false);
      var e := page[t][PX(0, vpn)];
      if doFree {
        OwnedOnce(a, r, root, vpn);
        FreeUserPage(e.ppn);
      } else {
        NothingOwned(a, root, vpn);
        SameLeavesRefl(a);
      }
      UnmapAfter(a, M(), r, root, vpn, t);
      TableNotFree(M(), r, t);
      ghost var m := M();
      page := page[t := page[t][PX(0, vpn) := ZeroPte]];
      LinksSame(m.page, page, free, freelist);
    }

    /** mappages for `n` pages; own is for the one-page callers whose page becomes
        user memory. On failure the first `k` pages stay mapped. */
    method Mappages(root: nat, vpn: nat, n: nat, p: nat, perm: nat, own: bool) returns (ok: bool, ghost k: nat)
      requires Valid() && IsRoot(where, root) && 0 < n && vpn + n <= MAXVPN
      requires forall v :: vpn <= v < vpn + n ==> Leaf(page, where, root, v) == None
      requires own ==> n == 1 && r.Contains(p) && p !in Pool(M())
      modifies this`page, this`freelist, this`free, this`where, this`owned
      ensures Valid() && (if ok then k == n else k < n && free == [])
      ensures LeavesAre(old(M()), M(), root, vpn, FrameEntries(p, perm, k))
      ensures IsRoot(where, root) && forall v :: vpn <= v < vpn + k ==>
        Leaf(page, where, root, v) == Some(Pte(p + (v - vpn), if perm % 2 == 1 then perm else perm + 1))
      ensures owned == if ok && own then old(owned)[p := Use(root, vpn)] else old(owned)
      ensures Pool(M()) == Pool(old(M())) + (if ok && own then {p} else {})
      ensures SameUserData(old(M()), M()) && SameOutside(old(M()), M())
      ensures |old(free)| <= |free| + 2 * k + if ok then 0 else 1
    {
      hide TreeOk, OwnedOk, FreeOk, PagesOk, LeavesAre, LeafSet, SameUserData, SameOutside, Pool, Links, Grown;
      ghost var a := M();
      NothingYet(a, r, root, vpn);
      var i := 0;
      while true
        invariant i < n && Valid() && IsRoot(where, root)
        invariant own ==> p !in Pool(M())
        invariant LeavesAre(a, M(), root, vpn, FrameEntries(p, perm, i))
        invariant owned == a.owned && Pool(M()) == Pool(a) && SameUserData(a, M()) && SameOutside(a, M())
        invariant |a.free| <= |free| + 2 * i
        decreases n - i
      {
        ghost var b := M();
        LeavesBeyond(a, b, r, root, vpn, FrameEntries(p, perm, i), vpn + i);
        ok := MapPage(root, vpn + i, p + i, perm, own);
        if !ok {
          GrownLeaves(a, b, M(), r, root, vpn, FrameEntries(p, perm, i));
          k := i;
          FramesMapped(a, M(), root, vpn, p, perm, k);
          return;
        }
        MappedOne(a, b, M(), r, root, vpn, FrameEntries(p, perm, i), Some(Pte(p + i, OrV(perm))));
        assert FrameEntries(p, perm, i + 1) == FrameEntries(p, perm, i) + [Some(Pte(p + i, OrV(perm)))];
        i := i + 1;
        if i == n {
          k := i;
          FramesMapped(a, M(), root, vpn, p, perm, k);
          return;
        }
      }
    }

    /** uvmunmap: the mappings go, and with `doFree` so does the user memory. */
    method Uvmunmap(root: nat, vpn: nat, n: nat, doFree: bool)
      requires Valid() && IsRoot(where, root) && vpn + n <= MAXVPN
      requires forall v :: vpn <= v < vpn + n ==> Unmappable(M(), root, v, doFree)
      modifies this`page, this`freelist, this`free, this`owned, this`where
      ensures Valid() && where == old(where)
      ensures LeavesAre(old(M()), M(), root, vpn, NoEntries(n))
      ensures owned == Disowned(old(owned), root, vpn, n)
      ensures Pool(M()) == Pool(old(M())) && SameOutside(old(M()), M())
      ensures SameUserData(old(M()).(owned := owned), M())
    {
      hide TreeOk, OwnedOk, FreeOk, PagesOk, LeavesAre, LeafSet, SameUserData, SameOutside, Pool, Links, Disowned;
      hide Unmappable;
      ghost var a := M();
      NothingYet(a, r, root, vpn);
      DisownedNone(a.owned, root, vpn);
      var i := 0;
      while i < n
        invariant i <= n && Valid() && where == a.where
        invariant LeavesAre(a, M(), root, vpn, NoEntries(i))
        invariant owned == Disowned(a.owned, root, vpn, i)
        invariant Pool(M()) == Pool(a) && SameOutside(a, M()) && SameUserData(a.(owned := owned), M())
      {
        ghost var b := M();
        StillUnmappable(a, b, r, root, vpn, i, doFree);
        UnmapPage(root, vpn + i, doFree);
        UnmappedOne(a, b, M(), r, root, vpn, i);
        i := i + 1;
      }
    }

    /** kalloc, fill, mappages, and kfree if that fails: how uvmalloc and uvmcopy
        make one page of user memory. */
    method AddUserPage(root: nat, vpn: nat, perm: nat, content: Page) returns (p: nat)
      requires Valid() && IsRoot(where, root) && vpn < MAXVPN && Leaf(page, where, root, vpn) == None
      modifies this`page, this`freelist, this`free, this`where, this`owned
      ensures Valid() && Pool(M()) == Pool(old(M())) && SameUserData(old(M()), M()) && SameOutside(old(M()), M())
      ensures p == 0 ==> SameLeaves(old(M()), M()) && owned == old(owned) && |old(free)| < 3
      ensures p != 0 ==>
        && |old(free)| <= |free| + 3
        && LeafSet(old(M()), M(), root, vpn, Some(Pte(p, OrV(perm))))
        && p !in old(owned) && owned == old(owned)[p := Use(root, vpn)] && p in page && page[p] == content
    {
      hide TreeOk, OwnedOk, FreeOk, Pool, Links, SameUserData, SameOutside, LeafSet, SameLeaves, LeavesAre;
      ghost var a := M();
      p := AllocFilled(content);
      if p == 0 {
        SameLeavesRefl(a);
        NothingYet(a, r, root, vpn);
        return;
      }
      ghost var c := M();
      KeepsUnmapped(a, c, root, vpn);
      var ok;
      ghost var k;
      ok, k := Mappages(root, vpn, 1, p, perm, true);
      if ok {
        AddedPage(a, c, M(), root, vpn, p, perm);
      } else {
        ghost var d := M();
        Kfree(p);
        GaveBackPage(a, c, d, M(), root, vpn, p, perm);
        p := 0;
      }
    }

    /** kalloc, then memset or memmove over the new page. */
    method AllocFilled(content: Page) returns (p: nat)
      requires Valid()
      modifies this`page, this`freelist, this`free
      ensures Valid()
      ensures p == 0 ==> M() == old(M()) && free == []
      ensures p != 0 ==>
        Taken(old(M()), M(), p) && r.Contains(p) && page[p] == content && p !in where && |old(free)| == |free| + 1
    {
      hide TreeOk, OwnedOk, Pool, Links, SameUserData, SameLeaves, Distinct;
      ghost var a := M();
      p := Kalloc();
      if p != 0 {
        ghost var b := M();
        OutsidePage(b, r, p, content, free);
        LinksSame(b.page, b.page[p := content], free, freelist);
        page := page[p := content];
        FilledPage(a, b, M(), p, content);
      }
    }

    /** uvmdealloc, on an address space of `PGROUNDUP(oldsz)` bytes. */
    method Uvmdealloc(root: nat, oldsz: nat, newsz: nat) returns (sz: nat)
      requires Valid() && Space(M(), root, Pages(oldsz))
      modifies this`page, this`freelist, this`free, this`owned, this`where
      ensures Valid() && sz == (if newsz >= oldsz then oldsz else newsz)
      ensures Space(M(), root, Pages(sz))
      ensures LeavesAre(old(M()), M(), root, Pages(sz), NoEntries(Pages(oldsz) - Pages(sz)))
      ensures owned == Disowned(old(owned), root, Pages(sz), Pages(oldsz) - Pages(sz))
      ensures Pool(M()) == Pool(old(M())) && SameOutside(old(M()), M())
      ensures SameUserData(old(M()).(owned := owned), M())
    {
      hide TreeOk, OwnedOk, FreeOk, PagesOk, LeavesAre, SameUserData, SameOutside, Pool, Links, Disowned, Unmappable;
      ghost var a := M();
      NothingYet(a, r, root, Pages(oldsz));
      DisownedNone(owned, root, Pages(oldsz));
      assert NoEntries(0) == [];
      if newsz >= oldsz {
        return oldsz;
      }
      if Pages(newsz) < Pages(oldsz) {
        Uvmunmap(root, Pages(newsz), Pages(oldsz) - Pages(newsz), true);
        ShrunkSpace(a, M(), r, root, Pages(oldsz), Pages(newsz));
      }
      return newsz;
    }

    /** uvmalloc. 0 means out of memory, and then nothing has changed but spare
        page-table pages; otherwise the new pages are zeroed user memory. */
    method Uvmalloc(root: nat, oldsz: nat, newsz: nat, xperm: nat) returns (sz: nat, ghost frames: seq<nat>)
      requires Valid() && Space(M(), root, Pages(oldsz)) && xperm in {0, PTE_W, PTE_X, PTE_W + PTE_X}
      modifies this`page, this`freelist, this`free, this`owned, this`where
      ensures Valid()
      ensures Pool(M()) == Pool(old(M())) && SameUserData(old(M()), M()) && SameOutside(old(M()), M())
      ensures sz == if newsz < oldsz then oldsz else if |frames| == Pages(newsz) - Pages(oldsz) then newsz else 0
      ensures newsz < oldsz ==> M() == old(M())
      ensures newsz >= oldsz && |frames| < Pages(newsz) - Pages(oldsz) ==>
        && frames == [] && SameLeaves(old(M()), M()) && owned == old(owned) && Space(M(), root, Pages(oldsz))
        && |old(free)| < 3 * (Pages(newsz) - Pages(oldsz))
      ensures newsz >= oldsz && |frames| == Pages(newsz) - Pages(oldsz) ==>
        && Extended(old(M()), M(), r, root, Pages(oldsz), frames, Repeat(PTE_R + PTE_U + xperm, |frames|))
        && AllPages(page, frames, seq(|frames|, _ => ZeroPage()))
        && Space(M(), root, Pages(newsz))
        && forall i :: 0 <= i < |frames| ==>
          && Leaf(page, where, root, Pages(oldsz) + i) == Some(Pte(frames[i], 1 + 2 + 16 + xperm))
          && frames[i] in page && page[frames[i]] == ZeroPage()
    {
      hide TreeOk, OwnedOk, FreeOk, PagesOk, LeavesAre, LeafSet, SameLeaves, SameUserData, SameOutside, Pool, Links;
      hide Unmappable, Distinct, EntriesFor, Extended;
      ghost var a := M();
      frames := [];
      NothingYet(a, r, root, 0);
      if newsz < oldsz {
        return oldsz, [];
      }
      var perm := PTE_R + PTE_U + xperm;
      var n := Pages(oldsz);
      ghost var flags, zeros := Repeat(perm, Pages(newsz) - n), seq(Pages(newsz) - n, _ => ZeroPage());
      ExtendedNone(a, r, root, n, flags);
      var i := n;
      while i * PGSIZE < newsz
        invariant n <= i <= Pages(newsz) && |frames| == i - n && Valid()
        invariant Extended(a, M(), r, root, n, frames, flags) && Space(M(), root, i)
        invariant AllPages(page, frames, zeros) && |a.free| <= |free| + 3 * |frames|
        decreases newsz - i * PGSIZE
      {
        ghost var b := M();
        SpaceFits(b, r, root, i);
        ExtendedOwns(a, b, r, root, n, frames, flags);
        var p := AddUserPage(root, i, perm, ZeroPage());
        ghost var c := M();
        if p == 0 {
          ExtendedGrown(a, b, c, r, root, n, frames, flags);
          SameSpace(b, c, root, i);
          var _ := Uvmdealloc(root, i * PGSIZE, n * PGSIZE);
          RolledBack(a, c, M(), r, root, n, frames, flags);
          SameSpace(a, M(), root, n);
          return 0, [];
        }
        ExtendOne(a, b, c, r, root, n, frames, flags, p);
        AllPagesExtend(b, c, frames, zeros, p);
        frames := frames + [p];
        i := i + 1;
        ExtendedSpace(a, c, r, root, n, frames, flags);
      }
      ExtendedFacts(a, M(), r, root, n, frames, flags);
      ExtendedLeaves(a, M(), r, root, n, frames, flags);
      return newsz, frames;
    }

    /** freewalk on a table whose subtree maps nothing: exactly the tables of the
        subtree go to the free list, each once. `page0` and `where0` describe
        the tree before freeing began. */
    method Freewalk(t: nat, ghost page0: map<nat, Page>, ghost where0: map<nat, Node>)
      requires TreeOk(page0, where0) && t in where0
      requires Links(page, free, freelist) && Distinct(free) && Freeable(page, free, page0, where0, t)
      modifies this`page, this`freelist, this`free
      ensures Links(page, free, freelist) && Distinct(free)
      ensures forall p :: p in free <==> p in old(free) || p in Sub(where0, t)
      ensures page.Keys >= old(page).Keys
      ensures forall p :: p in old(page) && p !in Sub(where0, t) ==> page[p] == old(page)[p]
      decreases where0[t].level, 1
    {
      hide DownOk, UpOk, Links, Distinct, Sub, Below;
      BelowAll(page0, where0, t);
      var i := 0;
      while i < ENTRIES
        invariant 0 <= i <= ENTRIES && Links(page, free, freelist) && Distinct(free)
        invariant Freeing(page, free, old(page), old(free), page0, where0, t, i)
      {
        FreeEntry(t, i, page0, where0, old(page), old(free));
        i := i + 1;
      }
      PushFree(t);
    }

    /** One round of freewalk's loop; the panic "freewalk: leaf" is out of reach. */
    method FreeEntry(t: nat, i: nat, ghost page0: map<nat, Page>, ghost where0: map<nat, Node>,
        ghost pages: map<nat, Page>, ghost frees: seq<nat>)
      requires TreeOk(page0, where0) && t in where0 && i < ENTRIES
      requires Links(page, free, freelist) && Distinct(free) && Freeable(pages, frees, page0, where0, t)
      requires Freeing(page, free, pages, frees, page0, where0, t, i)
      modifies this`page, this`freelist, this`free
      ensures Links(page, free, freelist) && Distinct(free)
      ensures Freeing(page, free, pages, frees, page0, where0, t, i + 1)
      decreases where0[t].level, 0
    {
      hide DownOk, UpOk, Links, Distinct, Sub, Below;
      BelowAll(page0, where0, t);
      if where0[t].level > 0 {
        BelowStep(page0, where0, t, i);
      }
      var pte := page[t][i];
      if V(pte) && !HasRWX(pte) {
        var child := pte.ppn;
        Freewalk(child, page0, where0);
        ghost var before := page;
        assert t !in free;
        page := page[t := page[t][i := ZeroPte]];
        LinksSame(before, page, free, freelist);
      } else {
        assert !V(pte);
      }
    }

    /** uvmcreate: an empty user page table, 0 if there is no memory. */
    method Uvmcreate() returns (root: nat)
      requires Valid()
      modifies this`page, this`freelist, this`free, this`where
      ensures Valid() && Pool(M()) == Pool(old(M())) && SameUserData(old(M()), M()) && SameOutside(old(M()), M())
      ensures root == 0 ==> M() == old(M()) && free == []
      ensures root != 0 ==> root !in old(where) && NewTree(old(M()), M(), root)
    {
      hide TreeOk, OwnedOk, FreeOk, PagesOk, SameUserData, SameOutside, Pool, Links, SameLeaves;
      ghost var a := M();
      NothingYet(a, r, 0, 0);
      root := AllocFilled(ZeroPage());
      if root != 0 {
        ghost var b := M();
        where := where[root := Node(root, 2, 0, root)];
        NewTreeOk(a, b, r, root);
      }
    }

    /** uvmcopy: the child gets its own equal copies of the parent's pages with
        the same flags, or, when memory runs out, nothing changes but spare
        page-table pages. */
    method Uvmcopy(parent: nat, child: nat, sz: nat) returns (ok: bool, ghost frames: seq<nat>)
      requires Valid() && parent != child && Space(M(), parent, Pages(sz)) && Space(M(), child, 0)
      modifies this`page, this`freelist, this`free, this`owned, this`where
      ensures Valid()
      ensures Pool(M()) == Pool(old(M())) && SameUserData(old(M()), M()) && SameOutside(old(M()), M())
      ensures !ok ==> SameLeaves(old(M()), M()) && owned == old(owned) && |old(free)| < 3 * Pages(sz)
      ensures ok ==>
        && |frames| == Pages(sz)
        && Extended(old(M()), M(), r, child, 0, frames, SpaceFlags(old(M()), parent, Pages(sz)))
        && AllPages(page, frames, SpacePages(old(M()), r, parent, Pages(sz)))
        && Space(M(), child, Pages(sz))
        && forall v :: 0 <= v < Pages(sz) ==>
          var was := old(Leaf(page, where, parent, v));
          && was.Some? && was.value.ppn in old(page) && frames[v] in page
          && Leaf(page, where, child, v) == Some(Pte(frames[v], was.value.flags))
          && page[frames[v]] == old(page)[was.value.ppn]
    {
      hide TreeOk, OwnedOk, FreeOk, PagesOk, LeavesAre, LeafSet, SameLeaves, SameUserData, SameOutside, Pool, Links;
      hide Unmappable, Distinct, EntriesFor, Extended;
      ghost var a := M();
      ghost var n := Pages(sz);
      ghost var flags, contents := SpaceFlags(a, parent, n), SpacePages(a, r, parent, n);
      frames := [];
      ExtendedNone(a, r, child, 0, flags);
      SpaceFlagsAreLeaves(a, parent, n);
      var i := 0;
      while i * PGSIZE < sz
        invariant 0 <= i <= n && |frames| == i && Valid()
        invariant Extended(a, M(), r, child, 0, frames, flags) && Space(M(), child, i)
        invariant AllPages(page, frames, contents) && |a.free| <= |free| + 3 * |frames|
        decreases sz - i * PGSIZE
      {
        ghost var b := M();
        ParentUnchanged(a, b, r, parent, child, n, i, frames);
        ExtendedOwns(a, b, r, child, 0, frames, flags);
        SpaceFits(b, r, child, i);
        var t := Walk(parent, i, false);
        var e := page[t][PX(0, i)];
        var p := AddUserPage(child, i, e.flags, page[e.ppn]);
        ghost var c := M();
        if p == 0 {
          ExtendedGrown(a, b, c, r, child, 0, frames, flags);
          RollbackReady(a, c, r, child, 0, frames, flags);
          Uvmunmap(child, 0, i, true);
          RolledBack(a, c, M(), r, child, 0, frames, flags);
          return false, [];
        }
        ExtendOne(a, b, c, r, child, 0, frames, flags, p);
        AllPagesExtend(b, c, frames, contents, p);
        frames := frames + [p];
        i := i + 1;
        ExtendedSpace(a, c, r, child, 0, frames, flags);
      }
      ExtendedFacts(a, M(), r, child, 0, frames, flags);
      ExtendedLeaves(a, M(), r, child, 0, frames, flags);
      CopiedSpace(a, r, parent, n);
      return true, frames;
    }

    /** uvmfree: user memory and page table go back to the free list, every page
        exactly once. */
    method Uvmfree(root: nat, sz: nat)
      requires Valid() && Space(M(), root, Pages(sz))
      requires forall v :: TRAPFRAME <= v < MAXVPN ==> Leaf(page, where, root, v) == None
      modifies this`page, this`freelist, this`free, this`owned, this`where
      ensures Valid() && where == WithoutTree(old(where), root)
      ensures forall p :: p in free <==>
        || p in old(free) || (p in old(where) && old(where)[p].root == root)
        || (p in old(owned) && old(owned)[p].root == root)
      ensures owned == OwnedElsewhere(old(owned), root)
      ensures Pool(M()) == Pool(old(M())) && SameOutside(old(M()), M())
      ensures OtherTrees(old(M()), M(), root)
    {
      hide TreeOk, OwnedOk, FreeOk, PagesOk, LeavesAre, SameUserData, SameOutside, Pool, Links, Disowned, Unmappable;
      hide Distinct, Sub, Freeable, OtherTrees;
      ghost var a := M();
      NothingYet(a, r, root, 0);
      DisownedNone(owned, root, 0);
      if sz > 0 {
        Uvmunmap(root, 0, Pages(sz), true);
      }
      ghost var b := M();
      BareTable(a, b, r, root, Pages(sz));
      BareIsFreeable(b, r, root);
      MemTrees(b, r);
      FreeIsDistinct(b, r);
      Freewalk(root, page, where);
      FreedTree(b, page, free, r, root);
      SubOfRoot(b.page, b.where, root);
      where := WithoutTree(where, root);
      OtherTreesAfter(a, b, M(), root, Pages(sz));
      SameOutsideTrans(a, b, M());
    }
  }
}
