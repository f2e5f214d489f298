/** Copying between the kernel and user memory page by page (copyout, copyin and
    copyinstr of kernel/vm.c). Each page is found by walking the page table. Through the
    flat map that the table stands for, user memory is one string of bytes; the loops
    read and splice that string, up to the first page that the user may not access. */
module UserCopy {
  import opened Blocks
  import opened PageTables
  import opened Memory
  import opened VmSpec
  import opened Vm

  const PAGE := 4096

  type Frame = f: seq<Byte> | |f| == PAGE witness seq(PAGE, _ => 0)

  predicate U(e: Pte) {
    e.flags / PTE_U % 2 == 1
  }

  predicate W(e: Pte) {
    e.flags / PTE_W % 2 == 1
  }

  /** The entries that walk finds in a page table. */
  ghost function FlatMap(m: Mem, root: nat): (leaf: map<nat, Pte>)
    requires TreeOk(m.page, m.where) && IsRoot(m.where, root)
  {
    map v | 0 <= v < MAXVPN && Leaf(m.page, m.where, root, v).Some? :: Leaf(m.page, m.where, root, v).value
  }

  /** A page of the user's own; `leaf` gives the entries that walk finds. */
  predicate UserPage(leaf: map<nat, Pte>, v: nat) {
    v < MAXVPN && v in leaf && V(leaf[v]) && U(leaf[v])
  }

  /** What walkaddr accepts; a frame at address 0 counts as none. */
  predicate Readable(leaf: map<nat, Pte>, v: nat) {
    UserPage(leaf, v) && leaf[v].ppn != 0
  }

  predicate Writable(leaf: map<nat, Pte>, v: nat) {
    UserPage(leaf, v) && W(leaf[v])
  }

  /** Which bits of an entry decide. */
  lemma AccessBits(leaf: map<nat, Pte>, v: nat)
    ensures Readable(leaf, v) <==>
      v < 0x400_0000 && v in leaf && leaf[v].flags % 2 == 1 && leaf[v].flags / 16 % 2 == 1 && leaf[v].ppn != 0
    ensures Writable(leaf, v) <==>
      && v < 0x400_0000 && v in leaf && leaf[v].flags % 2 == 1 && leaf[v].flags / 16 % 2 == 1
      && leaf[v].flags / 4 % 2 == 1
  {}

  /** The user's pages have frames, and no two share one. */
  ghost predicate Apart(leaf: map<nat, Pte>, phys: map<nat, Frame>) {
    && (forall v :: UserPage(leaf, v) ==> leaf[v].ppn in phys)
    && (forall v, w :: UserPage(leaf, v) && UserPage(leaf, w) && v != w ==> leaf[v].ppn != leaf[w].ppn)
  }

  /** The address spaces that the kernel builds are of this kind. */
  lemma SpaceApart(m: Mem, r: Range, root: nat, n: nat, v: nat, w: nat)
    requires MemOk(m, r) && Space(m, root, n) && v < n && w < n
    ensures
      var e, f := Leaf(m.page, m.where, root, v), Leaf(m.page, m.where, root, w);
      e.Some? && f.Some? && (e.value.ppn == f.value.ppn ==> v == w)
  {
    hide TreeOk, FreeOk;
    assert Unmappable(m, root, v, true) && Unmappable(m, root, w, true);
  }

  /** Memory that uvmalloc adds is the user's own up to the last byte: copyin may read
      it, and copyout may write it if and only if PTE_W was asked for. */
  lemma GrownIsUsable(a: Mem, b: Mem, r: Range, root: nat, oldsz: nat, newsz: nat, frames: seq<nat>, xperm: nat, x: nat)
    requires xperm in {0, PTE_W, PTE_X, PTE_W + PTE_X} && IsRoot(b.where, root) && MemOk(b, r)
    requires Extended(a, b, r, root, Pages(oldsz), frames, Repeat(PTE_R + PTE_U + xperm, |frames|))
    requires |frames| == Pages(newsz) - Pages(oldsz) && Pages(newsz) <= MAXVPN
    requires Pages(oldsz) * 4096 <= x < newsz
    ensures
      var leaf := FlatMap(b, root);
      Readable(leaf, x / 4096) && (Writable(leaf, x / 4096) <==> xperm == PTE_W || xperm == PTE_W + PTE_X)
  {
    hide TreeOk, OwnedOk, FreeOk, PagesOk, Extended, Pages;
    var v := x / 4096;
    ExtendedLeaf(a, b, r, root, Pages(oldsz), frames, Repeat(PTE_R + PTE_U + xperm, |frames|), v - Pages(oldsz));
    assert v in FlatMap(b, root);
  }

  /** The byte at user address `x`. */
  ghost function At(leaf: map<nat, Pte>, phys: map<nat, Frame>, x: nat): (b: Byte)
    requires UserPage(leaf, x / PAGE) && leaf[x / PAGE].ppn in phys
  {
    phys[leaf[x / PAGE].ppn][x % PAGE]
  }

  /** Every page from that of `va` to that of the last of `n` bytes. */
  ghost predicate AllReadable(leaf: map<nat, Pte>, va: nat, n: nat) {
    n > 0 ==> forall v :: va / PAGE <= v <= (va + n - 1) / PAGE ==> Readable(leaf, v)
  }

  ghost predicate AllWritable(leaf: map<nat, Pte>, va: nat, n: nat) {
    n > 0 ==> forall v :: va / PAGE <= v <= (va + n - 1) / PAGE ==> Writable(leaf, v)
  }

  /** User memory read as a string. */
  ghost predicate Reads(leaf: map<nat, Pte>, phys: map<nat, Frame>, va: nat, s: seq<Byte>) {
    forall i :: 0 <= i < |s| ==> ReadsAt(leaf, phys, va + i, s[i])
  }

  ghost predicate ReadsAt(leaf: map<nat, Pte>, phys: map<nat, Frame>, x: nat, b: Byte) {
    UserPage(leaf, x / PAGE) && leaf[x / PAGE].ppn in phys && At(leaf, phys, x) == b
  }

  /** `s` was spliced into user memory at `va`, and nothing else has changed. */
  ghost predicate Spliced(leaf: map<nat, Pte>, phys: map<nat, Frame>, phys': map<nat, Frame>, va: nat, s: seq<Byte>) {
    && phys'.Keys == phys.Keys
    && (forall x: nat :: UserPage(leaf, x / PAGE) && leaf[x / PAGE].ppn in phys ==>
          At(leaf, phys', x) == if va <= x < va + |s| then s[x - va] else At(leaf, phys, x))
    && (forall p :: p in phys && phys'[p] != phys[p] ==> exists v :: Writable(leaf, v) && leaf[v].ppn == p)
  }

  /** How much of `left` bytes at `va` lies in its page. */
  function Piece(va: nat, left: nat): (m: nat)
    ensures m <= left && va % PAGE + m <= PAGE && (left > 0 ==> m > 0)
    ensures m < left ==> (va + m) % PAGE == 0
  {
    var n := PAGE - va % PAGE;
    if n > left then left else n
  }

  lemma InPage(va: nat, i: nat)
    requires va % PAGE + i < PAGE
    ensures (va + i) / PAGE == va / PAGE && (va + i) % PAGE == va % PAGE + i
  {}

  function Put(f: Frame, off: nat, s: seq<Byte>): (r: Frame)
    requires off + |s| <= PAGE
  {
    f[..off] + s + f[off + |s|..]
  }

  /** One memmove into the page of `va`, seen at address `x`. */
  lemma PutAt(leaf: map<nat, Pte>, phys: map<nat, Frame>, va: nat, s: seq<Byte>, x: nat)
    requires Apart(leaf, phys) && UserPage(leaf, va / PAGE) && va % PAGE + |s| <= PAGE && UserPage(leaf, x / PAGE)
    ensures
      var p := leaf[va / PAGE].ppn;
      At(leaf, phys[p := Put(phys[p], va % PAGE, s)], x) == if va <= x < va + |s| then s[x - va] else At(leaf, phys, x)
  {
    hide UserPage;
    if va <= x < va + |s| {
      InPage(va, x - va);
    } else if x / PAGE == va / PAGE {
      assert x % PAGE < va % PAGE || x % PAGE >= va % PAGE + |s|;
    }
  }

  lemma PutSpliced(leaf: map<nat, Pte>, phys0: map<nat, Frame>, phys: map<nat, Frame>, va: nat, s: seq<Byte>,
      t: seq<Byte>)
    requires Apart(leaf, phys) && Spliced(leaf, phys0, phys, va, s) && Writable(leaf, (va + |s|) / PAGE)
    requires (va + |s|) % PAGE + |t| <= PAGE
    ensures
      var p := leaf[(va + |s|) / PAGE].ppn;
      Spliced(leaf, phys0, phys[p := Put(phys[p], (va + |s|) % PAGE, t)], va, s + t)
  {
    hide Put, At;
    var p := leaf[(va + |s|) / PAGE].ppn;
    var phys' := phys[p := Put(phys[p], (va + |s|) % PAGE, t)];
    forall x: nat | UserPage(leaf, x / PAGE) && leaf[x / PAGE].ppn in phys0
      ensures At(leaf, phys', x) == if va <= x < va + |s + t| then (s + t)[x - va] else At(leaf, phys0, x)
    {
      PutAt(leaf, phys, va + |s|, t, x);
    }
  }

  lemma SplicedNothing(leaf: map<nat, Pte>, phys: map<nat, Frame>, va: nat)
    ensures Spliced(leaf, phys, phys, va, [])
  {
    hide At;
  }

  /** The pages of a longer stretch. */
  lemma MorePages(va: nat, n: nat, m: nat, v: nat)
    requires m > 0 && (va + n) % PAGE + m <= PAGE
    ensures va / PAGE <= v <= (va + n + m - 1) / PAGE <==>
      (n > 0 && va / PAGE <= v <= (va + n - 1) / PAGE) || v == (va + n) / PAGE
  {
    InPage(va + n, m - 1);
  }

  lemma MoreWritable(leaf: map<nat, Pte>, va: nat, n: nat, m: nat)
    requires m > 0 && (va + n) % PAGE + m <= PAGE
    ensures AllWritable(leaf, va, n + m) <==> AllWritable(leaf, va, n) && Writable(leaf, (va + n) / PAGE)
  {
    hide Writable;
    MorePages(va, n, m, (va + n) / PAGE);
    if AllWritable(leaf, va, n + m) {
      forall v | n > 0 && va / PAGE <= v <= (va + n - 1) / PAGE
        ensures Writable(leaf, v)
      {
        MorePages(va, n, m, v);
      }
    } else if AllWritable(leaf, va, n) && Writable(leaf, (va + n) / PAGE) {
      forall v | va / PAGE <= v <= (va + n + m - 1) / PAGE
        ensures Writable(leaf, v)
      {
        MorePages(va, n, m, v);
      }
    }
  }

  lemma MoreReadable(leaf: map<nat, Pte>, va: nat, n: nat, m: nat)
    requires m > 0 && (va + n) % PAGE + m <= PAGE
    ensures AllReadable(leaf, va, n + m) <==> AllReadable(leaf, va, n) && Readable(leaf, (va + n) / PAGE)
  {
    hide Readable;
    MorePages(va, n, m, (va + n) / PAGE);
    if AllReadable(leaf, va, n + m) {
      forall v | n > 0 && va / PAGE <= v <= (va + n - 1) / PAGE
        ensures Readable(leaf, v)
      {
        MorePages(va, n, m, v);
      }
    } else if AllReadable(leaf, va, n) && Readable(leaf, (va + n) / PAGE) {
      forall v | va / PAGE <= v <= (va + n + m - 1) / PAGE
        ensures Readable(leaf, v)
      {
        MorePages(va, n, m, v);
      }
    }
  }

  /** A page on the way that is not accessible. */
  lemma Stuck(leaf: map<nat, Pte>, va: nat, n: nat, len: nat)
    requires n < len
    ensures AllWritable(leaf, va, len) ==> Writable(leaf, (va + n) / PAGE)
    ensures AllReadable(leaf, va, len) ==> Readable(leaf, (va + n) / PAGE)
  {
    assert va / PAGE <= (va + n) / PAGE <= (va + len - 1) / PAGE;
  }

  /** One memmove out of the page of `va`. */
  lemma GotPiece(leaf: map<nat, Pte>, phys: map<nat, Frame>, va: nat, s: seq<Byte>, m: nat)
    requires Apart(leaf, phys) && Reads(leaf, phys, va, s) && UserPage(leaf, (va + |s|) / PAGE)
    requires (va + |s|) % PAGE + m <= PAGE
    ensures
      var f := phys[leaf[(va + |s|) / PAGE].ppn];
      Reads(leaf, phys, va, s + f[(va + |s|) % PAGE..(va + |s|) % PAGE + m])
  {
    var off := (va + |s|) % PAGE;
    var t := s + phys[leaf[(va + |s|) / PAGE].ppn][off..off + m];
    forall i | 0 <= i < |t|
      ensures ReadsAt(leaf, phys, va + i, t[i])
    {
      if i < |s| {
        assert ReadsAt(leaf, phys, va + i, s[i]);
      } else {
        InPage(va + |s|, i - |s|);
      }
    }
  }

  /** What copyout wrote, copyin reads. */
  lemma WrittenIsRead(leaf: map<nat, Pte>, phys: map<nat, Frame>, phys': map<nat, Frame>, va: nat, s: seq<Byte>,
      t: seq<Byte>)
    requires Spliced(leaf, phys, phys', va, s) && Reads(leaf, phys', va, t) && |t| == |s|
    ensures t == s
  {
    hide At;
    forall i | 0 <= i < |s|
      ensures t[i] == s[i]
    {
      assert ReadsAt(leaf, phys', va + i, t[i]);
    }
  }

  /** A process's memory: its page table, and the bytes of the frames. */
  class UserMemory {
    const kernel: Kernel
    const root: nat
    var phys: map<nat, Frame>

    constructor (kernel: Kernel, root: nat, phys: map<nat, Frame>)
      ensures this.kernel == kernel && this.root == root && this.phys == phys
    {
      this.kernel, this.root, this.phys := kernel, root, phys;
    }

    ghost predicate Valid()
      reads this, kernel
    {
      && kernel.Valid() && TreeOk(kernel.page, kernel.where) && IsRoot(kernel.where, root) && Apart(Leaves(), phys)
    }

    ghost function Leaves(): (leaf: map<nat, Pte>)
      requires TreeOk(kernel.page, kernel.where) && IsRoot(kernel.where, root)
      reads this, kernel
    {
      FlatMap(kernel.M(), root)
    }

    /** walk for user address `va`: the entry of a page of the user's own. */
    method Find(va: nat) returns (e: Option<Pte>)
      requires Valid()
      modifies kernel
      ensures Valid() && kernel.M() == old(kernel.M()) && Leaves() == old(Leaves())
      ensures
        var v := va / PAGE;
        if UserPage(Leaves(), v) then e == Some(Leaves()[v]) else e == None
    {
      hide Kernel.Valid, Apart, TreeOk;
      var v := va / PAGE;
      if v >= MAXVPN {
        return None;
      }
      e := kernel.Lookup(root, v);
      if e.Some? && !(V(e.value) && U(e.value)) {
        e := None;
      }
    }

    /** copyout: `n` bytes arrive, all of them if and only if every page is writable. */
    method Copyout(dstva: nat, src: seq<Byte>) returns (r: int, ghost n: nat)
      requires Valid()
      modifies this`phys, kernel
      ensures Valid() && kernel.M() == old(kernel.M()) && Leaves() == old(Leaves())
      ensures n <= |src| && Spliced(Leaves(), old(phys), phys, dstva, src[..n])
      ensures r == if AllWritable(Leaves(), dstva, |src|) then 0 else -1
      ensures AllWritable(Leaves(), dstva, n)
      ensures if r == 0 then n == |src| else n < |src| && !Writable(Leaves(), (dstva + n) / PAGE)
    {
      hide Apart, Spliced, AllWritable, Put, Kernel.Valid, TreeOk, FlatMap;
      var va, i := dstva, 0;
      ghost var leaf := Leaves();
      SplicedNothing(leaf, phys, dstva);
      NoPages(leaf, dstva);
      while i < |src|
        invariant i <= |src| && va == dstva + i && Valid() && kernel.M() == old(kernel.M()) && Leaves() == leaf
        invariant Spliced(leaf, old(phys), phys, dstva, src[..i]) && AllWritable(leaf, dstva, i)
      {
        var e := Find(va);
        if e.None? || !W(e.value) {
          Stuck(leaf, dstva, i, |src|);
          return -1, i;
        }
        var m := Piece(va, |src| - i);
        var p := e.value.ppn;
        FrameExists(leaf, phys, va / PAGE);
        PutSpliced(leaf, old(phys), phys, dstva, src[..i], src[i..i + m]);
        PutApart(leaf, phys, p, Put(phys[p], va % PAGE, src[i..i + m]));
        MoreWritable(leaf, dstva, i, m);
        assert src[..i] + src[i..i + m] == src[..i + m];
        phys := phys[p := Put(phys[p], va % PAGE, src[i..i + m])];
        i, va := i + m, va + m;
      }
      assert src[..i] == src;
      return 0, i;
    }

    /** copyin: the string in user memory, all of it if and only if every page is readable. */
    method Copyin(srcva: nat, len: nat) returns (r: int, dst: seq<Byte>)
      requires Valid()
      modifies kernel
      ensures Valid() && kernel.M() == old(kernel.M()) && Leaves() == old(Leaves())
      ensures Reads(Leaves(), phys, srcva, dst) && |dst| <= len
      ensures r == if AllReadable(Leaves(), srcva, len) then 0 else -1
      ensures AllReadable(Leaves(), srcva, |dst|)
      ensures if r == 0 then |dst| == len else |dst| < len && !Readable(Leaves(), (srcva + |dst|) / PAGE)
    {
      hide Apart, Reads, AllReadable, Kernel.Valid, TreeOk, FlatMap;
      var va, i := srcva, 0;
      ghost var leaf := Leaves();
      dst := [];
      NothingRead(leaf, phys, srcva);
      NoPages(leaf, srcva);
      while i < len
        invariant i == |dst| <= len && va == srcva + i && Valid() && kernel.M() == old(kernel.M()) && Leaves() == leaf
        invariant Reads(leaf, phys, srcva, dst) && AllReadable(leaf, srcva, i)
      {
        var e := Find(va);
        if e.None? || e.value.ppn == 0 {
          Stuck(leaf, srcva, i, len);
          return -1, dst;
        }
        var m := Piece(va, len - i);
        FrameExists(leaf, phys, va / PAGE);
        GotPiece(leaf, phys, srcva, dst, m);
        MoreReadable(leaf, srcva, i, m);
        dst := dst + phys[e.value.ppn][va % PAGE..va % PAGE + m];
        i, va := i + m, va + m;
      }
      return 0, dst;
    }

    /** The inner loop of copyinstr: `m` bytes of a frame, or up to a NUL. */
    static method UpToNul(f: Frame, off: nat, m: nat) returns (t: seq<Byte>)
      requires off + m <= PAGE
      ensures |t| <= m && t == f[off..off + |t|] && (m > 0 ==> t != [])
      ensures forall i :: 0 <= i < |t| - 1 ==> t[i] != 0
      ensures |t| < m ==> t != [] && t[|t| - 1] == 0
    {
      t := [];
      while |t| < m
        invariant |t| <= m && t == f[off..off + |t|] && forall i :: 0 <= i < |t| ==> t[i] != 0
      {
        t := t + [f[off + |t|]];
        if t[|t| - 1] == 0 {
          return;
        }
      }
    }

    /** copyinstr: the string in user memory up to and with its first NUL; -1 if that
        is not among the first `max` bytes or lies behind an unreadable page. */
    method Copyinstr(srcva: nat, max: nat) returns (r: int, dst: seq<Byte>)
      requires Valid()
      modifies kernel
      ensures Valid() && kernel.M() == old(kernel.M()) && Leaves() == old(Leaves())
      ensures Reads(Leaves(), phys, srcva, dst) && |dst| <= max && AllReadable(Leaves(), srcva, |dst|)
      ensures r == 0 || r == -1
      ensures r == 0 ==> |dst| > 0 && dst[|dst| - 1] == 0 && forall i :: 0 <= i < |dst| - 1 ==> dst[i] != 0
      ensures r == -1 ==>
        (forall i :: 0 <= i < |dst| ==> dst[i] != 0) && (|dst| == max || !Readable(Leaves(), (srcva + |dst|) / PAGE))
    {
      hide Apart, Reads, AllReadable, Kernel.Valid, TreeOk, FlatMap;
      var va := srcva;
      ghost var leaf := Leaves();
      dst := [];
      NothingRead(leaf, phys, srcva);
      NoPages(leaf, srcva);
      while |dst| < max
        invariant |dst| <= max && va == srcva + |dst| && Valid() && kernel.M() == old(kernel.M()) && Leaves() == leaf
        invariant Reads(leaf, phys, srcva, dst) && AllReadable(leaf, srcva, |dst|)
        invariant forall i :: 0 <= i < |dst| ==> dst[i] != 0
      {
        var e := Find(va);
        if e.None? || e.value.ppn == 0 {
          return -1, dst;
        }
        var m := Piece(va, max - |dst|);
        FrameExists(leaf, phys, va / PAGE);
        var f := phys[e.value.ppn];
        var t := UpToNul(f, va % PAGE, m);
        GotPiece(leaf, phys, srcva, dst, |t|);
        MoreReadable(leaf, srcva, |dst|, |t|);
        dst := dst + t;
        if dst[|dst| - 1] == 0 {
          return 0, dst;
        }
        va := va + |t|;
      }
      return -1, dst;
    }
  }

  lemma NoPages(leaf: map<nat, Pte>, va: nat)
    ensures AllWritable(leaf, va, 0) && AllReadable(leaf, va, 0)
  {}

  lemma NothingRead(leaf: map<nat, Pte>, phys: map<nat, Frame>, va: nat)
    ensures Reads(leaf, phys, va, [])
  {}

  lemma FrameExists(leaf: map<nat, Pte>, phys: map<nat, Frame>, v: nat)
    requires Apart(leaf, phys) && UserPage(leaf, v)
    ensures leaf[v].ppn in phys
  {}

  lemma PutApart(leaf: map<nat, Pte>, phys: map<nat, Frame>, p: nat, f: Frame)
    requires Apart(leaf, phys)
    ensures Apart(leaf, phys[p := f])
  {}
}
