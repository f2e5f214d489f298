/** kernel/fs.c: the in-memory inode table under concurrent use. A token stands for
    one pointer to a table entry; each step is what happens in one critical section
    of itable.lock, or in one go under an inode's sleep-lock or a buffer's lock. */
module InodeTable {
  type Token = nat

  datatype Option<T> = None | Some(value: T)

  datatype Dinode = Dinode(typ: nat, nlink: nat, size: nat, addrs: seq<nat>)

  /** From `d` to `c` an inode has only grown: its size, and the block numbers in it. */
  predicate Grows(d: Dinode, c: Dinode) {
    && d.typ == c.typ && d.size <= c.size && |d.addrs| == |c.addrs|
    && forall i :: 0 <= i < |d.addrs| && d.addrs[i] != 0 ==> c.addrs[i] == d.addrs[i]
  }

  /** They have the same contents. */
  predicate SameMap(d: Dinode, c: Dinode) {
    d.size == c.size && d.addrs == c.addrs
  }

  /** No size and no blocks. */
  predicate Blank(d: Dinode) {
    d.size == 0 && forall i :: 0 <= i < |d.addrs| ==> d.addrs[i] == 0
  }

  /** itrunc's inode */
  function Emptied(d: Dinode): (r: Dinode) {
    d.(size := 0, addrs := seq(|d.addrs|, _ => 0))
  }

  /** What the owner of a token is doing: just holding the reference, holding the
      inode's lock, or somewhere in the freeing branch of iput. */
  datatype Pc = Ref | Held | Trunc | Wipe | Wiped | Cleared | Drop

  datatype Tok = Tok(slot: nat, pc: Pc)

  /** `owed` is history that the code does not keep: a change of the copy's size or block
      numbers since it was read in has not been followed by iupdate. */
  datatype Entry = Entry(inum: nat, ref: nat, valid: bool, copy: Dinode, lock: Option<Token>, users: set<Token>,
    owed: bool)

  /** `marked` are the inodes that ialloc has marked on disk and not yet looked up. */
  datatype State = State(disk: seq<Dinode>, table: seq<Entry>, tok: map<Token, Tok>, marked: set<nat>)

  predicate Locks(pc: Pc) {
    pc.Held? || pc.Trunc? || pc.Wipe? || pc.Wiped? || pc.Cleared?
  }

  // ----- Looking up an entry -----

  predicate Live(table: seq<Entry>, inum: nat, i: nat) {
    i < |table| && table[i].ref > 0 && table[i].inum == inum
  }

  /** The entry that iget settles on: the live one for `inum`, or else the first
      unused one, or else none. */
  ghost predicate Found(table: seq<Entry>, inum: nat, e: nat) {
    if e < |table| && table[e].ref > 0 then table[e].inum == inum
    else
      && (forall i :: 0 <= i < |table| ==> !Live(table, inum, i))
      && e <= |table| && forall i :: 0 <= i < e ==> table[i].ref > 0
  }

  /** iget's loop. */
  method Find(table: seq<Entry>, inum: nat) returns (e: nat)
    ensures Found(table, inum, e)
  {
    e := |table|;
    for i := 0 to |table|
      invariant forall j :: 0 <= j < i ==> !Live(table, inum, j)
      invariant e == |table| || (e < i && table[e].ref == 0)
      invariant forall j :: 0 <= j < (if e == |table| then i else e) ==> table[j].ref > 0
    {
      if table[i].ref > 0 && table[i].inum == inum {
        return i;
      }
      if e == |table| && table[i].ref == 0 {
        e := i;
      }
    }
  }

  // ----- Steps -----

  datatype Event =
    | Get(k: Token, inum: nat, e: nat)        // iget of a linked inode, finding entry e
    | Dup(k: Token, j: Token)
    | Lock(k: Token)
    | Change(k: Token, d: Dinode)             // the lock holder changes links, or adds to size or blocks
    | Empty(k: Token)                         // the lock holder's itrunc
    | Update(k: Token)                        // iupdate
    | Unlock(k: Token)
    | Mark(inum: nat, typ: nat)               // ialloc, first half
    | GetMarked(k: Token, inum: nat, e: nat)  // ialloc, second half
    | Put(k: Token)                           // iput, nothing to free
    | PutFree(k: Token)                       // iput up to the release of itable.lock
    | Truncate(k: Token)                      // itrunc
    | SetFree(k: Token)                       // type = 0 and iupdate
    | SetInvalid(k: Token)                    // valid = 0
    | Release(k: Token)                       // releasesleep
    | DropRef(k: Token)                       // ref-- at the end

  predicate Has(s: State, k: Token, pc: Pc) {
    k in s.tok && s.tok[k].pc == pc && s.tok[k].slot < |s.table|
  }

  function EntryOf(s: State, k: Token): (e: Entry)
    requires k in s.tok && s.tok[k].slot < |s.table|
  {
    s.table[s.tok[k].slot]
  }

  /** The test that decides whether iput frees the inode. */
  predicate LastUnlinked(e: Entry) {
    e.ref == 1 && e.valid && e.copy.nlink == 0
  }

  ghost predicate Enabled(s: State, ev: Event) {
    match ev
    case Get(k, inum, e) =>
      && k !in s.tok && inum < |s.disk| && s.disk[inum].typ != 0 && s.disk[inum].nlink > 0 && e < |s.table|
      && Found(s.table, inum, e)
    case Dup(k, j) => (Has(s, k, Ref) || Has(s, k, Held)) && j !in s.tok
    case Lock(k) => Has(s, k, Ref) && EntryOf(s, k).lock == None && EntryOf(s, k).inum < |s.disk|
    case Change(k, d) => Has(s, k, Held) && Grows(EntryOf(s, k).copy, d)
    case Empty(k) => Has(s, k, Held) && EntryOf(s, k).inum < |s.disk|
    case Update(k) => Has(s, k, Held) && EntryOf(s, k).inum < |s.disk|
    case Unlock(k) =>
      && Has(s, k, Held) && EntryOf(s, k).inum < |s.disk|
      && EntryOf(s, k).copy.nlink == s.disk[EntryOf(s, k).inum].nlink
    case Mark(inum, typ) => inum < |s.disk| && s.disk[inum].typ == 0 && typ != 0
    case GetMarked(k, inum, e) => k !in s.tok && inum in s.marked && e < |s.table| && Found(s.table, inum, e)
    case Put(k) => Has(s, k, Ref) && EntryOf(s, k).ref > 0 && !LastUnlinked(EntryOf(s, k))
    case PutFree(k) => Has(s, k, Ref) && LastUnlinked(EntryOf(s, k))
    case Truncate(k) => Has(s, k, Trunc) && EntryOf(s, k).inum < |s.disk|
    case SetFree(k) => Has(s, k, Wipe) && EntryOf(s, k).inum < |s.disk|
    case SetInvalid(k) => Has(s, k, Wiped)
    case Release(k) => Has(s, k, Cleared)
    case DropRef(k) => Has(s, k, Drop) && EntryOf(s, k).ref > 0
  }

  function Put1(s: State, i: nat, e: Entry): (r: State)
    requires i < |s.table|
  {
    s.(table := s.table[i := e])
  }

  function SetPc(s: State, k: Token, pc: Pc): (r: State)
    requires k in s.tok
  {
    s.(tok := s.tok[k := s.tok[k].(pc := pc)])
  }

  /** iget: one more reference, in a recycled entry if need be. */
  function Attach(s: State, k: Token, inum: nat, e: nat): (r: State)
    requires e < |s.table|
  {
    var x := s.table[e];
    var y := if x.ref > 0 then x.(ref := x.ref + 1, users := x.users + {k})
             else x.(inum := inum, ref := 1, valid := false, users := {k});
    Put1(s, e, y).(tok := s.tok[k := Tok(e, Ref)])
  }

  function Detach(s: State, k: Token): (r: State)
    requires k in s.tok && s.tok[k].slot < |s.table| && EntryOf(s, k).ref > 0
  {
    var x := EntryOf(s, k);
    Put1(s, s.tok[k].slot, x.(ref := x.ref - 1, users := x.users - {k})).(tok := s.tok - {k})
  }

  /** The copy becomes `d`, and iupdate writes it to disk. */
  function Store(s: State, k: Token, d: Dinode): (r: State)
    requires k in s.tok && s.tok[k].slot < |s.table| && EntryOf(s, k).inum < |s.disk|
  {
    Put1(s, s.tok[k].slot, EntryOf(s, k).(copy := d, owed := false)).(disk := s.disk[EntryOf(s, k).inum := d])
  }

  ghost function Step(s: State, ev: Event): (r: State)
    requires Enabled(s, ev)
  {
    match ev
    case Get(k, inum, e) => Attach(s, k, inum, e)
    case Dup(k, j) =>
      var x := EntryOf(s, k);
      Put1(s, s.tok[k].slot, x.(ref := x.ref + 1, users := x.users + {j})).(tok := s.tok[j := Tok(s.tok[k].slot, Ref)])
    case Lock(k) =>
      var x := EntryOf(s, k);
      var y := if x.valid then x.(lock := Some(k))
               else x.(lock := Some(k), valid := true, copy := s.disk[x.inum], owed := false);
      SetPc(Put1(s, s.tok[k].slot, y), k, Held)
    case Change(k, d) =>
      var x := EntryOf(s, k);
      Put1(s, s.tok[k].slot, x.(copy := d, owed := x.owed || !SameMap(x.copy, d)))
    case Empty(k) => Store(s, k, Emptied(EntryOf(s, k).copy))
    case Update(k) => Store(s, k, EntryOf(s, k).copy)
    case Unlock(k) => SetPc(Put1(s, s.tok[k].slot, EntryOf(s, k).(lock := None)), k, Ref)
    case Mark(inum, typ) =>
      s.(disk := s.disk[inum := Emptied(s.disk[inum]).(typ := typ, nlink := 0)], marked := s.marked + {inum})
    case GetMarked(k, inum, e) => Attach(s, k, inum, e).(marked := s.marked - {inum})
    case Put(k) => Detach(s, k)
    case PutFree(k) => SetPc(Put1(s, s.tok[k].slot, EntryOf(s, k).(lock := Some(k))), k, Trunc)
    case Truncate(k) => SetPc(Store(s, k, Emptied(EntryOf(s, k).copy)), k, Wipe)
    case SetFree(k) => SetPc(Store(s, k, EntryOf(s, k).copy.(typ := 0)), k, Wiped)
    case SetInvalid(k) => SetPc(Put1(s, s.tok[k].slot, EntryOf(s, k).(valid := false)), k, Cleared)
    case Release(k) => SetPc(Put1(s, s.tok[k].slot, EntryOf(s, k).(lock := None)), k, Drop)
    case DropRef(k) => Detach(s, k)
  }

  // ----- The invariant -----

  /** The copy is ahead of the disk in size and blocks if and only if iupdate is owed. */
  predicate Tracks(d: Dinode, c: Dinode, owed: bool) {
    Grows(d, c) && (SameMap(d, c) <==> !owed)
  }

  ghost predicate EntryOk(s: State, e: nat)
    requires e < |s.table|
  {
    var x := s.table[e];
    && x.ref == |x.users| && (forall k :: k in x.users ==> k in s.tok && s.tok[k].slot == e)
    && (x.lock.Some? ==> x.lock.value in x.users && Locks(s.tok[x.lock.value].pc))
    && (x.ref > 0 ==> x.inum < |s.disk|)
    && (x.ref > 0 && x.valid && x.lock.None? ==>
         x.copy.typ != 0 && x.copy.nlink == s.disk[x.inum].nlink && Tracks(s.disk[x.inum], x.copy, x.owed))
  }

  ghost predicate TokenOk(s: State, k: Token)
    requires k in s.tok
  {
    && s.tok[k].slot < |s.table|
    && (var x, pc := EntryOf(s, k), s.tok[k].pc;
        && k in x.users && x.inum < |s.disk| && (Locks(pc) <==> x.lock == Some(k))
        && (pc.Ref? || pc.Held? ==> s.disk[x.inum].typ != 0)
        && (pc.Held? ==> x.valid && x.copy.typ != 0 && Tracks(s.disk[x.inum], x.copy, x.owed))
        && (pc.Trunc? || pc.Wipe? ==>
             && x.users == {k} && x.valid && x.copy.nlink == 0 == s.disk[x.inum].nlink
             && x.copy.typ == s.disk[x.inum].typ != 0 && (pc.Wipe? ==> Blank(x.copy)))
        && (pc.Wiped? ==> x.valid) && (pc.Cleared? ==> !x.valid))
  }

  /** At most one live entry per inode. */
  ghost predicate Single(table: seq<Entry>) {
    forall i, j :: 0 <= i < j < |table| && table[i].ref > 0 && table[j].ref > 0 ==> table[i].inum != table[j].inum
  }

  /** An inode between the two halves of ialloc is in nobody's use. */
  ghost predicate MarkedOk(s: State, n: nat) {
    && n < |s.disk| && s.disk[n].typ != 0 && s.disk[n].nlink == 0 && Blank(s.disk[n])
    && (forall e :: 0 <= e < |s.table| && Live(s.table, n, e) && s.table[e].lock.None? ==> !s.table[e].valid)
    && forall k :: k in s.tok && s.tok[k].slot < |s.table| && EntryOf(s, k).inum == n ==>
         s.tok[k].pc.Wiped? || s.tok[k].pc.Cleared? || s.tok[k].pc.Drop?
  }

  ghost predicate Inv(s: State) {
    && (forall e :: 0 <= e < |s.table| ==> EntryOk(s, e)) && (forall k :: k in s.tok ==> TokenOk(s, k))
    && Single(s.table) && forall n :: n in s.marked ==> MarkedOk(s, n)
  }

  /** An empty table; `d` is what its copies happen to hold. */
  function Init(disk: seq<Dinode>, n: nat, d: Dinode): (s: State) {
    State(disk, seq(n, _ => Entry(0, 0, false, d, None, {}, false)), map[], {})
  }

  lemma InitInv(disk: seq<Dinode>, n: nat, d: Dinode)
    ensures Inv(Init(disk, n, d))
  {}

  // ----- Every step keeps the invariant -----

  /** `r` differs from `s` only in entry `e`, its tokens, and its inode on disk. */
  ghost predicate Framed(s: State, r: State, e: nat) {
    && |r.table| == |s.table| && |r.disk| == |s.disk| && e < |s.table|
    && (forall i :: 0 <= i < |s.table| && i != e ==> r.table[i] == s.table[i])
    && (forall k :: k in s.tok && s.tok[k].slot != e ==> k in r.tok && r.tok[k] == s.tok[k])
    && (forall k :: k in r.tok && r.tok[k].slot != e ==> k in s.tok && r.tok[k] == s.tok[k])
    && (forall n :: 0 <= n < |s.disk| && r.disk[n] != s.disk[n] ==> r.table[e].ref > 0 && n == r.table[e].inum)
  }

  lemma FrameKeeps(s: State, r: State, e: nat)
    requires Inv(s) && Framed(s, r, e) && Single(r.table)
    ensures forall i :: 0 <= i < |r.table| && i != e ==> EntryOk(r, i)
    ensures forall k :: k in r.tok && r.tok[k].slot != e ==> TokenOk(r, k)
  {
    forall i | 0 <= i < |r.table| && i != e
      ensures EntryOk(r, i)
    {
      assert EntryOk(s, i);
    }
    forall k | k in r.tok && r.tok[k].slot != e
      ensures TokenOk(r, k)
    {
      assert TokenOk(s, k) && EntryOk(s, s.tok[k].slot);
    }
  }

  lemma LocalKeeps(s: State, r: State, e: nat)
    requires Inv(s) && Framed(s, r, e) && Single(r.table) && EntryOk(r, e)
    requires forall k :: k in r.tok && r.tok[k].slot == e ==> TokenOk(r, k)
    requires forall n :: n in r.marked ==> MarkedOk(r, n)
    ensures Inv(r)
  {
    hide EntryOk, TokenOk, MarkedOk, Single, Framed;
    FrameKeeps(s, r, e);
    forall i | 0 <= i < |r.table|
      ensures EntryOk(r, i)
    {}
    forall k | k in r.tok
      ensures TokenOk(r, k)
    {}
  }

  /** Inodes between the halves of ialloc are not touched by what others do. */
  lemma MarkedKept(s: State, r: State, e: nat)
    requires Inv(s) && Framed(s, r, e) && r.marked <= s.marked
    requires s.table[e].ref > 0 && r.table[e].inum == s.table[e].inum
    requires s.table[e].inum in r.marked ==>
      && r.disk[s.table[e].inum] == s.disk[s.table[e].inum] && (r.table[e].lock.None? ==> !r.table[e].valid)
      && forall k :: k in r.tok && r.tok[k].slot == e ==>
        r.tok[k].pc.Wiped? || r.tok[k].pc.Cleared? || r.tok[k].pc.Drop?
    ensures forall n :: n in r.marked ==> MarkedOk(r, n)
  {
    hide EntryOk, TokenOk, Single;
    forall n | n in r.marked
      ensures MarkedOk(r, n)
    {
      assert MarkedOk(s, n);
    }
  }

  /** The holder of a reference that is in use is not in the way of ialloc. */
  lemma InUse(s: State, k: Token)
    requires Inv(s) && k in s.tok && (s.tok[k].pc.Ref? || s.tok[k].pc.Held? || s.tok[k].pc.Trunc? || s.tok[k].pc.Wipe?)
    ensures TokenOk(s, k) && EntryOk(s, s.tok[k].slot) && EntryOf(s, k).ref > 0 && EntryOf(s, k).inum !in s.marked
  {
    assert TokenOk(s, k) && EntryOk(s, s.tok[k].slot);
    assert EntryOf(s, k).users != {};
  }

  lemma KeepDup(s: State, k: Token, j: Token)
    requires Inv(s) && Enabled(s, Dup(k, j))
    ensures Inv(Step(s, Dup(k, j)))
  {
    hide EntryOk, TokenOk, MarkedOk;
    var r, e := Step(s, Dup(k, j)), s.tok[k].slot;
    InUse(s, k);
    MarkedKept(s, r, e);
    DupLocal(s, k, j);
    LocalKeeps(s, r, e);
  }

  lemma DupLocal(s: State, k: Token, j: Token)
    requires Inv(s) && Enabled(s, Dup(k, j))
    ensures
      var r, e := Step(s, Dup(k, j)), s.tok[k].slot;
      EntryOk(r, e) && forall t :: t in r.tok && r.tok[t].slot == e ==> TokenOk(r, t)
  {
    hide MarkedOk, Single, Tracks;
    var r, e := Step(s, Dup(k, j)), s.tok[k].slot;
    assert TokenOk(s, k) && EntryOk(s, e);
    forall t | t in r.tok && r.tok[t].slot == e
      ensures TokenOk(r, t)
    {
      if t != j {
        assert TokenOk(s, t);
      }
    }
  }

  lemma KeepLock(s: State, k: Token)
    requires Inv(s) && Enabled(s, Lock(k))
    ensures Inv(Step(s, Lock(k)))
  {
    hide EntryOk, TokenOk, MarkedOk;
    var r, e := Step(s, Lock(k)), s.tok[k].slot;
    InUse(s, k);
    LockLocal(s, k);
    MarkedKept(s, r, e);
    LocalKeeps(s, r, e);
  }

  lemma LockLocal(s: State, k: Token)
    requires Inv(s) && Enabled(s, Lock(k))
    ensures
      var r, e := Step(s, Lock(k)), s.tok[k].slot;
      EntryOk(r, e) && forall t :: t in r.tok && r.tok[t].slot == e ==> TokenOk(r, t)
  {
    hide MarkedOk, Single;
    var r, e := Step(s, Lock(k)), s.tok[k].slot;
    assert TokenOk(s, k) && EntryOk(s, e);
    forall t | t in r.tok && r.tok[t].slot == e
      ensures TokenOk(r, t)
    {
      assert TokenOk(s, t);
    }
  }

  lemma KeepChange(s: State, k: Token, d: Dinode)
    requires Inv(s) && Enabled(s, Change(k, d))
    ensures Inv(Step(s, Change(k, d)))
  {
    hide EntryOk, TokenOk, MarkedOk;
    var r, e := Step(s, Change(k, d)), s.tok[k].slot;
    InUse(s, k);
    ChangeLocal(s, k, d);
    MarkedKept(s, r, e);
    LocalKeeps(s, r, e);
  }

  lemma ChangeLocal(s: State, k: Token, d: Dinode)
    requires Inv(s) && Enabled(s, Change(k, d))
    ensures
      var r, e := Step(s, Change(k, d)), s.tok[k].slot;
      EntryOk(r, e) && forall t :: t in r.tok && r.tok[t].slot == e ==> TokenOk(r, t)
  {
    hide MarkedOk, Single;
    var r, e := Step(s, Change(k, d)), s.tok[k].slot;
    assert TokenOk(s, k) && EntryOk(s, e);
    forall t | t in r.tok && r.tok[t].slot == e
      ensures TokenOk(r, t)
    {
      assert TokenOk(s, t);
    }
  }

  lemma KeepUpdate(s: State, k: Token)
    requires Inv(s) && Enabled(s, Update(k))
    ensures Inv(Step(s, Update(k)))
  {
    hide EntryOk, TokenOk, MarkedOk;
    var r, e := Step(s, Update(k)), s.tok[k].slot;
    InUse(s, k);
    UpdateLocal(s, k);
    MarkedKept(s, r, e);
    LocalKeeps(s, r, e);
  }

  lemma UpdateLocal(s: State, k: Token)
    requires Inv(s) && Enabled(s, Update(k))
    ensures
      var r, e := Step(s, Update(k)), s.tok[k].slot;
      EntryOk(r, e) && forall t :: t in r.tok && r.tok[t].slot == e ==> TokenOk(r, t)
  {
    hide MarkedOk, Single;
    var r, e := Step(s, Update(k)), s.tok[k].slot;
    assert TokenOk(s, k) && EntryOk(s, e);
    forall t | t in r.tok && r.tok[t].slot == e
      ensures TokenOk(r, t)
    {
      assert TokenOk(s, t);
    }
  }

  lemma KeepEmpty(s: State, k: Token)
    requires Inv(s) && Enabled(s, Empty(k))
    ensures Inv(Step(s, Empty(k)))
  {
    hide EntryOk, TokenOk, MarkedOk;
    var r, e := Step(s, Empty(k)), s.tok[k].slot;
    InUse(s, k);
    EmptyLocal(s, k);
    MarkedKept(s, r, e);
    LocalKeeps(s, r, e);
  }

  lemma EmptyLocal(s: State, k: Token)
    requires Inv(s) && Enabled(s, Empty(k))
    ensures
      var r, e := Step(s, Empty(k)), s.tok[k].slot;
      EntryOk(r, e) && forall t :: t in r.tok && r.tok[t].slot == e ==> TokenOk(r, t)
  {
    hide MarkedOk, Single;
    var r, e := Step(s, Empty(k)), s.tok[k].slot;
    assert TokenOk(s, k) && EntryOk(s, e);
    forall t | t in r.tok && r.tok[t].slot == e
      ensures TokenOk(r, t)
    {
      assert TokenOk(s, t);
    }
  }

  lemma KeepUnlock(s: State, k: Token)
    requires Inv(s) && Enabled(s, Unlock(k))
    ensures Inv(Step(s, Unlock(k)))
  {
    hide EntryOk, TokenOk, MarkedOk;
    var r, e := Step(s, Unlock(k)), s.tok[k].slot;
    InUse(s, k);
    UnlockLocal(s, k);
    MarkedKept(s, r, e);
    LocalKeeps(s, r, e);
  }

  lemma UnlockLocal(s: State, k: Token)
    requires Inv(s) && Enabled(s, Unlock(k))
    ensures
      var r, e := Step(s, Unlock(k)), s.tok[k].slot;
      EntryOk(r, e) && forall t :: t in r.tok && r.tok[t].slot == e ==> TokenOk(r, t)
  {
    hide MarkedOk, Single;
    var r, e := Step(s, Unlock(k)), s.tok[k].slot;
    assert TokenOk(s, k) && EntryOk(s, e);
    forall t | t in r.tok && r.tok[t].slot == e
      ensures TokenOk(r, t)
    {
      assert TokenOk(s, t);
    }
  }

  /** iput's comment is right: the only reference is the caller's, so nobody has
      the inode locked and its acquiresleep gets the lock at once. */
  lemma PutFreeNeverBlocks(s: State, k: Token)
    requires Inv(s) && Enabled(s, PutFree(k))
    ensures EntryOf(s, k).lock == None && EntryOf(s, k).users == {k}
  {
    hide MarkedOk, Single;
    assert TokenOk(s, k) && EntryOk(s, s.tok[k].slot);
    var users := EntryOf(s, k).users;
    assert |users - {k}| == 0;
    assert users == {k};
  }

  lemma KeepPutFree(s: State, k: Token)
    requires Inv(s) && Enabled(s, PutFree(k))
    ensures Inv(Step(s, PutFree(k)))
  {
    hide EntryOk, TokenOk, MarkedOk;
    var r, e := Step(s, PutFree(k)), s.tok[k].slot;
    InUse(s, k);
    PutFreeLocal(s, k);
    MarkedKept(s, r, e);
    LocalKeeps(s, r, e);
  }

  lemma PutFreeLocal(s: State, k: Token)
    requires Inv(s) && Enabled(s, PutFree(k))
    ensures
      var r, e := Step(s, PutFree(k)), s.tok[k].slot;
      EntryOk(r, e) && forall t :: t in r.tok && r.tok[t].slot == e ==> TokenOk(r, t)
  {
    hide MarkedOk, Single;
    var r, e := Step(s, PutFree(k)), s.tok[k].slot;
    assert TokenOk(s, k) && EntryOk(s, e);
    PutFreeNeverBlocks(s, k);
    forall t | t in r.tok && r.tok[t].slot == e
      ensures TokenOk(r, t)
    {
      assert TokenOk(s, t);
    }
  }

  lemma KeepTruncate(s: State, k: Token)
    requires Inv(s) && Enabled(s, Truncate(k))
    ensures Inv(Step(s, Truncate(k)))
  {
    hide EntryOk, TokenOk, MarkedOk;
    var r, e := Step(s, Truncate(k)), s.tok[k].slot;
    InUse(s, k);
    TruncateLocal(s, k);
    MarkedKept(s, r, e);
    LocalKeeps(s, r, e);
  }

  lemma TruncateLocal(s: State, k: Token)
    requires Inv(s) && Enabled(s, Truncate(k))
    ensures
      var r, e := Step(s, Truncate(k)), s.tok[k].slot;
      EntryOk(r, e) && forall t :: t in r.tok && r.tok[t].slot == e ==> TokenOk(r, t)
  {
    hide MarkedOk, Single;
    var r, e := Step(s, Truncate(k)), s.tok[k].slot;
    assert TokenOk(s, k) && EntryOk(s, e);
    forall t | t in r.tok && r.tok[t].slot == e
      ensures TokenOk(r, t)
    {
      assert TokenOk(s, t);
    }
  }

  lemma KeepSetFree(s: State, k: Token)
    requires Inv(s) && Enabled(s, SetFree(k))
    ensures Inv(Step(s, SetFree(k)))
  {
    hide EntryOk, TokenOk, MarkedOk;
    var r, e := Step(s, SetFree(k)), s.tok[k].slot;
    InUse(s, k);
    SetFreeLocal(s, k);
    MarkedKept(s, r, e);
    LocalKeeps(s, r, e);
  }

  lemma SetFreeLocal(s: State, k: Token)
    requires Inv(s) && Enabled(s, SetFree(k))
    ensures
      var r, e := Step(s, SetFree(k)), s.tok[k].slot;
      EntryOk(r, e) && forall t :: t in r.tok && r.tok[t].slot == e ==> TokenOk(r, t)
  {
    hide MarkedOk, Single;
    var r, e := Step(s, SetFree(k)), s.tok[k].slot;
    assert TokenOk(s, k) && EntryOk(s, e);
    forall t | t in r.tok && r.tok[t].slot == e
      ensures TokenOk(r, t)
    {
      assert TokenOk(s, t);
    }
  }

  lemma KeepSetInvalid(s: State, k: Token)
    requires Inv(s) && Enabled(s, SetInvalid(k))
    ensures Inv(Step(s, SetInvalid(k)))
  {
    hide EntryOk, TokenOk, MarkedOk;
    var r, e := Step(s, SetInvalid(k)), s.tok[k].slot;
    OneMore(s, k);
    SetInvalidLocal(s, k);
    MarkedKept(s, r, e);
    LocalKeeps(s, r, e);
  }

  lemma SetInvalidLocal(s: State, k: Token)
    requires Inv(s) && Enabled(s, SetInvalid(k))
    ensures
      var r, e := Step(s, SetInvalid(k)), s.tok[k].slot;
      EntryOk(r, e) && forall t :: t in r.tok && r.tok[t].slot == e ==> TokenOk(r, t)
  {
    hide MarkedOk, Single;
    var r, e := Step(s, SetInvalid(k)), s.tok[k].slot;
    assert TokenOk(s, k) && EntryOk(s, e);
    forall t | t in r.tok && r.tok[t].slot == e
      ensures TokenOk(r, t)
    {
      assert TokenOk(s, t);
    }
  }

  lemma KeepRelease(s: State, k: Token)
    requires Inv(s) && Enabled(s, Release(k))
    ensures Inv(Step(s, Release(k)))
  {
    hide EntryOk, TokenOk, MarkedOk;
    var r, e := Step(s, Release(k)), s.tok[k].slot;
    OneMore(s, k);
    ReleaseLocal(s, k);
    MarkedKept(s, r, e);
    LocalKeeps(s, r, e);
  }

  lemma ReleaseLocal(s: State, k: Token)
    requires Inv(s) && Enabled(s, Release(k))
    ensures
      var r, e := Step(s, Release(k)), s.tok[k].slot;
      EntryOk(r, e) && forall t :: t in r.tok && r.tok[t].slot == e ==> TokenOk(r, t)
  {
    hide MarkedOk, Single;
    var r, e := Step(s, Release(k)), s.tok[k].slot;
    assert TokenOk(s, k) && EntryOk(s, e);
    forall t | t in r.tok && r.tok[t].slot == e
      ensures TokenOk(r, t)
    {
      assert TokenOk(s, t);
    }
  }

  lemma OneMore(s: State, k: Token)
    requires Inv(s) && k in s.tok
    ensures TokenOk(s, k) && EntryOk(s, s.tok[k].slot) && EntryOf(s, k).ref > 0
    ensures EntryOf(s, k).inum in s.marked ==>
      && (EntryOf(s, k).lock.None? ==> !EntryOf(s, k).valid)
      && forall t :: t in s.tok && s.tok[t].slot == s.tok[k].slot ==>
        s.tok[t].pc.Wiped? || s.tok[t].pc.Cleared? || s.tok[t].pc.Drop?
  {
    assert TokenOk(s, k) && EntryOk(s, s.tok[k].slot);
    assert EntryOf(s, k).users != {};
    forall t | t in s.tok && s.tok[t].slot == s.tok[k].slot && EntryOf(s, k).inum in s.marked
      ensures s.tok[t].pc.Wiped? || s.tok[t].pc.Cleared? || s.tok[t].pc.Drop?
    {
      assert EntryOf(s, t) == EntryOf(s, k);
    }
  }

  lemma KeepDetach(s: State, k: Token)
    requires Inv(s) && (Enabled(s, Put(k)) || Enabled(s, DropRef(k)))
    ensures Inv(Detach(s, k))
  {
    hide EntryOk, TokenOk, MarkedOk;
    var r, e := Detach(s, k), s.tok[k].slot;
    OneMore(s, k);
    DetachLocal(s, k);
    MarkedKept(s, r, e);
    LocalKeeps(s, r, e);
  }

  lemma DetachLocal(s: State, k: Token)
    requires Inv(s) && (Enabled(s, Put(k)) || Enabled(s, DropRef(k)))
    ensures
      var r, e := Detach(s, k), s.tok[k].slot;
      EntryOk(r, e) && forall t :: t in r.tok && r.tok[t].slot == e ==> TokenOk(r, t)
  {
    hide EntryOk, TokenOk, MarkedOk, Single;
    var r, e := Detach(s, k), s.tok[k].slot;
    DetachEntry(s, k);
    forall t | t in r.tok && r.tok[t].slot == e
      ensures TokenOk(r, t)
    {
      DetachToken(s, k, t);
    }
  }

  lemma DetachEntry(s: State, k: Token)
    requires Inv(s) && (Enabled(s, Put(k)) || Enabled(s, DropRef(k)))
    ensures EntryOk(Detach(s, k), s.tok[k].slot)
  {
    hide MarkedOk, Single, Tracks;
    assert TokenOk(s, k) && EntryOk(s, s.tok[k].slot);
  }

  lemma DetachToken(s: State, k: Token, t: Token)
    requires Inv(s) && (Enabled(s, Put(k)) || Enabled(s, DropRef(k))) && t in s.tok && t != k
    requires s.tok[t].slot == s.tok[k].slot
    ensures TokenOk(Detach(s, k), t)
  {
    hide MarkedOk, Single, Tracks, EntryOk;
    assert TokenOk(s, k) && TokenOk(s, t);
  }

  /** Looking up an inode that is not on its way out. */
  lemma KeepAttach(s: State, k: Token, inum: nat, e: nat, marked: set<nat>)
    requires Inv(s) && k !in s.tok && e < |s.table| && Found(s.table, inum, e) && inum < |s.disk|
    requires s.disk[inum].typ != 0
    requires marked <= s.marked && inum !in marked && (inum in s.marked || s.disk[inum].nlink > 0)
    ensures Inv(Attach(s, k, inum, e).(marked := marked))
  {
    hide EntryOk, TokenOk, MarkedOk;
    var r := Attach(s, k, inum, e).(marked := marked);
    AttachSingle(s, k, inum, e);
    AttachLocal(s, k, inum, e, marked);
    AttachMarked(s, k, inum, e, marked);
    LocalKeeps(s, r, e);
  }

  lemma AttachSingle(s: State, k: Token, inum: nat, e: nat)
    requires Single(s.table) && e < |s.table| && Found(s.table, inum, e)
    ensures Single(Attach(s, k, inum, e).table)
  {
    var t := Attach(s, k, inum, e).table;
    forall i, j | 0 <= i < j < |t| && t[i].ref > 0 && t[j].ref > 0
      ensures t[i].inum != t[j].inum
    {
      assert i != e ==> (Live(s.table, inum, i) <==> t[i].inum == inum);
      assert j != e ==> (Live(s.table, inum, j) <==> t[j].inum == inum);
    }
  }

  lemma AttachMarked(s: State, k: Token, inum: nat, e: nat, marked: set<nat>)
    requires Inv(s) && k !in s.tok && e < |s.table| && Found(s.table, inum, e) && marked <= s.marked && inum !in marked
    ensures
      var r := Attach(s, k, inum, e).(marked := marked);
      forall n :: n in marked ==> MarkedOk(r, n)
  {
    hide Single;
    var r := Attach(s, k, inum, e).(marked := marked);
    forall n | n in marked
      ensures MarkedOk(r, n)
    {
      assert MarkedOk(s, n);
      forall t | t in r.tok && r.tok[t].slot < |r.table| && EntryOf(r, t).inum == n
        ensures r.tok[t].pc.Wiped? || r.tok[t].pc.Cleared? || r.tok[t].pc.Drop?
      {
        assert t != k;
        assert TokenOk(s, t);
      }
    }
  }

  lemma AttachLocal(s: State, k: Token, inum: nat, e: nat, marked: set<nat>)
    requires Inv(s) && k !in s.tok && e < |s.table| && Found(s.table, inum, e) && inum < |s.disk|
    requires s.disk[inum].typ != 0
    requires inum in s.marked || s.disk[inum].nlink > 0
    ensures
      var r := Attach(s, k, inum, e).(marked := marked);
      EntryOk(r, e) && forall t :: t in r.tok && r.tok[t].slot == e ==> TokenOk(r, t)
  {
    hide Single;
    var r := Attach(s, k, inum, e).(marked := marked);
    assert EntryOk(s, e);
    forall t | t in r.tok && r.tok[t].slot == e
      ensures TokenOk(r, t)
    {
      if t != k {
        assert TokenOk(s, t);
        if inum in s.marked {
          assert MarkedOk(s, inum);
        }
      }
    }
  }

  /** ialloc's mark touches an inode that no valid copy stands for. */
  lemma KeepMark(s: State, inum: nat, typ: nat)
    requires Inv(s) && Enabled(s, Mark(inum, typ))
    ensures Inv(Step(s, Mark(inum, typ)))
  {
    var r := Step(s, Mark(inum, typ));
    forall e | 0 <= e < |r.table|
      ensures EntryOk(r, e)
    {
      assert EntryOk(s, e);
    }
    forall k | k in r.tok
      ensures TokenOk(r, k)
    {
      assert TokenOk(s, k);
    }
    forall n | n in r.marked
      ensures MarkedOk(r, n)
    {
      if n != inum {
        assert MarkedOk(s, n);
      } else {
        forall e | 0 <= e < |r.table| && Live(r.table, n, e) && r.table[e].lock.None?
          ensures !r.table[e].valid
        {
          assert EntryOk(s, e);
        }
        forall k | k in r.tok && r.tok[k].slot < |r.table| && EntryOf(r, k).inum == n
          ensures r.tok[k].pc.Wiped? || r.tok[k].pc.Cleared? || r.tok[k].pc.Drop?
        {
          assert TokenOk(s, k);
        }
      }
    }
  }

  lemma StepKeeps(s: State, ev: Event)
    requires Inv(s) && Enabled(s, ev)
    ensures Inv(Step(s, ev))
  {
    hide Inv, Found;
    match ev
    case Get(k, inum, e) => NotMarked(s, inum); KeepAttach(s, k, inum, e, s.marked);
    case Dup(k, j) => KeepDup(s, k, j);
    case Lock(k) => KeepLock(s, k);
    case Change(k, d) => KeepChange(s, k, d);
    case Empty(k) => KeepEmpty(s, k);
    case Update(k) => KeepUpdate(s, k);
    case Unlock(k) => KeepUnlock(s, k);
    case Mark(inum, typ) => KeepMark(s, inum, typ);
    case GetMarked(k, inum, e) => NotMarked(s, inum); KeepAttach(s, k, inum, e, s.marked - {inum});
    case Put(k) => KeepDetach(s, k);
    case PutFree(k) => KeepPutFree(s, k);
    case Truncate(k) => KeepTruncate(s, k);
    case SetFree(k) => KeepSetFree(s, k);
    case SetInvalid(k) => KeepSetInvalid(s, k);
    case Release(k) => KeepRelease(s, k);
    case DropRef(k) => KeepDetach(s, k);
  }

  lemma NotMarked(s: State, inum: nat)
    requires Inv(s)
    ensures inum in s.marked ==> inum < |s.disk| && s.disk[inum].nlink == 0 && s.disk[inum].typ != 0
  {
    hide EntryOk, TokenOk, Single;
    assert inum in s.marked ==> MarkedOk(s, inum);
  }

  /** A run: every event is enabled where it happens. */
  ghost predicate Runs(s: State, evs: seq<Event>)
    decreases |evs|
  {
    evs == [] || (Enabled(s, evs[0]) && Runs(Step(s, evs[0]), evs[1..]))
  }

  ghost function After(s: State, evs: seq<Event>): (r: State)
    requires Runs(s, evs)
    decreases |evs|
  {
    if evs == [] then s else After(Step(s, evs[0]), evs[1..])
  }

  lemma {:induction false} EveryRun(s: State, evs: seq<Event>)
    requires Inv(s) && Runs(s, evs)
    ensures Inv(After(s, evs))
    decreases |evs|
  {
    hide Inv, Enabled, Step;
    if evs != [] {
      StepKeeps(s, evs[0]);
      EveryRun(Step(s, evs[0]), evs[1..]);
    }
  }

  /** The copy of an inode that nobody has locked is the inode on disk if and only if no
      iupdate is owed. Type and link count always agree, and what the copy has more is
      size and blocks. */
  lemma UnlockedCopy(s: State, e: nat)
    requires Inv(s) && e < |s.table| && s.table[e].ref > 0 && s.table[e].valid && s.table[e].lock.None?
    ensures
      var x := s.table[e];
      && x.inum < |s.disk| && (x.copy == s.disk[x.inum] <==> !x.owed)
      && x.copy.typ == s.disk[x.inum].typ != 0 && x.copy.nlink == s.disk[x.inum].nlink && Grows(s.disk[x.inum], x.copy)
  {
    hide MarkedOk, Single, TokenOk;
    assert EntryOk(s, e);
  }

  /** ilock never panics over a free inode. What the caller sees is the inode on disk,
      whoever freed or reallocated it in between, if and only if it is read in anew or
      no iupdate is owed. */
  lemma LockIsFresh(s: State, k: Token)
    requires Inv(s) && Enabled(s, Lock(k))
    ensures
      var was, x := EntryOf(s, k), EntryOf(Step(s, Lock(k)), k);
      && x.inum == was.inum && x.valid && x.copy.typ == s.disk[x.inum].typ != 0
      && x.copy.nlink == s.disk[x.inum].nlink && Grows(s.disk[x.inum], x.copy)
      && (x.copy == s.disk[x.inum] <==> !(was.valid && was.owed))
  {
    hide MarkedOk, Single;
    assert TokenOk(s, k) && EntryOk(s, s.tok[k].slot);
    InUse(s, k);
  }

  /** ref counts the references there are. */
  lemma RefCounts(s: State, e: nat)
    requires Inv(s) && e < |s.table|
    ensures s.table[e].ref == |set k | k in s.tok && s.tok[k].slot == e|
  {
    hide MarkedOk, Single;
    assert EntryOk(s, e);
    forall k | k in s.tok && s.tok[k].slot == e
      ensures k in s.table[e].users
    {
      assert TokenOk(s, k);
    }
    assert s.table[e].users == set k | k in s.tok && s.tok[k].slot == e;
  }

  /** No copy outlives its inode: an inode that is free on disk has no reference
      but that of an iput that is done with it. */
  lemma FreeMeansUnused(s: State, k: Token)
    requires Inv(s) && k in s.tok && s.tok[k].slot < |s.table| && EntryOf(s, k).inum < |s.disk|
    requires s.disk[EntryOf(s, k).inum].typ == 0
    ensures s.tok[k].pc.Wiped? || s.tok[k].pc.Cleared? || s.tok[k].pc.Drop?
  {
    hide MarkedOk, Single, EntryOk;
    assert TokenOk(s, k);
  }

  // ----- What iupdate stores is what ilock finds -----

  /** Nobody holds the lock of inode `n`, and disk and copies agree on it. */
  ghost predicate Quiet(s: State, n: nat, d: Dinode) {
    && n < |s.disk| && s.disk[n] == d && d.typ != 0
    && forall e :: 0 <= e < |s.table| && Live(s.table, n, e) ==>
         s.table[e].lock.None? && (s.table[e].valid ==> s.table[e].copy == d)
  }

  /** The inode's lock is taken, by ilock or by iput. */
  ghost predicate Takes(s: State, ev: Event, n: nat)
    requires Enabled(s, ev)
  {
    (ev.Lock? || ev.PutFree?) && EntryOf(s, ev.k).inum == n
  }

  ghost predicate LeftAlone(s: State, evs: seq<Event>, n: nat)
    requires Runs(s, evs)
    decreases |evs|
  {
    evs == [] || (!Takes(s, evs[0], n) && LeftAlone(Step(s, evs[0]), evs[1..], n))
  }

  lemma QuietStep(s: State, ev: Event, n: nat, d: Dinode)
    requires Inv(s) && Enabled(s, ev) && Quiet(s, n, d) && !Takes(s, ev, n)
    ensures Quiet(Step(s, ev), n, d)
  {
    hide EntryOk, MarkedOk, Tracks, Single;
    if ev.Get? || ev.GetMarked? {
      UnusedUnlocked(s, ev.e);
    } else if !ev.Mark? {
      assert TokenOk(s, ev.k) && EntryOf(s, ev.k).ref > 0 by {
        OneMore(s, ev.k);
      }
    }
  }

  lemma UnusedUnlocked(s: State, e: nat)
    requires Inv(s) && e < |s.table|
    ensures s.table[e].ref == 0 ==> s.table[e].lock.None?
  {
    hide TokenOk, MarkedOk, Tracks, Single;
    assert EntryOk(s, e);
  }

  lemma {:induction false} QuietRun(s: State, evs: seq<Event>, n: nat, d: Dinode)
    requires Inv(s) && Runs(s, evs) && Quiet(s, n, d) && LeftAlone(s, evs, n)
    ensures Quiet(After(s, evs), n, d)
    decreases |evs|
  {
    hide Inv, Enabled, Step, Quiet, Takes;
    if evs != [] {
      StepKeeps(s, evs[0]);
      QuietStep(s, evs[0], n, d);
      QuietRun(Step(s, evs[0]), evs[1..], n, d);
    }
  }

  /** What `k` leaves behind after iupdate or itrunc, and iunlock. */
  lemma LeftBehind(s: State, ev: Event, k: Token)
    requires Inv(s) && (ev == Update(k) || ev == Empty(k)) && Enabled(s, ev) && Enabled(Step(s, ev), Unlock(k))
    ensures
      var c := EntryOf(s, k).copy;
      var d := if ev.Update? then c else Emptied(c);
      Quiet(Step(Step(s, ev), Unlock(k)), EntryOf(s, k).inum, d)
  {
    hide MarkedOk, EntryOk, Tracks;
    assert TokenOk(s, k);
    OneMore(s, k);
  }

  /** An inode read in after iupdate, or after itrunc, is what was stored: whoever used it
      in between without its lock, and whether or not its entry has been recycled. */
  lemma StoredIsReadBack(s: State, ev: Event, k: Token, evs: seq<Event>, t: Token)
    requires Inv(s) && (ev == Update(k) || ev == Empty(k)) && Enabled(s, ev) && Enabled(Step(s, ev), Unlock(k))
    requires
      var s', n := Step(Step(s, ev), Unlock(k)), EntryOf(s, k).inum;
      Runs(s', evs) && LeftAlone(s', evs, n) && Enabled(After(s', evs), Lock(t)) && EntryOf(After(s', evs), t).inum == n
    ensures
      var s' := After(Step(Step(s, ev), Unlock(k)), evs);
      var c, x := EntryOf(s, k).copy, EntryOf(Step(s', Lock(t)), t).copy;
      x.typ == c.typ && x.nlink == c.nlink && if ev.Update? then x == c else Blank(x)
  {
    hide Inv, Step, Runs, After, LeftAlone, Takes;
    var s1 := Step(s, ev);
    var s2 := Step(s1, Unlock(k));
    StepKeeps(s, ev);
    StepKeeps(s1, Unlock(k));
    var c, n := EntryOf(s, k).copy, EntryOf(s, k).inum;
    var d := if ev.Update? then c else Emptied(c);
    LeftBehind(s, ev, k);
    QuietRun(s2, evs, n, d);
    EveryRun(s2, evs);
    QuietLock(After(s2, evs), t, n, d);
  }

  lemma QuietLock(s: State, t: Token, n: nat, d: Dinode)
    requires Inv(s) && Quiet(s, n, d) && Enabled(s, Lock(t)) && EntryOf(s, t).inum == n
    ensures EntryOf(Step(s, Lock(t)), t).copy == d
  {
    hide MarkedOk, EntryOk, Tracks, Single;
    assert TokenOk(s, t);
    OneMore(s, t);
  }

  // ----- When they can go on -----

  /** iget finds a place, and does not panic, if and only if the inode is in the table or
      some entry is unused. */
  lemma GetExactly(s: State, k: Token, inum: nat)
    requires k !in s.tok
    requires inum in s.marked || (inum < |s.disk| && s.disk[inum].typ != 0 && s.disk[inum].nlink > 0)
    ensures (exists e: nat :: Enabled(s, if inum in s.marked then GetMarked(k, inum, e) else Get(k, inum, e))) <==>
      exists i :: 0 <= i < |s.table| && (s.table[i].ref == 0 || s.table[i].inum == inum)
  {
    if i :| 0 <= i < |s.table| && (s.table[i].ref == 0 || s.table[i].inum == inum) {
      var e := Place(s.table, inum, i);
      assert Enabled(s, if inum in s.marked then GetMarked(k, inum, e) else Get(k, inum, e));
    }
    if e: nat :| Enabled(s, if inum in s.marked then GetMarked(k, inum, e) else Get(k, inum, e)) {
      assert s.table[e].ref == 0 || s.table[e].inum == inum;
    }
  }

  lemma {:induction false} Place(table: seq<Entry>, inum: nat, i: nat) returns (e: nat)
    requires i < |table| && (table[i].ref == 0 || table[i].inum == inum)
    ensures e < |table| && Found(table, inum, e)
    decreases i
  {
    if j: nat :| Live(table, inum, j) {
      e := j;
    } else if j: nat :| j < i && table[j].ref == 0 {
      e := Place(table, inum, j);
    } else {
      e := i;
    }
  }

  /** idup always succeeds: one more reference to the same inode. */
  lemma DupGives(s: State, k: Token, j: Token)
    requires Inv(s) && (Has(s, k, Ref) || Has(s, k, Held)) && j !in s.tok
    ensures Enabled(s, Dup(k, j))
    ensures
      var r := Step(s, Dup(k, j));
      && Has(r, j, Ref) && r.tok[k] == s.tok[k] && r.tok[j].slot == s.tok[k].slot && r.disk == s.disk
      && EntryOf(r, j).inum == EntryOf(s, k).inum && EntryOf(r, j).ref == EntryOf(s, k).ref + 1
  {}

  /** An iput that frees has nothing to wait for, whatever others do between its steps. */
  lemma IputGetsThrough(s: State, k: Token)
    requires Inv(s) && k in s.tok
    ensures match s.tok[k].pc
      case Trunc => Enabled(s, Truncate(k))
      case Wipe => Enabled(s, SetFree(k))
      case Wiped => Enabled(s, SetInvalid(k))
      case Cleared => Enabled(s, Release(k))
      case Drop => Enabled(s, DropRef(k))
      case _ => true
  {
    hide MarkedOk, Single, EntryOk, Tracks;
    OneMore(s, k);
  }

  /** ilock waits if and only if somebody else holds the lock, and that one can go on and
      release it. */
  lemma LockInTheEnd(s: State, k: Token) returns (evs: seq<Event>)
    requires Inv(s) && Has(s, k, Ref)
    ensures Enabled(s, Lock(k)) <==> forall t :: t in s.tok && s.tok[t].slot == s.tok[k].slot ==> !Locks(s.tok[t].pc)
    ensures forall i :: 0 <= i < |evs| ==> (evs[i].Update? || evs[i].Unlock? || evs[i].SetInvalid? || evs[i].Release?)
    ensures Runs(s, evs) && Enabled(After(s, evs), Lock(k))
  {
    hide Inv, Single, MarkedOk, EntryOk, Runs, After, Step, Enabled, Tracks;
    LockExactly(s, k);
    evs := [];
    if EntryOf(s, k).lock.None? {
      RunNone(s);
    } else {
      var t := EntryOf(s, k).lock.value;
      HolderKind(s, k, t);
      if s.tok[t].pc.Held? {
        HeldLeaves(s, k, t);
        RunTwo(s, Update(t), Unlock(t));
        evs := [Update(t), Unlock(t)];
      } else if s.tok[t].pc.Wiped? {
        WipedLeaves(s, k, t);
        RunTwo(s, SetInvalid(t), Release(t));
        evs := [SetInvalid(t), Release(t)];
      } else {
        ClearedLeaves(s, k, t);
        RunOne(s, Release(t));
        evs := [Release(t)];
      }
    }
  }

  lemma LockExactly(s: State, k: Token)
    requires Inv(s) && Has(s, k, Ref)
    ensures Enabled(s, Lock(k)) <==> EntryOf(s, k).lock.None?
    ensures EntryOf(s, k).lock.None? <==>
      forall t :: t in s.tok && s.tok[t].slot == s.tok[k].slot ==> !Locks(s.tok[t].pc)
  {
    hide MarkedOk, Single, Tracks;
    InUse(s, k);
    forall t | t in s.tok && s.tok[t].slot == s.tok[k].slot
      ensures Locks(s.tok[t].pc) <==> EntryOf(s, k).lock == Some(t)
    {
      assert TokenOk(s, t);
    }
    assert EntryOk(s, s.tok[k].slot);
  }

  lemma HolderKind(s: State, k: Token, t: Token)
    requires Inv(s) && Has(s, k, Ref) && EntryOf(s, k).lock == Some(t)
    ensures t in s.tok && s.tok[t].slot == s.tok[k].slot
    ensures s.tok[t].pc.Held? || s.tok[t].pc.Wiped? || s.tok[t].pc.Cleared?
  {
    hide MarkedOk, Single, Tracks;
    assert TokenOk(s, k) && EntryOk(s, s.tok[k].slot);
    assert TokenOk(s, t);
  }

  lemma HeldLeaves(s: State, k: Token, t: Token)
    requires Inv(s) && Has(s, k, Ref) && Has(s, t, Held) && s.tok[t].slot == s.tok[k].slot
    ensures Enabled(s, Update(t)) && Enabled(Step(s, Update(t)), Unlock(t))
    ensures Enabled(Step(Step(s, Update(t)), Unlock(t)), Lock(k))
  {
    hide MarkedOk, Single, Tracks, EntryOk;
    assert TokenOk(s, t);
  }

  lemma WipedLeaves(s: State, k: Token, t: Token)
    requires Inv(s) && Has(s, k, Ref) && Has(s, t, Wiped) && s.tok[t].slot == s.tok[k].slot
    ensures Enabled(s, SetInvalid(t)) && Enabled(Step(s, SetInvalid(t)), Release(t))
    ensures Enabled(Step(Step(s, SetInvalid(t)), Release(t)), Lock(k))
  {
    hide MarkedOk, Single, Tracks, EntryOk;
    assert TokenOk(s, t);
  }

  lemma ClearedLeaves(s: State, k: Token, t: Token)
    requires Inv(s) && Has(s, k, Ref) && Has(s, t, Cleared) && s.tok[t].slot == s.tok[k].slot
    ensures Enabled(s, Release(t)) && Enabled(Step(s, Release(t)), Lock(k))
  {
    hide MarkedOk, Single, Tracks, EntryOk;
    assert TokenOk(s, t);
  }

  lemma RunNone(s: State)
    ensures Runs(s, []) && After(s, []) == s
  {}

  lemma RunOne(s: State, a: Event)
    requires Enabled(s, a)
    ensures Runs(s, [a]) && After(s, [a]) == Step(s, a)
  {
    hide Enabled, Step;
    assert [a][1..] == [];
  }

  lemma RunTwo(s: State, a: Event, b: Event)
    requires Enabled(s, a) && Enabled(Step(s, a), b)
    ensures Runs(s, [a, b]) && After(s, [a, b]) == Step(Step(s, a), b)
  {
    hide Enabled, Step;
    RunOne(Step(s, a), b);
    assert [a, b][1..] == [b];
  }

  // ----- Freeing and allocating -----

  /** iput frees an inode if and only if the caller's reference is the only one, the inode
      has been read in, and it has no links on disk. Else it just gives up the reference. */
  lemma IputFreesExactly(s: State, k: Token)
    requires Inv(s) && Has(s, k, Ref)
    ensures EntryOf(s, k).inum < |s.disk|
    ensures Enabled(s, PutFree(k)) <==>
      && (forall t :: t in s.tok && s.tok[t].slot == s.tok[k].slot ==> t == k)
      && EntryOf(s, k).valid && s.disk[EntryOf(s, k).inum].nlink == 0
    ensures Enabled(s, Put(k)) <==> !Enabled(s, PutFree(k))
  {
    hide MarkedOk, Single, Tracks;
    var e := s.tok[k].slot;
    InUse(s, k);
    forall t | t in s.tok && s.tok[t].slot == e
      ensures t in s.table[e].users
    {
      assert TokenOk(s, t);
    }
    if Enabled(s, PutFree(k)) {
      PutFreeNeverBlocks(s, k);
    } else if forall t :: t in s.tok && s.tok[t].slot == e ==> t == k {
      assert s.table[e].users == {k};
    }
  }

  /** After iput's itrunc and iupdate, the inode on disk is free and has nothing left. */
  lemma FreedIsBlank(s: State, k: Token)
    requires Inv(s) && Enabled(s, SetFree(k))
    ensures
      var r, n := Step(s, SetFree(k)), EntryOf(s, k).inum;
      && n < |r.disk| && r.disk[n].typ == 0 && r.disk[n].nlink == 0 && Blank(r.disk[n])
      && Has(r, k, Wiped) && EntryOf(r, k).copy == r.disk[n]
  {
    hide MarkedOk, Single;
    assert TokenOk(s, k);
  }

  /** Inodes that are free on disk have no links, no size and no blocks. */
  ghost predicate FreeBlank(s: State) {
    forall n :: 0 <= n < |s.disk| && s.disk[n].typ == 0 ==> s.disk[n].nlink == 0 && Blank(s.disk[n])
  }

  lemma FreeBlankStep(s: State, ev: Event)
    requires Inv(s) && FreeBlank(s) && Enabled(s, ev)
    ensures FreeBlank(Step(s, ev))
  {
    hide EntryOk, Single, MarkedOk, Found, Tracks;
    if ev.Update? || ev.Empty? || ev.Truncate? || ev.SetFree? {
      assert TokenOk(s, ev.k);
    }
  }

  /** So it is after every run. */
  lemma {:induction false} FreeInodesAreBlank(s: State, evs: seq<Event>)
    requires Inv(s) && FreeBlank(s) && Runs(s, evs)
    ensures FreeBlank(After(s, evs))
    decreases |evs|
  {
    hide Inv, FreeBlank, Enabled, Step;
    if evs != [] {
      StepKeeps(s, evs[0]);
      FreeBlankStep(s, evs[0]);
      FreeInodesAreBlank(Step(s, evs[0]), evs[1..]);
    }
  }

  /** ialloc's memset drops no block: the type is all that it changes. */
  lemma MarkDropsNothing(s: State, inum: nat, typ: nat)
    requires FreeBlank(s) && Enabled(s, Mark(inum, typ))
    ensures Step(s, Mark(inum, typ)).disk[inum] == s.disk[inum].(typ := typ)
  {
    assert Emptied(s.disk[inum]).addrs == s.disk[inum].addrs;
  }

  /** `k` is the one reference to an inode just allocated; any others are of the iput
      that freed it before. */
  ghost predicate JustAllocated(s: State, k: Token) {
    && Has(s, k, Ref) && EntryOf(s, k).inum !in s.marked && EntryOf(s, k).inum < |s.disk|
    && (EntryOf(s, k).lock.None? ==> !EntryOf(s, k).valid)
    && (var d := s.disk[EntryOf(s, k).inum]; d.typ != 0 && d.nlink == 0 && Blank(d))
    && forall t :: t in s.tok && s.tok[t].slot == s.tok[k].slot && t != k ==>
         s.tok[t].pc.Wiped? || s.tok[t].pc.Cleared? || s.tok[t].pc.Drop?
  }

  lemma AllocatedNow(s: State, k: Token, inum: nat, e: nat)
    requires Inv(s) && Enabled(s, GetMarked(k, inum, e))
    ensures
      var r := Step(s, GetMarked(k, inum, e));
      JustAllocated(r, k) && EntryOf(r, k).inum == inum
  {
    hide Single;
    assert MarkedOk(s, inum) && EntryOk(s, e);
    forall t | t in s.tok && s.tok[t].slot == e
      ensures s.tok[t].pc.Wiped? || s.tok[t].pc.Cleared? || s.tok[t].pc.Drop?
    {
      assert TokenOk(s, t);
    }
  }

  /** Whatever others do in the meantime. */
  lemma AllocatedStill(s: State, ev: Event, k: Token)
    requires Inv(s) && Enabled(s, ev) && JustAllocated(s, k)
    requires ev.Mark? || (ev.k != k && (ev.Dup? ==> ev.j != k))
    ensures JustAllocated(Step(s, ev), k) && EntryOf(Step(s, ev), k).inum == EntryOf(s, k).inum
  {
    hide EntryOk, MarkedOk, Tracks;
    var e := s.tok[k].slot;
    assert TokenOk(s, k) && EntryOf(s, k).ref > 0 by {
      InUse(s, k);
    }
    if !ev.Mark? && ev.k in s.tok {
      assert TokenOk(s, ev.k) && EntryOf(s, ev.k).ref > 0 by {
        OneMore(s, ev.k);
      }
    }
  }

  /** The caller of ialloc gets an empty inode of the type asked for. */
  lemma AllocatedIsEmpty(s: State, k: Token)
    requires Inv(s) && JustAllocated(s, k) && Enabled(s, Lock(k))
    ensures
      var x := EntryOf(Step(s, Lock(k)), k);
      x.copy == s.disk[x.inum] && x.copy.typ != 0 && x.copy.nlink == 0 && Blank(x.copy)
  {
    hide MarkedOk, Single;
    InUse(s, k);
    assert EntryOk(s, s.tok[k].slot);
  }

  // ----- Inodes that nobody frees -----

  ghost predicate Referenced(s: State, n: nat) {
    exists t :: t in s.tok && s.tok[t].slot < |s.table| && EntryOf(s, t).inum == n
  }

  /** An inode in use on disk that has no links, no references, and is not about to get
      one: only the next boot could find it. */
  ghost predicate Orphan(s: State, n: nat) {
    n < |s.disk| && s.disk[n].typ != 0 && s.disk[n].nlink == 0 && n !in s.marked && !Referenced(s, n)
  }

  /** The last reference to an unlinked inode is given up without freeing it. */
  ghost predicate Abandons(s: State, ev: Event, n: nat)
    requires Enabled(s, ev)
  {
    && (ev.Put? || ev.DropRef?) && EntryOf(s, ev.k).inum == n < |s.disk| && n !in s.marked
    && s.disk[n].typ != 0 && s.disk[n].nlink == 0
    && forall t :: t in s.tok && s.tok[t].slot < |s.table| && EntryOf(s, t).inum == n ==> t == ev.k
  }

  /** An inode is orphaned if and only if its last reference goes at the end of an iput
      that was to free what was there before, or by an iput of an inode never read in. */
  lemma OrphanedExactly(s: State, ev: Event, n: nat)
    requires Inv(s) && Enabled(s, ev)
    ensures Orphan(Step(s, ev), n) <==> Orphan(s, n) || Abandons(s, ev, n)
    ensures Abandons(s, ev, n) && ev.Put? ==> !EntryOf(s, ev.k).valid
  {
    hide EntryOk, TokenOk, MarkedOk, Tracks, Single, Orphan, Step;
    if ev.Put? || ev.DropRef? {
      OrphanedByPut(s, ev, n);
    } else {
      NotOrphaned(s, ev, n);
    }
  }

  lemma OrphanedByPut(s: State, ev: Event, n: nat)
    requires Inv(s) && Enabled(s, ev) && (ev.Put? || ev.DropRef?)
    ensures Orphan(Step(s, ev), n) <==> Orphan(s, n) || Abandons(s, ev, n)
    ensures Abandons(s, ev, n) && ev.Put? ==> !EntryOf(s, ev.k).valid
  {
    hide MarkedOk, Tracks, Single;
    var r, k := Step(s, ev), ev.k;
    OneMore(s, k);
    assert r == Detach(s, k);
    forall t | t in s.tok && t != k
      ensures t in r.tok && r.tok[t] == s.tok[t]
      ensures s.tok[t].slot < |s.table| ==> EntryOf(r, t).inum == EntryOf(s, t).inum
    {}
    if Abandons(s, ev, n) && ev.Put? {
      AloneHere(s, k);
    }
  }

  lemma AloneHere(s: State, k: Token)
    requires Inv(s) && Has(s, k, Ref) && EntryOf(s, k).inum < |s.disk| && s.disk[EntryOf(s, k).inum].nlink == 0
    requires forall t :: t in s.tok && s.tok[t].slot < |s.table| && EntryOf(s, t).inum == EntryOf(s, k).inum ==> t == k
    requires Enabled(s, Put(k))
    ensures !EntryOf(s, k).valid
  {
    hide EntryOk, TokenOk, MarkedOk, Tracks, Single;
    IputFreesExactly(s, k);
  }

  lemma NotOrphaned(s: State, ev: Event, n: nat)
    requires Inv(s) && Enabled(s, ev) && !ev.Put? && !ev.DropRef?
    ensures Orphan(Step(s, ev), n) <==> Orphan(s, n)
  {
    hide EntryOk, MarkedOk, Tracks, Single;
    var r := Step(s, ev);
    forall t | t in s.tok
      ensures t in r.tok && TokenOk(s, t) && EntryOf(s, t).ref > 0
      ensures r.tok[t].slot == s.tok[t].slot < |r.table| && EntryOf(r, t).inum == EntryOf(s, t).inum
    {
      OneMore(s, t);
    }
    if ev.Get? || ev.GetMarked? {
      assert EntryOf(r, ev.k).inum == ev.inum;
    } else if !ev.Mark? {
      assert Referenced(s, EntryOf(s, ev.k).inum);
    }
  }

  /** It does happen: between the two critical sections of an iput that frees an inode,
      another process allocates the same one, and gives it up before it has a link. The
      iput does not look again. */
  lemma ReallocatedIsOrphaned(s: State, k: Token, j: Token, typ: nat)
    requires Inv(s) && Has(s, k, Drop) && EntryOf(s, k).users == {k} && EntryOf(s, k).inum < |s.disk|
    requires s.disk[EntryOf(s, k).inum].typ == 0 && j !in s.tok && typ != 0
    ensures
      var n, e := EntryOf(s, k).inum, s.tok[k].slot;
      var evs := [Mark(n, typ), GetMarked(j, n, e), Lock(j), Unlock(j), Put(j), DropRef(k)];
      Runs(s, evs) && Orphan(After(s, evs), n)
  {
    hide Inv, Orphan, Enabled, Step, Left;
    var n, e := EntryOf(s, k).inum, s.tok[k].slot;
    var a, b, c, d, f, g := Mark(n, typ), GetMarked(j, n, e), Lock(j), Unlock(j), Put(j), DropRef(k);
    TakenAgain(s, k, j, typ);
    assert [] + [a] == [a] && [a] + [b] == [a, b] && [a, b] + [c] == [a, b, c] && [a, b, c] + [d] == [a, b, c, d];
    assert [a, b, c, d] + [f] == [a, b, c, d, f] && [a, b, c, d, f] + [g] == [a, b, c, d, f, g];
    assert Runs(s, []) && After(s, []) == s;
    RunsMore(s, [], a);
    RunsMore(s, [a], b);
    RunsMore(s, [a, b], c);
    RunsMore(s, [a, b, c], d);
    GivenUp(After(s, [a, b, c, d]), k, j, n, e);
    RunsMore(s, [a, b, c, d], f);
    RunsMore(s, [a, b, c, d, f], g);
  }

  /** `k`, at the end of its iput, and `j` refer to an inode without links. */
  ghost predicate Left(s: State, k: Token, j: Token, n: nat, e: nat) {
    && k != j && Has(s, k, Drop) && Has(s, j, Ref) && s.tok[k].slot == s.tok[j].slot == e
    && s.table[e].inum == n < |s.disk| && s.table[e].users == {k, j}
    && s.disk[n].typ != 0 && s.disk[n].nlink == 0 && n !in s.marked
  }

  lemma TakenAgain(s: State, k: Token, j: Token, typ: nat)
    requires Inv(s) && Has(s, k, Drop) && EntryOf(s, k).users == {k} && EntryOf(s, k).inum < |s.disk|
    requires s.disk[EntryOf(s, k).inum].typ == 0 && j !in s.tok && typ != 0
    ensures
      var n, e := EntryOf(s, k).inum, s.tok[k].slot;
      && Enabled(s, Mark(n, typ))
      && var s1 := Step(s, Mark(n, typ));
         && Enabled(s1, GetMarked(j, n, e))
         && var s2 := Step(s1, GetMarked(j, n, e));
            && Enabled(s2, Lock(j))
            && var s3 := Step(s2, Lock(j));
               && Enabled(s3, Unlock(j))
               && var s4 := Step(s3, Unlock(j));
                  Inv(s4) && Left(s4, k, j, n, e)
  {
    hide MarkedOk, Single, Tracks, Inv, Grows;
    var n, e := EntryOf(s, k).inum, s.tok[k].slot;
    assert TokenOk(s, k) && EntryOk(s, e) by {
      OneMore(s, k);
    }
    assert s.table[e].ref == 1 && s.table[e].lock == None;
    if s.table[e].valid {
      UnlockedCopy(s, e);
    }
    var s1 := Step(s, Mark(n, typ));
    StepKeeps(s, Mark(n, typ));
    var s2 := Step(s1, GetMarked(j, n, e));
    StepKeeps(s1, GetMarked(j, n, e));
    var s3 := Step(s2, Lock(j));
    StepKeeps(s2, Lock(j));
    StepKeeps(s3, Unlock(j));
  }

  lemma GivenUp(s: State, k: Token, j: Token, n: nat, e: nat)
    requires Inv(s) && Left(s, k, j, n, e)
    ensures Enabled(s, Put(j)) && Enabled(Step(s, Put(j)), DropRef(k))
    ensures Orphan(Step(Step(s, Put(j)), DropRef(k)), n)
  {
    hide MarkedOk, Tracks;
    OneMore(s, k);
    assert s.table[e].ref == 2;
    var r := Step(Step(s, Put(j)), DropRef(k));
    forall t | t in r.tok
      ensures r.tok[t].slot < |r.table| && EntryOf(r, t).inum != n
    {
      OneMore(s, t);
    }
  }

  // ----- A read that is not followed by iupdate -----

  lemma {:induction false} RunsMore(s: State, evs: seq<Event>, ev: Event)
    requires Runs(s, evs) && Enabled(After(s, evs), ev)
    ensures Runs(s, evs + [ev]) && After(s, evs + [ev]) == Step(After(s, evs), ev)
    decreases |evs|
  {
    hide Enabled, Step;
    if evs == [] {
      assert [ev][1..] == [] && [] + [ev] == [ev];
    } else {
      RunsMore(Step(s, evs[0]), evs[1..], ev);
      assert (evs + [ev])[1..] == evs[1..] + [ev];
    }
  }

  /** Looking up a name in a directory with a hole: the lookup fills it, in memory only. */
  function Lookup(k: Token, inum: nat, d: Dinode): (evs: seq<Event>) {
    [Get(k, inum, 0), Lock(k), Change(k, d), Unlock(k)]
  }

  /** The table has the copy `d` of an inode in its first entry. */
  ghost predicate FirstIs(s: State, n: nat, inum: nat, lock: Option<Token>, d: Dinode) {
    && |s.table| == n > 0 && s.table[0].valid && s.table[0].inum == inum && s.table[0].lock == lock
    && s.table[0].copy == d
  }

  lemma FillSteps(s: State, k: Token, inum: nat, d: Dinode)
    requires |s.table| > 0 && k !in s.tok && s.table[0].ref == 0 && s.table[0].lock == None && s.table[0].users == {}
    requires Enabled(s, Get(k, inum, 0)) && Grows(s.disk[inum], d) && d.nlink == s.disk[inum].nlink
    ensures
      var s1 := Step(s, Get(k, inum, 0));
      && Enabled(s1, Lock(k))
      && var s2 := Step(s1, Lock(k));
         && Enabled(s2, Change(k, d)) && FirstIs(s2, |s.table|, inum, Some(k), s.disk[inum])
         && var s3 := Step(s2, Change(k, d));
            Enabled(s3, Unlock(k)) && LookedUp(Step(s3, Unlock(k)), s, k, inum, d)
  {}

  /** After the lookup: the only reference is `k`, and all else is as in `s`. */
  ghost predicate LookedUp(r: State, s: State, k: Token, inum: nat, d: Dinode) {
    && r.disk == s.disk && FirstIs(r, |s.table|, inum, None, d) && Has(r, k, Ref) && r.tok[k].slot == 0
    && r.table[0].ref == 1 && r.table[0].users == {k} && r.tok.Keys == s.tok.Keys + {k}
    && forall e :: 0 < e < |s.table| ==> r.table[e] == s.table[e]
  }

  lemma ForgetSteps(s: State, r: State, k: Token, inum: nat, d: Dinode)
    requires LookedUp(r, s, k, inum, d) && k !in s.tok && d.nlink > 0 && Enabled(s, Get(k, inum, 0))
    requires forall e :: 0 <= e < |s.table| ==> s.table[e].ref == 0
    ensures Enabled(r, Put(k))
    ensures
      var r1 := Step(r, Put(k));
      && Enabled(r1, Get(k, inum, 0))
      && var r2 := Step(r1, Get(k, inum, 0));
         Enabled(r2, Lock(k)) && FirstIs(Step(r2, Lock(k)), |s.table|, inum, Some(k), s.disk[inum])
  {}

  /** The lookup leaves the unlocked copy ahead of the disk; and if the last reference goes
      before the next iupdate, the block number is lost: whoever looks next has the
      inode as it was. */
  lemma FillIsForgotten(disk: seq<Dinode>, n: nat, any: Dinode, k: Token, inum: nat, i: nat, b: nat)
    requires n > 0 && inum < |disk| && disk[inum].typ != 0 && disk[inum].nlink > 0
    requires i < |disk[inum].addrs| && disk[inum].addrs[i] == 0 != b
    ensures
      var s, d := Init(disk, n, any), disk[inum].(addrs := disk[inum].addrs[i := b]);
      var evs := Lookup(k, inum, d);
      && Runs(s, evs) && After(s, evs).disk == disk && FirstIs(After(s, evs), n, inum, None, d) && d != disk[inum]
      && Runs(s, evs + [Put(k)] + [Get(k, inum, 0)] + [Lock(k)])
      && FirstIs(After(s, evs + [Put(k)] + [Get(k, inum, 0)] + [Lock(k)]), n, inum, Some(k), disk[inum])
  {
    hide Step, Runs, After, FirstIs;
    var s, d := Init(disk, n, any), disk[inum].(addrs := disk[inum].addrs[i := b]);
    FillSteps(s, k, inum, d);
    LookupRuns(s, k, inum, d);
    var evs := Lookup(k, inum, d);
    ForgetSteps(s, After(s, evs), k, inum, d);
    RunsMore(s, evs, Put(k));
    RunsMore(s, evs + [Put(k)], Get(k, inum, 0));
    RunsMore(s, evs + [Put(k)] + [Get(k, inum, 0)], Lock(k));
  }

  lemma LookupRuns(s: State, k: Token, inum: nat, d: Dinode)
    requires Enabled(s, Get(k, inum, 0))
    requires
      var s1 := Step(s, Get(k, inum, 0));
      && Enabled(s1, Lock(k))
      && var s2 := Step(s1, Lock(k));
         && Enabled(s2, Change(k, d))
         && var s3 := Step(s2, Change(k, d));
            Enabled(s3, Unlock(k))
    ensures Runs(s, Lookup(k, inum, d))
    ensures After(s, Lookup(k, inum, d)) ==
      Step(Step(Step(Step(s, Get(k, inum, 0)), Lock(k)), Change(k, d)), Unlock(k))
  {
    hide Enabled, Step;
    var a, b, c, e := Get(k, inum, 0), Lock(k), Change(k, d), Unlock(k);
    assert Runs(s, []) && After(s, []) == s && [] + [a] == [a] && [a] + [b] == [a, b];
    assert [a, b] + [c] == [a, b, c] && [a, b, c] + [e] == [a, b, c, e];
    RunsMore(s, [], a);
    RunsMore(s, [a], b);
    RunsMore(s, [a, b], c);
    RunsMore(s, [a, b, c], e);
  }
}
