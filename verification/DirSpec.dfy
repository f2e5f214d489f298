/** Directories as finite maps from names of at most DIRSIZ bytes to inode numbers
    (kernel/fs.h, kernel/fs.c). */
module DirSpec {
  import opened Blocks

  const DIRSIZ := 14

  /** sizeof(struct dirent) */
  const DIRENT := 16

  type Name = n: seq<Byte> | |n| == DIRSIZ witness seq(DIRSIZ, _ => 0)

  /** strncpy of a string without NULs into a name field: cut off after DIRSIZ
      bytes, padded with NULs. */
  function NameOf(s: seq<Byte>): (n: Name) {
    if |s| >= DIRSIZ then s[..DIRSIZ] else s + seq(DIRSIZ - |s|, _ => 0)
  }

  /** The bytes of a directory entry. */
  function Entry(inum: nat, name: Name): (e: seq<Byte>)
    requires inum < 0x1_0000
    ensures |e| == DIRENT
  {
    [inum % 0x100, inum / 0x100] + name
  }

  // ----- Names -----

  /** The string in a buffer: up to the first NUL, and no more than `n` bytes. */
  function Prefix(b: seq<Byte>, n: nat): (k: seq<Byte>)
    ensures |k| <= n && |k| <= |b|
  {
    if n == 0 || b == [] || b[0] == 0 then [] else [b[0]] + Prefix(b[1..], n - 1)
  }

  function Key(b: seq<Byte>): (k: seq<Byte>) {
    Prefix(b, DIRSIZ)
  }

  lemma {:induction false} PrefixOfClean(s: seq<Byte>, n: nat)
    requires forall i :: 0 <= i < |s| ==> s[i] != 0
    ensures Prefix(s, n) == if |s| <= n then s else s[..n]
  {
    if n > 0 && s != [] {
      PrefixOfClean(s[1..], n - 1);
    }
  }

  lemma {:induction false} PrefixIsClean(b: seq<Byte>, n: nat)
    ensures forall i :: 0 <= i < |Prefix(b, n)| ==> Prefix(b, n)[i] != 0
  {
    if !(n == 0 || b == [] || b[0] == 0) {
      PrefixIsClean(b[1..], n - 1);
    }
  }

  /** A stored name gives back the string that was stored. */
  lemma {:induction false} PrefixOfPadded(s: seq<Byte>, pad: nat, n: nat)
    requires (forall i :: 0 <= i < |s| ==> s[i] != 0) && |s| <= n
    ensures Prefix(s + seq(pad, _ => 0), n) == s
  {
    if s != [] {
      var t := s + seq(pad, _ => 0);
      assert t[1..] == s[1..] + seq(pad, _ => 0);
      PrefixOfPadded(s[1..], pad, n - 1);
    }
  }

  lemma KeyOfName(s: seq<Byte>)
    requires (forall i :: 0 <= i < |s| ==> s[i] != 0) && |s| <= DIRSIZ
    ensures Key(NameOf(s)) == s
  {
    PrefixOfPadded(s, DIRSIZ - |s|, DIRSIZ);
    assert |s| == DIRSIZ ==> s + seq(0, _ => 0) == s;
  }

  /** A byte of a buffer, the terminator standing behind it. */
  function At(b: seq<Byte>, i: nat): (x: Byte) {
    if i < |b| then b[i] else 0
  }

  /** strncmp, as far as namecmp looks at it. */
  method Strncmp(p: seq<Byte>, q: seq<Byte>, n: nat) returns (same: bool)
    ensures same <==> Prefix(p, n) == Prefix(q, n)
  {
    var i := 0;
    while i < n && At(p, i) != 0 && At(p, i) == At(q, i)
      invariant i <= n && i <= |p| && i <= |q|
      invariant Prefix(p, n) == Prefix(q, n) <==> Prefix(p[i..], n - i) == Prefix(q[i..], n - i)
    {
      assert p[i..][1..] == p[i + 1..] && q[i..][1..] == q[i + 1..];
      PrefixStep(p[i..], q[i..], n - i);
      i := i + 1;
    }
    if i == n {
      return true;
    }
    PrefixEnd(p[i..], q[i..], n - i);
    return At(p, i) == At(q, i);
  }

  lemma PrefixStep(p: seq<Byte>, q: seq<Byte>, n: nat)
    requires n > 0 && p != [] && q != [] && p[0] == q[0] != 0
    ensures Prefix(p, n) == Prefix(q, n) <==> Prefix(p[1..], n - 1) == Prefix(q[1..], n - 1)
  {
    assert ([p[0]] + Prefix(p[1..], n - 1))[1..] == Prefix(p[1..], n - 1);
    assert ([q[0]] + Prefix(q[1..], n - 1))[1..] == Prefix(q[1..], n - 1);
  }

  lemma PrefixEnd(p: seq<Byte>, q: seq<Byte>, n: nat)
    requires n > 0 && (At(p, 0) == 0 || At(p, 0) != At(q, 0))
    ensures Prefix(p, n) == Prefix(q, n) <==> At(p, 0) == At(q, 0)
  {
    if At(p, 0) != 0 && At(q, 0) != 0 {
      assert Prefix(p, n)[0] == p[0] && Prefix(q, n)[0] == q[0];
    }
  }

  // ----- Entries -----

  function Count(c: seq<Byte>): (n: nat) {
    |c| / DIRENT
  }

  function Inum(c: seq<Byte>, i: nat): (n: nat)
    requires i < Count(c)
    ensures n < 0x1_0000
  {
    var lo: int, hi: int := c[DIRENT * i], c[DIRENT * i + 1];
    lo + 0x100 * hi
  }

  function NameAt(c: seq<Byte>, i: nat): (k: seq<Byte>)
    requires i < Count(c)
  {
    Key(c[DIRENT * i + 2..DIRENT * i + DIRENT])
  }

  /** No name is bound twice. */
  ghost predicate DirOk(c: seq<Byte>) {
    && |c| % DIRENT == 0
    && forall i, j :: 0 <= i < j < Count(c) && Inum(c, i) != 0 && Inum(c, j) != 0 ==> NameAt(c, i) != NameAt(c, j)
  }

  /** The first binding of a name from entry `i` on; 0 if there is none. */
  function Find(c: seq<Byte>, k: seq<Byte>, i: nat): (n: nat)
    decreases |c| - i
  {
    if i >= Count(c) then 0
    else if Inum(c, i) != 0 && NameAt(c, i) == k then Inum(c, i)
    else Find(c, k, i + 1)
  }

  function Lookup(c: seq<Byte>, k: seq<Byte>): (n: nat) {
    Find(c, k, 0)
  }

  lemma {:induction false} FindSome(c: seq<Byte>, k: seq<Byte>, i: nat, j: nat)
    requires DirOk(c) && i <= j < Count(c) && Inum(c, j) != 0 && NameAt(c, j) == k
    ensures Find(c, k, i) == Inum(c, j)
    decreases j - i
  {
    hide NameAt, Inum;
    if i < j {
      FindSome(c, k, i + 1, j);
    }
  }

  lemma {:induction false} FindNone(c: seq<Byte>, k: seq<Byte>, i: nat)
    requires forall j :: i <= j < Count(c) && Inum(c, j) != 0 ==> NameAt(c, j) != k
    ensures Find(c, k, i) == 0
    decreases |c| - i
  {
    hide NameAt, Inum;
    if i < Count(c) {
      FindNone(c, k, i + 1);
    }
  }

  lemma {:induction false} FindIs(c: seq<Byte>, k: seq<Byte>, i: nat)
    ensures Find(c, k, i) == 0 <==> forall j :: i <= j < Count(c) && Inum(c, j) != 0 ==> NameAt(c, j) != k
    decreases |c| - i
  {
    hide NameAt, Inum;
    if i < Count(c) && !(Inum(c, i) != 0 && NameAt(c, i) == k) {
      FindIs(c, k, i + 1);
    }
  }

  // ----- Linking -----

  /** The directory with `e` written at entry `i`, an old one or the next. */
  function WithEntry(c: seq<Byte>, i: nat, e: seq<Byte>): (r: seq<Byte>)
    requires |e| == DIRENT && |c| % DIRENT == 0 && i <= Count(c)
  {
    c[..DIRENT * i] + e + (if i < Count(c) then c[DIRENT * i + DIRENT..] else [])
  }

  lemma WithEntryAt(c: seq<Byte>, i: nat, inum: nat, k: seq<Byte>, j: nat)
    requires |c| % DIRENT == 0 && i <= Count(c) && inum < 0x1_0000 && j < Count(WithEntry(c, i, Entry(inum, NameOf(k))))
    requires (forall m :: 0 <= m < |k| ==> k[m] != 0) && |k| <= DIRSIZ
    ensures
      var r := WithEntry(c, i, Entry(inum, NameOf(k)));
      if j == i then Inum(r, j) == inum && NameAt(r, j) == k
      else j < Count(c) && Inum(r, j) == Inum(c, j) && NameAt(r, j) == NameAt(c, j)
  {
    hide NameOf, Key;
    var e := Entry(inum, NameOf(k));
    var r := WithEntry(c, i, e);
    KeyOfName(k);
    if j == i {
      assert r[DIRENT * j + 2..DIRENT * j + DIRENT] == NameOf(k);
    } else {
      var at := DIRENT * j;
      assert j < i ==> at + DIRENT <= DIRENT * i;
      assert j > i ==> at >= DIRENT * i + DIRENT;
      assert |r| == if i < Count(c) then |c| else |c| + DIRENT;
      assert j < Count(c) && at + DIRENT <= |c|;
      SameBytes(c, DIRENT * i, e, r, at);
      assert r[at + 2..at + DIRENT] == c[at + 2..at + DIRENT];
    }
  }

  lemma SameBytes(c: seq<Byte>, from: nat, e: seq<Byte>, r: seq<Byte>, at: nat)
    requires |e| == DIRENT && from <= |c| && at + DIRENT <= |c| && (at + DIRENT <= from || at >= from + DIRENT)
    requires r == c[..from] + e + (if from + DIRENT <= |c| then c[from + DIRENT..] else [])
    ensures |c| <= |r| && forall x :: at <= x < at + DIRENT ==> r[x] == c[x]
  {}

  /** Where dirlink may put a new entry: an unused one, or the end. */
  predicate Vacant(c: seq<Byte>, i: nat) {
    |c| % DIRENT == 0 && i <= Count(c) && (i < Count(c) ==> Inum(c, i) == 0)
  }

  lemma FirstVacant(c: seq<Byte>, i: nat)
    requires Vacant(c, i) && forall j :: 0 <= j < i ==> Inum(c, j) != 0
    ensures i < Count(c) <==> exists j :: 0 <= j < Count(c) && Inum(c, j) == 0
    ensures if i < Count(c) then DIRENT * i + DIRENT <= |c| else DIRENT * i == |c|
  {
    hide Inum;
  }

  ghost predicate Linked(c: seq<Byte>, r: seq<Byte>, i: nat, inum: nat, k: seq<Byte>) {
    && |r| % DIRENT == 0 && i < Count(r) && Count(c) <= Count(r) && Inum(r, i) == inum && NameAt(r, i) == k
    && forall j :: 0 <= j < Count(r) && j != i ==>
         j < Count(c) && Inum(r, j) == Inum(c, j) && NameAt(r, j) == NameAt(c, j)
  }

  lemma WithEntryLinked(c: seq<Byte>, i: nat, inum: nat, k: seq<Byte>)
    requires Vacant(c, i) && inum < 0x1_0000 && (forall m :: 0 <= m < |k| ==> k[m] != 0) && |k| <= DIRSIZ
    ensures Linked(c, WithEntry(c, i, Entry(inum, NameOf(k))), i, inum, k)
  {
    hide Inum, NameAt, NameOf, Entry;
    var r := WithEntry(c, i, Entry(inum, NameOf(k)));
    assert |r| == if i < Count(c) then |c| else |c| + DIRENT;
    forall j | 0 <= j < Count(r)
      ensures
        if j == i then Inum(r, j) == inum && NameAt(r, j) == k
        else j < Count(c) && Inum(r, j) == Inum(c, j) && NameAt(r, j) == NameAt(c, j)
    {
      WithEntryAt(c, i, inum, k, j);
    }
  }

  /** A new entry adds exactly its binding. */
  lemma LinkAdds(c: seq<Byte>, r: seq<Byte>, i: nat, inum: nat, k: seq<Byte>, k': seq<Byte>)
    requires DirOk(c) && Vacant(c, i) && Lookup(c, k) == 0 && inum != 0 && Linked(c, r, i, inum, k)
    ensures DirOk(r) && Lookup(r, k') == if k' == k then inum else Lookup(c, k')
  {
    hide Inum, NameAt;
    FindIs(c, k, 0);
    assert DirOk(r);
    FindIs(c, k', 0);
    if k' == k {
      FindSome(r, k, 0, i);
    } else if Lookup(c, k') == 0 {
      FindNone(r, k', 0);
    } else {
      var j :| 0 <= j < Count(c) && Inum(c, j) != 0 && NameAt(c, j) == k';
      FindSome(c, k', 0, j);
      FindSome(r, k', 0, j);
    }
  }

  // ----- Paths -----

  const SLASH: Byte := 47

  function SkipSlashes(p: seq<Byte>): (r: seq<Byte>)
    ensures |r| <= |p| && (r != [] ==> r[0] != SLASH)
  {
    if p != [] && p[0] == SLASH then SkipSlashes(p[1..]) else p
  }

  function SkipName(p: seq<Byte>): (r: seq<Byte>)
    ensures |r| <= |p| && (p != [] && p[0] != SLASH ==> |r| < |p|)
  {
    if p != [] && p[0] != SLASH then SkipName(p[1..]) else p
  }

  /** The elements of a path, as repeated calls of skipelem give them. */
  function Elements(p: seq<Byte>): (es: seq<seq<Byte>>)
    decreases |p|
  {
    var s := SkipSlashes(p);
    if s == [] then [] else [s[..|s| - |SkipName(s)|]] + Elements(SkipName(s))
  }

  /** skipelem on a path without its terminator: false at the end, else the
      DIRSIZ-byte buffer that it fills, and where the path goes on. */
  method Skipelem(path: seq<Byte>, name: Name) returns (more: bool, name': Name, rest: seq<Byte>)
    requires forall i :: 0 <= i < |path| ==> path[i] != 0
    ensures more <==> Elements(path) != []
    ensures more ==>
      && Key(name') == (if |Elements(path)[0]| > DIRSIZ then Elements(path)[0][..DIRSIZ] else Elements(path)[0])
      && Elements(rest) == Elements(path)[1..] && (rest == [] <==> |Elements(path)| == 1)
  {
    name', rest := name, path;
    while rest != [] && rest[0] == SLASH
      invariant SkipSlashes(rest) == SkipSlashes(path) && forall i :: 0 <= i < |rest| ==> rest[i] != 0
    {
      rest := rest[1..];
    }
    if rest == [] {
      return false, name, [];
    }
    var s := rest;
    var len := 0;
    while len < |s| && s[len] != SLASH
      invariant 0 <= len <= |s| && SkipName(s[len..]) == SkipName(s)
    {
      assert s[len..][1..] == s[len + 1..];
      len := len + 1;
    }
    if len >= DIRSIZ {
      name' := s[..DIRSIZ];
      PrefixOfClean(name', DIRSIZ);
    } else {
      name' := s[..len] + [0] + name[len + 1..];
      PrefixStops(s[..len], name[len + 1..], DIRSIZ);
    }
    rest := s[len..];
    assert SkipName(s) == rest;
    ghost var after := rest;
    while rest != [] && rest[0] == SLASH
      invariant SkipSlashes(rest) == SkipSlashes(after)
    {
      rest := rest[1..];
    }
    more := true;
  }

  lemma {:induction false} PrefixStops(s: seq<Byte>, junk: seq<Byte>, n: nat)
    requires (forall i :: 0 <= i < |s| ==> s[i] != 0) && |s| < n
    ensures Prefix(s + [0] + junk, n) == s
  {
    if s != [] {
      assert (s + [0] + junk)[1..] == s[1..] + [0] + junk;
      PrefixStops(s[1..], junk, n - 1);
    }
  }

  predicate Element(e: seq<Byte>) {
    e != [] && SLASH !in e
  }

  function Slashes(n: nat): (r: seq<Byte>) {
    seq(n, _ => SLASH)
  }

  /** The path with these elements and that many slashes before, between and behind them. */
  function Spell(gaps: seq<nat>, es: seq<seq<Byte>>): (p: seq<Byte>)
    requires |gaps| == |es| + 1
  {
    Slashes(gaps[0]) + if es == [] then [] else es[0] + Spell(gaps[1..], es[1..])
  }

  /** Elements, with at least one slash between any two. */
  predicate Spelling(gaps: seq<nat>, es: seq<seq<Byte>>) {
    && |gaps| == |es| + 1 && (forall i :: 0 <= i < |es| ==> Element(es[i]))
    && forall i :: 0 < i < |es| ==> gaps[i] > 0
  }

  /** The elements of a path are what lies between its slashes, however many. */
  lemma {:induction false} ElementsOfPath(gaps: seq<nat>, es: seq<seq<Byte>>)
    requires Spelling(gaps, es)
    ensures Elements(Spell(gaps, es)) == es
    decreases |es|
  {
    hide Elements, Element;
    SpellStarts(gaps, es);
    if es == [] {
      JustSlashes(gaps[0]);
      assert Slashes(gaps[0]) + [] == Slashes(gaps[0]);
    } else {
      ElementsOfPath(gaps[1..], es[1..]);
      ElementsStep(gaps[0], es[0], Spell(gaps[1..], es[1..]));
      assert [es[0]] + es[1..] == es;
      var more := Spell(gaps[1..], es[1..]);
      assert Slashes(gaps[0]) + (es[0] + more) == Slashes(gaps[0]) + es[0] + more;
    }
  }

  /** Behind the first element the path ends or goes on with a slash. */
  lemma SpellStarts(gaps: seq<nat>, es: seq<seq<Byte>>)
    requires Spelling(gaps, es)
    ensures es != [] ==>
      var more := Spell(gaps[1..], es[1..]);
      Spelling(gaps[1..], es[1..]) && (more == [] || more[0] == SLASH)
  {}

  /** Every path is such a spelling of its elements. */
  lemma {:induction false} EveryPath(p: seq<Byte>) returns (gaps: seq<nat>)
    ensures Spelling(gaps, Elements(p)) && Spell(gaps, Elements(p)) == p
    decreases |p|
  {
    hide Elements, SkipName, SkipSlashes;
    var s := SkipSlashes(p);
    var n := |p| - |s|;
    LeadingSlashes(p);
    if s == [] {
      ElementsNone(p);
      gaps := [n];
    } else {
      ElementsOne(p);
      FirstElement(s);
      var e, more := s[..|s| - |SkipName(s)|], SkipName(s);
      var rest := EveryPath(more);
      gaps := [n] + rest;
      var es := Elements(more);
      assert Elements(p) == [e] + es && gaps[1..] == rest && ([e] + es)[1..] == es;
      SpellCons(n, rest, e, es, more);
      assert Slashes(n) + (e + more) == p;
    }
  }

  lemma SpellCons(n: nat, rest: seq<nat>, e: seq<Byte>, es: seq<seq<Byte>>, more: seq<Byte>)
    requires Spelling(rest, es) && Element(e) && Spell(rest, es) == more && (more == [] || more[0] == SLASH)
    ensures Spelling([n] + rest, [e] + es) && Spell([n] + rest, [e] + es) == Slashes(n) + (e + more)
  {
    assert ([n] + rest)[1..] == rest && ([e] + es)[1..] == es;
    if es != [] && rest[0] == 0 {
      SpellFirst(rest, es);
    }
  }

  lemma SpellFirst(gaps: seq<nat>, es: seq<seq<Byte>>)
    requires Spelling(gaps, es) && es != [] && gaps[0] == 0
    ensures Spell(gaps, es) != [] && Spell(gaps, es)[0] == es[0][0] != SLASH
  {}

  lemma {:induction false} LeadingSlashes(p: seq<Byte>)
    ensures p == Slashes(|p| - |SkipSlashes(p)|) + SkipSlashes(p)
  {
    if p != [] && p[0] == SLASH {
      LeadingSlashes(p[1..]);
      var n := |p| - 1 - |SkipSlashes(p[1..])|;
      assert Slashes(n + 1) == [SLASH] + Slashes(n);
      assert p == [p[0]] + p[1..];
    }
  }

  lemma {:induction false} FirstElement(s: seq<Byte>)
    requires s != [] && s[0] != SLASH
    ensures
      var e, more := s[..|s| - |SkipName(s)|], SkipName(s);
      Element(e) && s == e + more && (more == [] || more[0] == SLASH)
  {
    if |s| > 1 && s[1] != SLASH {
      FirstElement(s[1..]);
      assert s == [s[0]] + s[1..];
    } else if |s| > 1 {
      assert SkipName(s) == s[1..];
    }
  }

  lemma JustSlashes(n: nat)
    ensures Elements(Slashes(n)) == []
  {
    SkipAll(n, []);
    assert Slashes(n) + [] == Slashes(n);
  }

  lemma {:induction false} SkipAll(n: nat, more: seq<Byte>)
    requires more == [] || more[0] != SLASH
    ensures SkipSlashes(Slashes(n) + more) == more
  {
    if n == 0 {
      assert Slashes(0) + more == more;
    } else {
      SkipAll(n - 1, more);
      assert (Slashes(n) + more)[1..] == Slashes(n - 1) + more;
    }
  }

  lemma ElementsNone(p: seq<Byte>)
    requires SkipSlashes(p) == []
    ensures Elements(p) == []
  {}

  lemma ElementsStep(n: nat, e: seq<Byte>, more: seq<Byte>)
    requires Element(e) && (more == [] || more[0] == SLASH)
    ensures Elements(Slashes(n) + e + more) == [e] + Elements(more)
  {
    hide Elements, SkipName, SkipSlashes;
    var p := Slashes(n) + e + more;
    assert p == Slashes(n) + (e + more) && (e + more)[0] == e[0];
    SkipAll(n, e + more);
    SkipElement(e, more);
    assert (e + more)[..|e + more| - |more|] == e;
    ElementsOne(p);
  }

  lemma ElementsOne(p: seq<Byte>)
    requires SkipSlashes(p) != []
    ensures
      var s := SkipSlashes(p);
      Elements(p) == [s[..|s| - |SkipName(s)|]] + Elements(SkipName(s))
  {}

  lemma {:induction false} SkipElement(e: seq<Byte>, more: seq<Byte>)
    requires SLASH !in e && (more == [] || more[0] == SLASH)
    ensures SkipName(e + more) == more
  {
    if e == [] {
      assert e + more == more;
    } else {
      assert (e + more)[1..] == e[1..] + more;
      SkipElement(e[1..], more);
    }
  }

  /** What of a path element counts. */
  function First(e: seq<Byte>): (r: seq<Byte>) {
    if |e| > DIRSIZ then e[..DIRSIZ] else e
  }

  /** Two path elements name the same entry in every directory if and only if their first
      DIRSIZ bytes agree. */
  lemma SameEntry(e: seq<Byte>, f: seq<Byte>)
    requires forall i :: 0 <= i < |e| ==> e[i] != 0
    requires forall i :: 0 <= i < |f| ==> f[i] != 0
    ensures First(e) == First(f) <==> forall c :: DirOk(c) ==> Lookup(c, Key(e)) == Lookup(c, Key(f))
  {
    hide DirOk, Lookup, Key;
    KeyIsFirst(e);
    KeyIsFirst(f);
    if First(e) != First(f) {
      var c := JustEntry(Key(e), Key(f));
      assert DirOk(c) && Lookup(c, Key(e)) != Lookup(c, Key(f));
    }
  }

  lemma KeyIsFirst(e: seq<Byte>)
    requires forall i :: 0 <= i < |e| ==> e[i] != 0
    ensures Key(e) == First(e) && |Key(e)| <= DIRSIZ && forall i :: 0 <= i < |Key(e)| ==> Key(e)[i] != 0
  {
    PrefixOfClean(e, DIRSIZ);
  }

  /** A directory with one entry. */
  lemma JustEntry(k: seq<Byte>, other: seq<Byte>) returns (c: seq<Byte>)
    requires |k| <= DIRSIZ && (forall i :: 0 <= i < |k| ==> k[i] != 0) && other != k
    ensures DirOk(c) && Lookup(c, k) == 1 && Lookup(c, other) == 0
  {
    hide NameAt, Inum, WithEntry, Entry, NameOf;
    c := WithEntry([], 0, Entry(1, NameOf(k)));
    WithEntryLinked([], 0, 1, k);
    LinkAdds([], c, 0, 1, k, k);
    LinkAdds([], c, 0, 1, k, other);
  }
}
