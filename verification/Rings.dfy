/** The two ring buffers with 32-bit indices that are never reduced: pipes
    (kernel/pipe.c) and console input (kernel/console.c). */
module Rings {
  import opened Blocks

  const PIPESIZE := 512
  const INPUT_BUF_SIZE := 128

  /** A 32-bit index moved on. */
  function Plus(i: Word32, n: nat): (r: Word32) {
    (i + n) % 0x1_0000_0000
  }

  /** The ring holds `q` from index `i` on; `end` is where the next byte goes. */
  ghost predicate Holds(buf: seq<Byte>, i: Word32, end: Word32, q: seq<Byte>) {
    && (|buf| == PIPESIZE || |buf| == INPUT_BUF_SIZE) && |q| <= |buf| && end == Plus(i, |q|)
    && forall k :: 0 <= k < |q| ==> buf[(i + k) % |buf|] == q[k]
  }

  lemma Wrapped(k: nat, size: nat)
    requires size == PIPESIZE || size == INPUT_BUF_SIZE
    ensures (k + 0x1_0000_0000) % size == k % size
  {
    if size == PIPESIZE {
      assert k + 0x1_0000_0000 == k + PIPESIZE * 0x80_0000;
    } else {
      assert k + 0x1_0000_0000 == k + INPUT_BUF_SIZE * 0x200_0000;
    }
  }

  lemma PlusIs(i: Word32, n: nat)
    requires n < 0x1_0000_0000
    ensures Plus(i, n) == if i + n < 0x1_0000_0000 then i + n else i + n - 0x1_0000_0000
  {}

  lemma Position(i: Word32, k: nat, size: nat)
    requires (size == PIPESIZE || size == INPUT_BUF_SIZE) && k < 0x1_0000_0000
    ensures Plus(i, k) % size == (i + k) % size
  {
    hide Plus;
    PlusIs(i, k);
    if i + k >= 0x1_0000_0000 {
      Wrapped(i + k - 0x1_0000_0000, size);
    }
  }

  lemma Elsewhere(i: nat, k: nat, m: nat, size: nat)
    requires (size == PIPESIZE || size == INPUT_BUF_SIZE) && k < m < size
    ensures (i + k) % size != (i + m) % size
  {}

  lemma SamePlace(i: Word32, a: nat, b: nat)
    requires a <= PIPESIZE && b <= PIPESIZE
    ensures Plus(i, a) == Plus(i, b) <==> a == b
  {
    PlusIs(i, a);
    PlusIs(i, b);
  }

  lemma PlusOne(i: Word32, n: nat)
    requires n < PIPESIZE
    ensures Plus(Plus(i, n), 1) == Plus(i, n + 1)
  {
    PlusIs(i, n);
    PlusIs(Plus(i, n), 1);
    PlusIs(i, n + 1);
  }

  /** Putting a byte at the end. */
  lemma Put(buf: seq<Byte>, i: Word32, end: Word32, q: seq<Byte>, c: Byte)
    requires Holds(buf, i, end, q) && |q| < |buf|
    ensures Holds(buf[end % |buf| := c], i, Plus(end, 1), q + [c])
  {
    hide Plus;
    Position(i, |q|, |buf|);
    PlusOne(i, |q|);
    var b := buf[end % |buf| := c];
    forall k | 0 <= k < |q + [c]|
      ensures b[(i + k) % |b|] == (q + [c])[k]
    {
      if k < |q| {
        Elsewhere(i, k, |q|, |buf|);
      }
    }
  }

  /** Taking the byte at the front. */
  lemma Get(buf: seq<Byte>, i: Word32, end: Word32, q: seq<Byte>)
    requires Holds(buf, i, end, q)
    ensures i == end <==> q == []
    ensures end == Plus(i, |buf|) <==> |q| == |buf|
    ensures q != [] ==> buf[i % |buf|] == q[0] && Holds(buf, Plus(i, 1), end, q[1..])
  {
    hide Plus;
    PlusIs(i, 0);
    SamePlace(i, 0, |q|);
    SamePlace(i, |q|, |buf|);
    if q != [] {
      assert buf[(i + 0) % |buf|] == q[0];
      NextIndex(i, |q| - 1);
      forall k | 0 <= k < |q| - 1
        ensures buf[(Plus(i, 1) + k) % |buf|] == q[1..][k]
      {
        Shifted(i, k, |buf|);
        assert buf[(i + (k + 1)) % |buf|] == q[k + 1];
      }
    }
  }

  lemma NextIndex(i: Word32, n: nat)
    requires n < PIPESIZE
    ensures Plus(Plus(i, 1), n) == Plus(i, n + 1)
  {
    PlusIs(i, 1);
    PlusIs(Plus(i, 1), n);
    PlusIs(i, n + 1);
  }

  lemma Shifted(i: Word32, k: nat, size: nat)
    requires size == PIPESIZE || size == INPUT_BUF_SIZE
    ensures (Plus(i, 1) + k) % size == (i + (k + 1)) % size
  {
    hide Plus;
    PlusIs(i, 1);
    if i + 1 == 0x1_0000_0000 {
      Wrapped(k, size);
    }
  }

  /** Taking back the byte at the end. */
  lemma Unput(buf: seq<Byte>, i: Word32, end: Word32, q: seq<Byte>)
    requires Holds(buf, i, end, q) && q != []
    ensures
      var end' := Plus(end, 0xffff_ffff);
      buf[end' % |buf|] == q[|q| - 1] && Holds(buf, i, end', q[..|q| - 1])
  {
    hide Plus;
    var end' := Plus(end, 0xffff_ffff);
    PlusIs(i, |q|);
    PlusIs(i, |q| - 1);
    PlusIs(end, 0xffff_ffff);
    Position(i, |q| - 1, |buf|);
  }

  lemma Snoc(s: seq<Byte>, i: nat, j: nat)
    requires i <= j < |s|
    ensures s[i..j + 1] == s[i..j] + [s[j]]
  {}

  lemma Bounded(buf: seq<Byte>, i: Word32, end: Word32, q: seq<Byte>)
    requires Holds(buf, i, end, q)
    ensures |q| <= |buf|
  {}

  /** How a critical section ends: the caller goes to sleep and comes back, or returns. */
  datatype Outcome = Sleeps | Returns(r: int)

  /** From queue `q0` and the bytes `t0` taken before, `bytes` and then `lost` went. */
  ghost predicate Delivered(q0: seq<Byte>, t0: seq<Byte>, bytes: seq<Byte>, lost: seq<Byte>, q: seq<Byte>,
      t: seq<Byte>) {
    q0 == bytes + lost + q && t == t0 + bytes + lost
  }

  lemma DeliveredNone(q: seq<Byte>, t: seq<Byte>)
    ensures Delivered(q, t, [], [], q, t)
  {
    assert t + [] + [] == t;
  }

  lemma DeliveredOne(q0: seq<Byte>, t0: seq<Byte>, bytes: seq<Byte>, q: seq<Byte>, t: seq<Byte>, c: Byte, q': seq<Byte>,
      t': seq<Byte>)
    requires Delivered(q0, t0, bytes, [], q, t) && q == [c] + q' && t' == t + [c]
    ensures Delivered(q0, t0, bytes + [c], [], q', t') && Delivered(q0, t0, bytes, [c], q', t')
  {
    assert q0 == bytes + [c] + q';
    assert t' == t0 + bytes + [c];
  }

  /** kernel/pipe.c. Each method is one critical section of the pipe's lock. */
  class PipeRing {
    var data: seq<Byte>
    var nread: Word32
    var nwrite: Word32
    var readopen: bool
    var writeopen: bool
    ghost var queue: seq<Byte>    // what is in the pipe
    ghost var sent: seq<Byte>     // every byte that ever went in
    ghost var taken: seq<Byte>    // every byte that ever came out

    ghost predicate Valid()
      reads this
    {
      |data| == PIPESIZE && Holds(data, nread, nwrite, queue) && sent == taken + queue
    }

    constructor ()
      ensures Valid() && sent == [] && readopen && writeopen
    {
      data, nread, nwrite, readopen, writeopen := seq(PIPESIZE, _ => 0), 0, 0, true, true;
      queue, sent, taken := [], [], [];
    }

    method PutByte(c: Byte)
      requires Valid() && |queue| < PIPESIZE
      modifies this`data, this`nwrite, this`queue, this`sent
      ensures Valid() && queue == old(queue) + [c] && sent == old(sent) + [c]
    {
      Put(data, nread, nwrite, queue, c);
      data := data[nwrite % PIPESIZE := c];
      nwrite := Plus(nwrite, 1);
      queue, sent := queue + [c], sent + [c];
    }

    method GetByte() returns (c: Byte)
      requires Valid() && queue != []
      modifies this`nread, this`queue, this`taken
      ensures Valid() && old(queue) == [c] + queue && taken == old(taken) + [c]
    {
      Get(data, nread, nwrite, queue);
      c := data[nread % PIPESIZE];
      nread := Plus(nread, 1);
      queue, taken := queue[1..], taken + [c];
    }

    /** pipewrite from byte `i` of `src` on, until it returns or has to sleep. The
        source is readable for `readable` bytes, and the process is seen to be killed
        from byte `killedAt` on: bytes before that one have gone in. */
    method Write(src: seq<Byte>, i: nat, killedAt: nat, readable: nat) returns (i': nat, out: Outcome)
      requires Valid() && i <= |src|
      modifies this`data, this`nwrite, this`queue, this`sent
      ensures Valid() && i <= i' <= |src| && queue == old(queue) + src[i..i'] && sent == old(sent) + src[i..i']
      ensures i < i' ==> readopen && i' <= killedAt && i' <= readable
      ensures out == Returns(-1) <==> i' < |src| && (!readopen || killedAt <= i')
      ensures out == Sleeps <==> i' < |src| && readopen && i' < killedAt && |queue| == PIPESIZE
      ensures out != Sleeps && out != Returns(-1) ==> out == Returns(i') && (i' == |src| || readable <= i')
    {
      hide Holds, Plus;
      i' := i;
      while i' < |src|
        invariant Valid() && i <= i' <= |src| && queue == old(queue) + src[i..i'] && sent == old(sent) + src[i..i']
        invariant i < i' ==> readopen && i' <= killedAt && i' <= readable
      {
        if !readopen || killedAt <= i' {
          return i', Returns(-1);
        }
        Get(data, nread, nwrite, queue);
        if nwrite == Plus(nread, PIPESIZE) {
          return i', Sleeps;
        }
        if i' >= readable {
          return i', Returns(i');
        }
        Bounded(data, nread, nwrite, queue);
        PutByte(src[i']);
        Snoc(src, i, i');
        i' := i' + 1;
      }
      out := Returns(i');
    }

    /** piperead of up to `n` bytes into a buffer that takes `room` bytes. A byte
        that cannot be delivered is lost. */
    method Read(n: nat, killed: bool, room: nat) returns (bytes: seq<Byte>, out: Outcome, ghost lost: seq<Byte>)
      requires Valid()
      modifies this`nread, this`queue, this`taken
      ensures Valid() && Delivered(old(queue), old(taken), bytes, lost, queue, taken)
      ensures out == Returns(-1) <==> old(queue) == [] && writeopen && killed
      ensures out == Sleeps <==> old(queue) == [] && writeopen && !killed
      ensures out == Sleeps || out == Returns(-1) ==> bytes == lost == queue == []
      ensures out.Returns? && out.r != -1 ==>
        && out.r == |bytes| <= n && |bytes| <= room && (|bytes| == n || |bytes| == room || queue == [])
        && |lost| <= 1 && (lost != [] ==> |bytes| == room)
      ensures out == Returns(0) && n > 0 && room > 0 ==> queue == [] && !writeopen
    {
      hide Holds, Plus, Delivered;
      bytes, lost := [], [];
      DeliveredNone(queue, taken);
      Get(data, nread, nwrite, queue);
      if nread == nwrite && writeopen {
        out := if killed then Returns(-1) else Sleeps;
        return;
      }
      for i := 0 to n
        invariant Valid() && |bytes| == i <= room && Delivered(old(queue), old(taken), bytes, [], queue, taken)
        invariant i == 0 ==> queue == old(queue)
      {
        Get(data, nread, nwrite, queue);
        if nread == nwrite {
          return bytes, Returns(i), [];
        }
        ghost var q, t := queue, taken;
        var ch := GetByte();
        DeliveredOne(old(queue), old(taken), bytes, q, t, ch, queue, taken);
        if i >= room {
          return bytes, Returns(i), [ch];
        }
        bytes := bytes + [ch];
      }
      out := Returns(n);
    }
  }

  // ----- Console input -----

  const CTRL_D: Byte := 4
  const CTRL_H: Byte := 8
  const NEWLINE: Byte := 10
  const RETURN: Byte := 13
  const CTRL_P: Byte := 16
  const CTRL_U: Byte := 21
  const DELETE: Byte := 127

  /** A line editor: what is ready to be read, and the line being typed. */
  datatype Editor = Editor(ready: seq<Byte>, line: seq<Byte>)

  /** What a typed character does to it. */
  function Typed(ed: Editor, c: Byte): (r: Editor) {
    if c == CTRL_P then ed
    else if c == CTRL_U then ed.(line := [])
    else if c == CTRL_H || c == DELETE then (if ed.line == [] then ed else ed.(line := ed.line[..|ed.line| - 1]))
    else if c == 0 || |ed.ready| + |ed.line| >= INPUT_BUF_SIZE then ed
    else
      var d := if c == RETURN then NEWLINE else c;
      var l := ed.line + [d];
      if d == NEWLINE || d == CTRL_D || |ed.ready| + |l| == INPUT_BUF_SIZE then Editor(ed.ready + l, [])
      else ed.(line := l)
  }

  /** Characters without a meaning of their own to the editor. */
  predicate Plain(c: Byte) {
    c != 0 && c != CTRL_P && c != CTRL_U && c != CTRL_H && c != DELETE && c != NEWLINE && c != RETURN && c != CTRL_D
  }

  /** Backspace takes back a character just typed, unless that filled the buffer. */
  lemma EraseUndoes(ed: Editor, c: Byte)
    requires Plain(c) && |ed.ready| + |ed.line| <= INPUT_BUF_SIZE
    requires (|ed.ready| + |ed.line| == INPUT_BUF_SIZE ==> ed.line == [])
    ensures Typed(Typed(ed, c), CTRL_H) == ed <==> |ed.ready| + |ed.line| + 1 != INPUT_BUF_SIZE
  {
    if |ed.ready| + |ed.line| + 1 < INPUT_BUF_SIZE {
      assert (ed.line + [c])[..|ed.line|] == ed.line;
    } else if |ed.ready| + |ed.line| + 1 == INPUT_BUF_SIZE {
      assert |Typed(ed, c).ready| > |ed.ready|;
    }
  }

  /** Several characters typed one after another. */
  function TypedAll(ed: Editor, cs: seq<Byte>): (r: Editor)
    decreases |cs|
  {
    if cs == [] then ed else TypedAll(Typed(ed, cs[0]), cs[1..])
  }

  ghost predicate AllPlain(cs: seq<Byte>) {
    forall i :: 0 <= i < |cs| ==> Plain(cs[i])
  }

  lemma {:induction false} TypedMore(ed: Editor, a: seq<Byte>, b: seq<Byte>)
    ensures TypedAll(ed, a + b) == TypedAll(TypedAll(ed, a), b)
    decreases |a|
  {
    hide Typed;
    if a == [] {
      assert a + b == b;
    } else {
      TypedMore(Typed(ed, a[0]), a[1..], b);
      assert (a + b)[1..] == a[1..] + b;
    }
  }

  /** Characters that leave room for the end of the line just gather in it. */
  lemma {:induction false} TypedPlain(ed: Editor, cs: seq<Byte>)
    requires AllPlain(cs) && |ed.ready| + |ed.line| + |cs| < INPUT_BUF_SIZE
    ensures TypedAll(ed, cs) == ed.(line := ed.line + cs)
    decreases |cs|
  {
    if cs == [] {
      assert ed.line + cs == ed.line;
    } else {
      assert Plain(cs[0]);
      TypedPlain(Typed(ed, cs[0]), cs[1..]);
      assert ed.line + [cs[0]] + cs[1..] == ed.line + cs;
    }
  }

  /** A line typed and ended with Return (13) or a newline (10) is read back as the line
      with a newline; ended with control-D (4), as the line alone, and the next read
      gives nothing. Until then it cannot be read. */
  lemma TypedLine(cs: seq<Byte>, end: Byte, n: nat, room: nat)
    requires AllPlain(cs) && |cs| + 1 < INPUT_BUF_SIZE && n > |cs| && room > |cs|
    requires end == 13 || end == 10 || end == 4
    ensures TypedAll(Editor([], []), cs) == Editor([], cs)
    ensures
      var ed := TypedAll(Editor([], []), cs + [end]);
      var t := Take(ed.ready, n, room, true);
      && ed.line == [] && t.done && t.bytes == (if end == 4 then cs else cs + [10])
      && (end != 4 || cs == [] ==> t.left == [])
      && (end == 4 && cs != [] ==> Take(t.left, n, room, true) == Taken([], [], true))
  {
    var none := Editor([], []);
    TypedPlain(none, cs);
    TypedMore(none, cs, [end]);
    assert [] + cs == cs && [end][1..] == [];
    var last := if end == 4 then 4 else 10;
    assert TypedAll(none, cs + [end]) == Editor([] + (cs + [last]), []);
    assert [] + (cs + [last]) == cs + [last];
    TakeLine(cs, last, n, room, true);
  }

  lemma {:induction false} TakeLine(cs: seq<Byte>, last: Byte, n: nat, room: nat, first: bool)
    requires AllPlain(cs) && n > |cs| && room > |cs| && (last == NEWLINE || last == CTRL_D)
    ensures Take(cs + [last], n, room, first) ==
      if last == NEWLINE then Taken(cs + [NEWLINE], [], true)
      else Taken(cs, if first && cs == [] then [] else [CTRL_D], true)
    decreases |cs|
  {
    if cs == [] {
      TakeLast(last, n, room, first);
      assert cs + [last] == [last] && cs + [NEWLINE] == [NEWLINE];
    } else {
      hide Take;
      assert Plain(cs[0]);
      assert (cs + [last])[1..] == cs[1..] + [last] && (cs + [last])[0] == cs[0];
      TakePlain(cs + [last], n, room, first);
      TakeLine(cs[1..], last, n - 1, room - 1, false);
      assert [cs[0]] + cs[1..] == cs;
      assert [cs[0]] + (cs[1..] + [NEWLINE]) == cs + [NEWLINE];
    }
  }

  lemma TakeLast(last: Byte, n: nat, room: nat, first: bool)
    requires n > 0 && room > 0 && (last == NEWLINE || last == CTRL_D)
    ensures Take([last], n, room, first) ==
      if last == NEWLINE then Taken([NEWLINE], [], true) else Taken([], if first then [] else [CTRL_D], true)
  {
    assert [last][1..] == [];
  }

  lemma TakePlain(ready: seq<Byte>, n: nat, room: nat, first: bool)
    requires ready != [] && Plain(ready[0]) && n > 0 && room > 0
    ensures
      var t := Take(ready[1..], n - 1, room - 1, false);
      Take(ready, n, room, first) == Taken([ready[0]] + t.bytes, t.left, t.done)
  {}

  /** Control-P (16) and NUL are not input, and once 128 characters wait to be read, nothing
      but the editing keys has an effect. */
  lemma NotInput(ed: Editor, c: Byte)
    ensures Typed(ed, 16) == Typed(ed, 0) == ed
    ensures c !in {8, 21, 127} && |ed.ready| + |ed.line| >= 128 ==> Typed(ed, c) == ed
  {}

  /** Control-U (21) takes back what was typed of a line, and delete (127) does what
      backspace (8) does. */
  lemma KillUndoes(ed: Editor, cs: seq<Byte>)
    requires AllPlain(cs) && ed.line == [] && |ed.ready| + |cs| < INPUT_BUF_SIZE
    ensures TypedAll(ed, cs + [21]) == ed
    ensures Typed(ed.(line := cs), 127) == Typed(ed.(line := cs), 8)
    ensures cs != [] ==> TypedAll(ed, cs + [8]) == TypedAll(ed, cs[..|cs| - 1])
  {
    TypedPlain(ed, cs);
    TypedMore(ed, cs, [21]);
    TypedMore(ed, cs, [8]);
    assert [21][1..] == [] && [8][1..] == [] && [] + cs == cs;
    if cs != [] {
      TypedPlain(ed, cs[..|cs| - 1]);
      assert [] + cs[..|cs| - 1] == cs[..|cs| - 1];
    }
  }

  /** What a read of up to `n` bytes into a buffer that takes `room` gets: bytes up to
      the end of a line; a control-D ends it too, and stays for the next read unless
      this one has got nothing; a byte that cannot be delivered is lost. */
  datatype Taken = Taken(bytes: seq<Byte>, left: seq<Byte>, done: bool)

  function Take(ready: seq<Byte>, n: nat, room: nat, first: bool): (t: Taken) {
    if n == 0 then Taken([], ready, true)
    else if ready == [] then Taken([], [], false)
    else if ready[0] == CTRL_D then Taken([], if first then ready[1..] else ready, true)
    else if room == 0 then Taken([], ready[1..], true)
    else if ready[0] == NEWLINE then Taken([NEWLINE], ready[1..], true)
    else
      var t := Take(ready[1..], n - 1, room - 1, false);
      Taken([ready[0]] + t.bytes, t.left, t.done)
  }

  predicate EndsLine(bytes: seq<Byte>) {
    bytes != [] && bytes[|bytes| - 1] == NEWLINE
  }

  /** At most one byte of the input is neither read nor left: a control-D that a read
      begins with, or one that found no room. A read never goes past the end of a
      line or a control-D, and stops short of `n` only there, at a byte it loses, or to
      wait. */
  ghost predicate ReadOk(ready: seq<Byte>, n: nat, room: nat, first: bool, t: Taken) {
    var k, gone := |t.bytes|, |ready| - |t.left|;
    && k <= n && k <= room && k <= gone <= |ready| && t.bytes == ready[..k] && t.left == ready[gone..]
    && (forall i :: 0 <= i < k ==> t.bytes[i] != CTRL_D && (t.bytes[i] == NEWLINE ==> i == k - 1))
    && (gone == k || (gone == k + 1 && k < n && !EndsLine(t.bytes)))
    && (gone == k + 1 ==> if ready[k] == CTRL_D then k == 0 && first else k == room)
    && (t.done <==> k == n || EndsLine(t.bytes) || k < gone || (k < |ready| && ready[k] == CTRL_D))
    && (!t.done ==> t.left == [])
  }

  lemma {:induction false} TakeMeans(ready: seq<Byte>, n: nat, room: nat, first: bool)
    ensures ReadOk(ready, n, room, first, Take(ready, n, room, first))
  {
    if n > 0 && ready != [] && ready[0] != CTRL_D && ready[0] != NEWLINE && room > 0 {
      hide ReadOk;
      TakeMeans(ready[1..], n - 1, room - 1, false);
      ReadMore(ready, n, room, first, Take(ready[1..], n - 1, room - 1, false));
    }
  }

  lemma ReadMore(ready: seq<Byte>, n: nat, room: nat, first: bool, u: Taken)
    requires n > 0 && room > 0 && ready != [] && ready[0] != CTRL_D && ready[0] != NEWLINE
    requires ReadOk(ready[1..], n - 1, room - 1, false, u)
    ensures ReadOk(ready, n, room, first, Taken([ready[0]] + u.bytes, u.left, u.done))
  {
    var t := Taken([ready[0]] + u.bytes, u.left, u.done);
    var k, gone := |u.bytes|, |ready| - 1 - |u.left|;
    assert ready[..k + 1] == [ready[0]] + ready[1..][..k];
    assert ready[gone + 1..] == ready[1..][gone..];
    assert k < |ready| - 1 ==> ready[k + 1] == ready[1..][k];
    assert forall i :: 0 < i <= k ==> t.bytes[i] == u.bytes[i - 1];
  }

  /** kernel/console.c; each method is one critical section of cons.lock. */
  class Console {
    var buf: seq<Byte>
    var r: Word32
    var w: Word32
    var e: Word32
    ghost var ed: Editor

    /** The three indices are in order within the buffer, what lies between them is
        the editor's state, and the buffer is never full of text that nobody can read. */
    ghost predicate Valid()
      reads this
    {
      && |buf| == INPUT_BUF_SIZE && Holds(buf, r, e, ed.ready + ed.line) && w == Plus(r, |ed.ready|)
      && (forall i :: 0 <= i < |ed.line| ==> ed.line[i] != NEWLINE)
      && (|ed.ready| + |ed.line| == INPUT_BUF_SIZE ==> ed.line == [])
    }

    constructor ()
      ensures Valid() && ed == Editor([], [])
    {
      buf, r, w, e := seq(INPUT_BUF_SIZE, _ => 0), 0, 0, 0;
      ed := Editor([], []);
    }

    /** `cons.e--`, when there is something to erase. */
    method Erase()
      requires Valid() && ed.line != []
      modifies this`e, this`ed
      ensures Valid() && ed == old(ed).(line := old(ed).line[..|old(ed).line| - 1])
    {
      var q := ed.ready + ed.line;
      Unput(buf, r, e, ed.ready + ed.line);
      e := Plus(e, 0xffff_ffff);
      ed := ed.(line := ed.line[..|ed.line| - 1]);
      assert (old(ed).ready + old(ed).line)[..|old(ed).ready + old(ed).line| - 1] == ed.ready + ed.line;
    }

    /** consoleintr: the editor's step. */
    method Consoleintr(c: Byte)
      requires Valid()
      modifies this`buf, this`w, this`e, this`ed
      ensures Valid() && ed == Typed(old(ed), c)
    {
      hide Holds;
      EdgesMeet(buf, r, w, e, ed);
      if c == CTRL_P {
      } else if c == CTRL_U {
        KillLine();
      } else if c == CTRL_H || c == DELETE {
        if e != w {
          Erase();
        }
      } else if c != 0 && Minus(e, r) < INPUT_BUF_SIZE {
        Store(if c == RETURN then NEWLINE else c);
      }
    }

    /** The loop of control-U. */
    method KillLine()
      requires Valid()
      modifies this`e, this`ed
      ensures Valid() && ed == old(ed).(line := [])
    {
      hide Holds;
      EdgesMeet(buf, r, w, e, ed);
      while e != w && buf[Plus(e, 0xffff_ffff) % INPUT_BUF_SIZE] != NEWLINE
        invariant Valid() && ed == old(ed).(line := ed.line) && (e == w <==> ed.line == [])
        decreases |ed.line|
      {
        Erase();
        EdgesMeet(buf, r, w, e, ed);
      }
      if e != w {
        LastOfLine(buf, r, e, ed);
      }
    }

    /** `cons.r++` */
    method Next() returns (c: Byte)
      requires Valid() && ed.ready != []
      modifies this`r, this`ed
      ensures Valid() && c == old(ed).ready[0] && ed == old(ed).(ready := old(ed).ready[1..]) && r == Plus(old(r), 1)
    {
      var q := ed.ready + ed.line;
      Get(buf, r, e, ed.ready + ed.line);
      assert (ed.ready + ed.line)[1..] == ed.ready[1..] + ed.line;
      NextIndex(r, |ed.ready| - 1);
      c := buf[r % INPUT_BUF_SIZE];
      r := Plus(r, 1);
      ed := ed.(ready := ed.ready[1..]);
    }

    /** consoleread of `n` more bytes, `n == target` if it has got none yet, until it
        returns or has to sleep. The buffer takes `room` more bytes. */
    method Consoleread(n: nat, target: nat, killed: bool, room: nat) returns (bytes: seq<Byte>, out: Outcome)
      requires Valid() && n <= target
      modifies this`r, this`ed
      ensures Valid() && ed.line == old(ed).line
      ensures
        var t := Take(old(ed).ready, n, room, n == target);
        && bytes == t.bytes && ed.ready == t.left
        && out == if t.done then Returns(target - n + |bytes|) else if killed then Returns(-1) else Sleeps
    {
      hide Holds, Plus, Take;
      var m: nat := n;
      bytes := [];
      ghost var t := Take(ed.ready, n, room, n == target);
      assert [] + t.bytes == t.bytes;
      while m > 0
        invariant Valid() && m <= n && ed.line == old(ed).line && |bytes| == n - m
        invariant |bytes| <= room && t == Prefixed(bytes, Take(ed.ready, m, room - |bytes|, m == target))
      {
        ReadyMeets(buf, r, w, e, ed);
        TakeOne(bytes, ed.ready, m, room - |bytes|, m == target);
        if r == w {
          return bytes, if killed then Returns(-1) else Sleeps;
        }
        ghost var was := ed;
        BackAgain(r);
        var c := Next();
        if c == CTRL_D {
          if m < target {
            r := Plus(r, 0xffff_ffff);
            ed := was;
          }
          return bytes, Returns(target - m);
        }
        if |bytes| >= room {
          return bytes, Returns(target - m);
        }
        bytes := bytes + [c];
        m := m - 1;
        if c == NEWLINE {
          return bytes, Returns(target - m);
        }
      }
      TakeNone(bytes, ed.ready, room - |bytes|, m == target);
      out := Returns(target - m);
    }

    /** Appending a character, and committing the line if it is complete or the
        buffer full. */
    method Store(c: Byte)
      requires Valid() && |ed.ready| + |ed.line| < INPUT_BUF_SIZE
      modifies this`buf, this`w, this`e, this`ed
      ensures Valid()
      ensures
        var l := old(ed).line + [c];
        ed ==
          if c == NEWLINE || c == CTRL_D || |old(ed).ready| + |l| == INPUT_BUF_SIZE then Editor(old(ed).ready + l, [])
          else old(ed).(line := l)
    {
      hide Holds;
      Put(buf, r, e, ed.ready + ed.line, c);
      assert ed.ready + ed.line + [c] == ed.ready + (ed.line + [c]);
      buf := buf[e % INPUT_BUF_SIZE := c];
      e := Plus(e, 1);
      ed := ed.(line := ed.line + [c]);
      Length(buf, r, e, ed.ready + ed.line);
      if c == NEWLINE || c == CTRL_D || Minus(e, r) == INPUT_BUF_SIZE {
        w := e;
        assert ed.ready + ed.line + [] == ed.ready + ed.line;
        ed := Editor(ed.ready + ed.line, []);
      }
    }
  }

  /** The difference of two 32-bit indices. */
  function Minus(a: Word32, b: Word32): (d: Word32) {
    (a + 0x1_0000_0000 - b) % 0x1_0000_0000
  }

  lemma Length(buf: seq<Byte>, i: Word32, end: Word32, q: seq<Byte>)
    requires Holds(buf, i, end, q)
    ensures Minus(end, i) == |q| && end == Plus(i, |q|)
  {
    PlusIs(i, |q|);
  }

  lemma EdgesMeet(buf: seq<Byte>, r: Word32, w: Word32, e: Word32, ed: Editor)
    requires Holds(buf, r, e, ed.ready + ed.line) && w == Plus(r, |ed.ready|)
    ensures (e == w <==> ed.line == []) && Minus(e, r) == |ed.ready| + |ed.line|
  {
    hide Minus;
    SamePlace(r, |ed.ready|, |ed.ready + ed.line|);
    Length(buf, r, e, ed.ready + ed.line);
  }

  function Prefixed(bytes: seq<Byte>, t: Taken): (r: Taken) {
    Taken(bytes + t.bytes, t.left, t.done)
  }

  /** What one round of consoleread's loop does. */
  lemma TakeOne(bytes: seq<Byte>, ready: seq<Byte>, n: nat, room: nat, first: bool)
    requires n > 0
    ensures
      var t := Prefixed(bytes, Take(ready, n, room, first));
      if ready == [] then t == Taken(bytes, [], false)
      else if ready[0] == CTRL_D then t == Taken(bytes, if first then ready[1..] else ready, true)
      else if room == 0 then t == Taken(bytes, ready[1..], true)
      else if ready[0] == NEWLINE then t == Taken(bytes + [NEWLINE], ready[1..], true)
      else t == Prefixed(bytes + [ready[0]], Take(ready[1..], n - 1, room - 1, false))
  {
    assert bytes + [] == bytes;
    if ready != [] && ready[0] != CTRL_D && ready[0] != NEWLINE && room > 0 {
      var u := Take(ready[1..], n - 1, room - 1, false);
      assert bytes + ([ready[0]] + u.bytes) == bytes + [ready[0]] + u.bytes;
    }
  }

  lemma TakeNone(bytes: seq<Byte>, ready: seq<Byte>, room: nat, first: bool)
    ensures Prefixed(bytes, Take(ready, 0, room, first)) == Taken(bytes, ready, true)
  {
    assert bytes + [] == bytes;
  }

  lemma ReadyMeets(buf: seq<Byte>, r: Word32, w: Word32, e: Word32, ed: Editor)
    requires Holds(buf, r, e, ed.ready + ed.line) && w == Plus(r, |ed.ready|)
    ensures r == w <==> ed.ready == []
  {
    PlusIs(r, 0);
    SamePlace(r, 0, |ed.ready|);
  }

  lemma BackAgain(r: Word32)
    ensures Plus(Plus(r, 1), 0xffff_ffff) == r
  {
    PlusIs(r, 1);
    PlusIs(Plus(r, 1), 0xffff_ffff);
  }

  lemma LastOfLine(buf: seq<Byte>, r: Word32, e: Word32, ed: Editor)
    requires Holds(buf, r, e, ed.ready + ed.line) && ed.line != []
    ensures buf[Plus(e, 0xffff_ffff) % |buf|] == ed.line[|ed.line| - 1]
  {
    Unput(buf, r, e, ed.ready + ed.line);
  }
}
