/** The on-disk redo log of kernel/log.c as a sequence of atomic block writes,
    and what recovery makes of every disk that a crash can leave behind. */
module LogSpec {
  import opened Blocks
  import opened Bio

  const MAXOPBLOCKS := 10
  const LOGSIZE := MAXOPBLOCKS * 3

  /** One logged block: its number and its new contents. */
  type LogEntry = (nat, Block)

  /** Where the log lives: header at `start`, data blocks after it, `size` blocks in all. */
  datatype Area = Area(start: nat, size: nat) {
    predicate Contains(n: nat) {
      start <= n < start + size
    }

    /** Two disks agree outside the log. */
    ghost predicate SameHome(a: seq<Block>, b: seq<Block>) {
      |a| == |b| && forall n :: 0 <= n < |a| && !Contains(n) ==> a[n] == b[n]
    }

    /** Block numbers that fit the log, name home blocks of a disk of `len`
        blocks, and do not repeat. */
    ghost predicate Loggable(lh: seq<nat>, len: nat) {
      && |lh| <= LOGSIZE && |lh| < size && start + size <= len <= 0x1_0000_0000
      && Distinct(lh)
      && forall i :: 0 <= i < |lh| ==> lh[i] < len && !Contains(lh[i])
    }

    /** The header on the disk can be recovered from. */
    ghost predicate HeaderOk(disk: seq<Block>) {
      start < |disk| && Word(disk[start], 0) <= LOGSIZE && Loggable(DecodeHead(disk[start]), |disk|)
    }

    /** The disk after copying the first `k` log blocks to their homes. */
    ghost function Installed(d: seq<Block>, lh: seq<nat>, k: nat): (r: seq<Block>)
      requires Loggable(lh, |d|) && k <= |lh|
      ensures |r| == |d|
    {
      if k == 0 then d else
        Installed(d, lh, k - 1)[lh[k - 1] := d[start + k]]
    }

    /** The disk after writing the first `k` new contents into the log. */
    ghost function Logged(d: seq<Block>, w: seq<LogEntry>, k: nat): (r: seq<Block>)
      requires Loggable(Numbers(w), |d|) && k <= |w|
      ensures |r| == |d|
    {
      if k == 0 then d else Logged(d, w, k - 1)[start + k := w[k - 1].1]
    }

    /** What a recovery that is not interrupted puts at every home block. */
    ghost function Recovered(d: seq<Block>): (r: seq<Block>)
      requires HeaderOk(d)
      ensures |r| == |d|
    {
      var lh := DecodeHead(d[start]);
      Installed(d, lh, |lh|)
    }

    /** After a crash that leaves disk `d`, recovery will restore the homes of `m`. */
    ghost predicate Means(d: seq<Block>, m: seq<Block>) {
      HeaderOk(d) && SameHome(Recovered(d), m)
    }

    /** The disk after `j + 1` block writes of recover_from_log: one per logged
        block, then the empty header. */
    ghost function RecoveryState(d: seq<Block>, j: nat): (r: seq<Block>)
      requires HeaderOk(d) && j <= |DecodeHead(d[start])|
      ensures |r| == |d|
    {
      var lh := DecodeHead(d[start]);
      if j < |lh| then Installed(d, lh, j + 1)
      else Installed(d, lh, |lh|)[start := EncodeHead(d[start], [], 0)]
    }

    ghost function RecoveryTrace(d: seq<Block>): (t: seq<seq<Block>>)
      requires HeaderOk(d)
    {
      var lh := DecodeHead(d[start]);
      InstallTrace(d, lh, |lh|) + [RecoveryState(d, |lh|)]
    }

    ghost function InstallTrace(d: seq<Block>, lh: seq<nat>, k: nat): (t: seq<seq<Block>>)
      requires Loggable(lh, |d|) && k <= |lh|
      ensures |t| == k
    {
      if k == 0 then [] else InstallTrace(d, lh, k - 1) + [Installed(d, lh, k)]
    }

    ghost function LogTrace(d: seq<Block>, w: seq<LogEntry>, k: nat): (t: seq<seq<Block>>)
      requires Loggable(Numbers(w), |d|) && k <= |w|
      ensures |t| == k
    {
      if k == 0 then [] else LogTrace(d, w, k - 1) + [Logged(d, w, k)]
    }

    /** The disk just after the header write of commit. */
    ghost function Committed(d: seq<Block>, w: seq<LogEntry>): (r: seq<Block>)
      requires Loggable(Numbers(w), |d|)
      ensures |r| == |d|
    {
      Logged(d, w, |w|)[start := EncodeHead(d[start], Numbers(w), |w|)]
    }

    /** The disk after `j + 1` block writes of commit: the log blocks, the
        header, the homes, the empty header. */
    ghost function CommitState(d: seq<Block>, w: seq<LogEntry>, j: nat): (r: seq<Block>)
      requires Loggable(Numbers(w), |d|) && j <= 2 * |w| + 1
      ensures |r| == |d|
    {
      var c := Committed(d, w);
      if j < |w| then Logged(d, w, j + 1)
      else if j <= 2 * |w| then Installed(c, Numbers(w), j - |w|)
      else Installed(c, Numbers(w), |w|)[start := EncodeHead(c[start], [], 0)]
    }

    /** All the disk states of a commit. */
    ghost function CommitTrace(d: seq<Block>, w: seq<LogEntry>): (t: seq<seq<Block>>)
      requires Loggable(Numbers(w), |d|)
      ensures |t| == if w == [] then 0 else 2 * |w| + 2
    {
      if w == [] then []
      else
        var c := Committed(d, w);
        LogTrace(d, w, |w|) + [c] + InstallTrace(c, Numbers(w), |w|) + [CommitState(d, w, 2 * |w| + 1)]
    }
  }

  /** Installed blocks get their log contents, all others keep theirs. */
  lemma {:induction false} InstalledFacts(a: Area, d: seq<Block>, lh: seq<nat>, k: nat)
    requires a.Loggable(lh, |d|) && k <= |lh|
    ensures
      var r := a.Installed(d, lh, k);
      && (forall n :: 0 <= n < |d| && n !in lh ==> r[n] == d[n])
      && (forall i {:trigger lh[i]} :: 0 <= i < k ==> r[lh[i]] == d[a.start + 1 + i])
  {
    if k > 0 {
      InstalledFacts(a, d, lh, k - 1);
    }
  }

  /** Filling the log leaves the homes and the header alone. */
  lemma {:induction false} LoggedFacts(a: Area, d: seq<Block>, w: seq<LogEntry>, k: nat)
    requires a.Loggable(Numbers(w), |d|) && k <= |w|
    ensures
      var r := a.Logged(d, w, k);
      && a.SameHome(d, r) && r[a.start] == d[a.start]
      && (forall i {:trigger w[i]} :: 0 <= i < k ==> r[a.start + 1 + i] == w[i].1)
  {
    if k > 0 {
      LoggedFacts(a, d, w, k - 1);
    }
  }

  /** The log header in a block: a count, then that many block numbers. */
  function DecodeHead(b: Block): (lh: seq<nat>)
    requires Word(b, 0) <= LOGSIZE
    ensures |lh| == Word(b, 0)
  {
    seq(Word(b, 0), i requires 0 <= i < Word(b, 0) => Word(b, i + 1))
  }

  /** Storing the count and the first `k` block numbers; other words stay. */
  function EncodeHead(b: Block, lh: seq<nat>, k: nat): (r: Block)
    requires k <= |lh| <= LOGSIZE && forall i :: 0 <= i < |lh| ==> lh[i] < 0x1_0000_0000
  {
    if k == 0 then SetWord(b, 0, |lh|) else SetWord(EncodeHead(b, lh, k - 1), k, lh[k - 1])
  }

  lemma {:induction false} EncodeHeadWords(b: Block, lh: seq<nat>, k: nat, j: nat)
    requires k <= |lh| <= LOGSIZE && forall i :: 0 <= i < |lh| ==> lh[i] < 0x1_0000_0000
    requires j <= k
    ensures Word(EncodeHead(b, lh, k), j) == if j == 0 then |lh| else lh[j - 1]
  {
    if k == 0 {
      WordOfSetWord(b, 0, |lh|, j);
    } else {
      WordOfSetWord(EncodeHead(b, lh, k - 1), k, lh[k - 1], j);
      if j < k {
        EncodeHeadWords(b, lh, k - 1, j);
      }
    }
  }

  /** A header that was written reads back, whatever the block held before. */
  lemma HeadRoundTrip(b: Block, lh: seq<nat>)
    requires |lh| <= LOGSIZE && forall i :: 0 <= i < |lh| ==> lh[i] < 0x1_0000_0000
    ensures Word(EncodeHead(b, lh, |lh|), 0) == |lh|
    ensures DecodeHead(EncodeHead(b, lh, |lh|)) == lh
  {
    forall j | 0 <= j <= |lh|
      ensures Word(EncodeHead(b, lh, |lh|), j) == if j == 0 then |lh| else lh[j - 1]
    {
      EncodeHeadWords(b, lh, |lh|, j);
    }
  }

  function Numbers(w: seq<LogEntry>): (lh: seq<nat>)
    ensures |lh| == |w| && forall i :: 0 <= i < |w| ==> lh[i] == w[i].0
  {
    seq(|w|, i requires 0 <= i < |w| => w[i].0)
  }

  /** Stores of distinct blocks do what each of them says. */
  lemma {:induction false} PlainDistinct(m: seq<Block>, w: seq<LogEntry>)
    requires Distinct(Numbers(w)) && forall i :: 0 <= i < |w| ==> w[i].0 < |m|
    ensures forall n :: 0 <= n < |m| && n !in Numbers(w) ==> Plain(m, w)[n] == m[n]
    ensures forall i :: 0 <= i < |w| ==> Plain(m, w)[w[i].0] == w[i].1
  {
    if w != [] {
      var w' := w[..|w| - 1];
      assert Numbers(w') == Numbers(w)[..|w'|];
      assert forall i :: 0 <= i < |w'| ==> Numbers(w')[i] == Numbers(w)[i];
      PlainDistinct(m, w');
      assert Numbers(w) == Numbers(w') + [w[|w'|].0];
    }
  }

  // ----- Recovery -----

  /** Installing never touches the log itself. */
  lemma LogIsNotHome(a: Area, d: seq<Block>, lh: seq<nat>, k: nat)
    requires a.Loggable(lh, |d|) && k <= |lh|
    ensures forall n: nat :: a.Contains(n) ==> a.Installed(d, lh, k)[n] == d[n]
  {
    InstalledFacts(a, d, lh, k);
  }

  /** Redoing an interrupted installation yields the same homes. */
  lemma InstallIsIdempotent(a: Area, d: seq<Block>, m: seq<Block>, k: nat)
    requires a.Means(d, m) && k <= |DecodeHead(d[a.start])|
    ensures a.Means(a.Installed(d, DecodeHead(d[a.start]), k), m)
  {
    var lh := DecodeHead(d[a.start]);
    var e := a.Installed(d, lh, k);
    LogIsNotHome(a, d, lh, k);
    assert a.Contains(a.start) && e[a.start] == d[a.start];
    var re, rd := a.Installed(e, lh, |lh|), a.Installed(d, lh, |lh|);
    InstalledFacts(a, e, lh, |lh|);
    InstalledFacts(a, d, lh, |lh|);
    InstalledFacts(a, d, lh, k);
    forall n | 0 <= n < |d| && !a.Contains(n)
      ensures re[n] == rd[n]
    {
      if n in lh {
        var i :| 0 <= i < |lh| && lh[i] == n;
        assert a.Contains(a.start + 1 + i);
      }
    }
  }

  /** A disk whose header is empty recovers to itself. */
  lemma EmptyLogMeans(a: Area, d: seq<Block>, m: seq<Block>)
    requires a.start + a.size <= |d| <= 0x1_0000_0000 && a.size > 0 && Word(d[a.start], 0) == 0
    ensures a.Means(d, m) <==> a.SameHome(d, m)
  {}

  /** Erasing the header once the homes are installed. */
  lemma ClearedMeans(a: Area, d: seq<Block>, m: seq<Block>)
    requires a.Means(d, m)
    ensures
      var lh := DecodeHead(d[a.start]);
      var last := a.Installed(d, lh, |lh|);
      var c := last[a.start := EncodeHead(d[a.start], [], 0)];
      a.Means(c, m) && Word(c[a.start], 0) == 0 && a.SameHome(c, m)
  {
    HeadRoundTrip(d[a.start], []);
    var lh := DecodeHead(d[a.start]);
    InstalledFacts(a, d, lh, |lh|);
    EmptyLogMeans(a, a.Installed(d, lh, |lh|)[a.start := EncodeHead(d[a.start], [], 0)], m);
  }

  /** Crash anywhere in recovery: what is to be recovered stays the same. */
  lemma RecoveryKeepsMeaning(a: Area, d: seq<Block>, m: seq<Block>, j: nat)
    requires a.Means(d, m) && j <= |DecodeHead(d[a.start])|
    ensures a.Means(a.RecoveryState(d, j), m)
  {
    var n := |DecodeHead(d[a.start])|;
    assert a.HeaderOk(d);
    hide Area.Means, Area.Installed;
    if j < n {
      InstallIsIdempotent(a, d, m, j + 1);
    } else {
      ClearedMeans(a, d, m);
    }
  }

  /** The disk after recoveries that crash after `ks[0]`, `ks[1]`, ... writes. */
  ghost function Crashes(a: Area, d: seq<Block>, ks: seq<nat>): (e: seq<Block>)
    requires a.HeaderOk(d)
    ensures a.Means(e, a.Recovered(d))
    decreases ks
  {
    if ks == [] then d
    else if ks[0] == 0 then Crashes(a, d, ks[1..])
    else
      var n := |DecodeHead(d[a.start])|;
      var j := if ks[0] <= n + 1 then ks[0] - 1 else n;
      RecoveryKeepsMeaning(a, d, a.Recovered(d), j);
      Crashes(a, a.RecoveryState(d, j), ks[1..])
  }

  /** Any number of crashed recoveries, then a finished one: the log is empty
      and every home is recovered. */
  ghost function Reboot(a: Area, d: seq<Block>, ks: seq<nat>): (e: seq<Block>)
    requires a.HeaderOk(d)
    ensures a.HeaderOk(e) && Word(e[a.start], 0) == 0 && a.SameHome(e, a.Recovered(d))
  {
    var c := Crashes(a, d, ks);
    ClearedMeans(a, c, a.Recovered(d));
    a.RecoveryState(c, |DecodeHead(c[a.start])|)
  }

  // ----- Commit -----

  lemma LoggedMeansOld(a: Area, d: seq<Block>, w: seq<LogEntry>, k: nat)
    requires a.Loggable(Numbers(w), |d|) && Word(d[a.start], 0) == 0 && k <= |w|
    ensures a.Means(a.Logged(d, w, k), d)
  {
    LoggedFacts(a, d, w, k);
    EmptyLogMeans(a, a.Logged(d, w, k), d);
  }

  lemma CommittedMeansNew(a: Area, d: seq<Block>, w: seq<LogEntry>)
    requires a.Loggable(Numbers(w), |d|)
    ensures
      var c := a.Committed(d, w);
      a.Means(c, Plain(d, w)) && DecodeHead(c[a.start]) == Numbers(w)
  {
    var c, lh := a.Committed(d, w), Numbers(w);
    HeadRoundTrip(d[a.start], lh);
    PlainDistinct(d, w);
    LoggedFacts(a, d, w, |w|);
    InstalledFacts(a, c, lh, |lh|);
    var r := a.Recovered(c);
    forall n | 0 <= n < |d| && !a.Contains(n)
      ensures r[n] == Plain(d, w)[n]
    {
      if n in lh {
        var i :| 0 <= i < |lh| && lh[i] == n;
        assert r[lh[i]] == c[a.start + 1 + i];
        assert Plain(d, w)[w[i].0] == w[i].1;
      }
    }
  }

  /** Crash anywhere in commit: all old before the header write, all new from it on. */
  lemma CommitIsAtomic(a: Area, d: seq<Block>, w: seq<LogEntry>, j: nat)
    requires a.Loggable(Numbers(w), |d|) && Word(d[a.start], 0) == 0 && j <= 2 * |w| + 1
    ensures a.Means(a.CommitState(d, w, j), if j < |w| then d else Plain(d, w))
  {
    CommittedMeansNew(a, d, w);
    var c := a.Committed(d, w);
    assert Word(c[a.start], 0) <= LOGSIZE;
    hide Area.Means, Area.Committed, Area.Installed, Area.Logged;
    if j < |w| {
      LoggedMeansOld(a, d, w, j + 1);
    } else if j <= 2 * |w| {
      InstallIsIdempotent(a, c, Plain(d, w), j - |w|);
    } else {
      ClearedMeans(a, c, Plain(d, w));
    }
  }

  /** An uninterrupted commit leaves an empty log and the new contents at home. */
  lemma CommitFinishes(a: Area, d: seq<Block>, w: seq<LogEntry>)
    requires a.Loggable(Numbers(w), |d|)
    ensures
      var e := a.CommitState(d, w, 2 * |w| + 1);
      a.Means(e, Plain(d, w)) && Word(e[a.start], 0) == 0 && a.SameHome(e, Plain(d, w))
  {
    CommittedMeansNew(a, d, w);
    hide Area.Committed, Area.Installed;
    ClearedMeans(a, a.Committed(d, w), Plain(d, w));
  }

  lemma {:induction false} InstallTraceAt(a: Area, d: seq<Block>, lh: seq<nat>, k: nat, j: nat)
    requires a.Loggable(lh, |d|) && j < k <= |lh|
    ensures a.InstallTrace(d, lh, k)[j] == a.Installed(d, lh, j + 1)
  {
    if j < k - 1 {
      InstallTraceAt(a, d, lh, k - 1, j);
    }
  }

  lemma {:induction false} LogTraceAt(a: Area, d: seq<Block>, w: seq<LogEntry>, k: nat, j: nat)
    requires a.Loggable(Numbers(w), |d|) && j < k <= |w|
    ensures a.LogTrace(d, w, k)[j] == a.Logged(d, w, j + 1)
  {
    if j < k - 1 {
      LogTraceAt(a, d, w, k - 1, j);
    }
  }

  /** The `j`-th disk of a commit's trace is its state after `j + 1` writes. */
  lemma CommitTraceAt(a: Area, d: seq<Block>, w: seq<LogEntry>, j: nat)
    requires a.Loggable(Numbers(w), |d|) && w != [] && j <= 2 * |w| + 1
    ensures a.CommitTrace(d, w)[j] == a.CommitState(d, w, j)
  {
    var c, lh, k := a.Committed(d, w), Numbers(w), |w|;
    if j < k {
      LogTraceAt(a, d, w, k, j);
    } else if k < j <= 2 * k {
      InstallTraceAt(a, c, lh, k, j - k - 1);
    }
  }

  /** The `j`-th disk of a recovery's trace is its state after `j + 1` writes. */
  lemma RecoveryTraceAt(a: Area, d: seq<Block>, j: nat)
    requires a.HeaderOk(d) && j <= |DecodeHead(d[a.start])|
    ensures a.RecoveryTrace(d)[j] == a.RecoveryState(d, j)
  {
    var lh := DecodeHead(d[a.start]);
    if j < |lh| {
      InstallTraceAt(a, d, lh, |lh|, j);
    }
  }

  // ----- Whole histories -----

  /** A transaction that commits, or one whose commit crashes after `writes`
      block writes and is followed by recoveries crashing at `ks` and then a
      complete one. */
  datatype History = Commit(w: seq<LogEntry>) | Crash(w: seq<LogEntry>, writes: nat, ks: seq<nat>)

  /** The disk after one more step of a history. */
  ghost function Next(a: Area, d: seq<Block>, x: History): (e: seq<Block>)
    requires a.HeaderOk(d) && Word(d[a.start], 0) == 0 && a.Loggable(Numbers(x.w), |d|)
    ensures a.HeaderOk(e) && Word(e[a.start], 0) == 0
    ensures a.SameHome(e, if Durable(x) then Plain(d, x.w) else d)
  {
    EmptyLogMeans(a, d, d);
    if x.w == [] then
      if x.Commit? then d else Reboot(a, d, x.ks)
    else
      var last := 2 * |x.w| + 1;
      if x.Commit? then
        CommitFinishes(a, d, x.w);
        a.CommitState(d, x.w, last)
      else if x.writes == 0 then
        Reboot(a, d, x.ks)
      else
        var j := if x.writes <= last then x.writes - 1 else last;
        CommitIsAtomic(a, d, x.w, j);
        Reboot(a, a.CommitState(d, x.w, j), x.ks)
  }

  /** The disk after a history. */
  ghost function After(a: Area, d: seq<Block>, h: seq<History>): (e: seq<Block>)
    requires a.HeaderOk(d) && Word(d[a.start], 0) == 0
    requires forall i :: 0 <= i < |h| ==> a.Loggable(Numbers(h[i].w), |d|)
    ensures a.HeaderOk(e) && Word(e[a.start], 0) == 0 && |e| == |d|
    decreases |h|
  {
    if h == [] then d
    else
      var e := After(a, d, h[..|h| - 1]);
      assert a.Loggable(Numbers(h[|h| - 1].w), |e|);
      Next(a, e, h[|h| - 1])
  }

  /** Whether a step of a history takes effect: its header reached the disk. */
  predicate Durable(x: History) {
    x.Commit? || x.writes > |x.w|
  }

  /** The homes as transactions would leave them: each one whole or not at all. */
  function Atomic(m: seq<Block>, h: seq<History>): (r: seq<Block>)
    ensures |r| == |m|
  {
    if h == [] then m
    else
      var m' := Atomic(m, h[..|h| - 1]);
      var x := h[|h| - 1];
      if Durable(x) then Plain(m', x.w) else m'
  }

  lemma PlainSameHome(a: Area, d: seq<Block>, e: seq<Block>, w: seq<LogEntry>)
    requires a.SameHome(d, e) && Distinct(Numbers(w)) && forall i :: 0 <= i < |w| ==> w[i].0 < |d|
    ensures a.SameHome(Plain(d, w), Plain(e, w))
  {
    PlainDistinct(d, w);
    PlainDistinct(e, w);
    forall n | 0 <= n < |d| && !a.Contains(n)
      ensures Plain(d, w)[n] == Plain(e, w)[n]
    {
      if n in Numbers(w) {
        var i :| 0 <= i < |w| && Numbers(w)[i] == n;
        assert Plain(d, w)[w[i].0] == w[i].1 == Plain(e, w)[w[i].0];
      }
    }
  }

  /** Crash safety over whole histories of commits, crashes and recoveries. */
  lemma {:induction false} HistoriesAreAtomic(a: Area, d: seq<Block>, h: seq<History>)
    requires a.HeaderOk(d) && Word(d[a.start], 0) == 0
    requires forall i :: 0 <= i < |h| ==> a.Loggable(Numbers(h[i].w), |d|)
    ensures a.SameHome(After(a, d, h), Atomic(d, h))
    decreases |h|
  {
    if h != [] {
      var h' := h[..|h| - 1];
      HistoriesAreAtomic(a, d, h');
      var e, x := After(a, d, h'), h[|h| - 1];
      assert a.Loggable(Numbers(x.w), |e|);
      PlainSameHome(a, e, Atomic(d, h'), x.w);
    }
  }
}
