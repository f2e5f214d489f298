/** begin_op, log_write, end_op and commit (kernel/log.c) as the steps of an
    unbounded number of processes, in any interleaving. */
module LogProtocol {
  import opened Bio
  import opened LogSpec

  /** What `struct log` holds under log.lock. */
  datatype LogState = LogState(outstanding: nat, committing: bool, lh: seq<nat>)

  /** begin_op proceeds instead of sleeping. */
  predicate CanBegin(s: LogState) {
    !s.committing && |s.lh| + (s.outstanding + 1) * MAXOPBLOCKS <= LOGSIZE
  }

  function BeginOp(s: LogState): (r: LogState) {
    s.(outstanding := s.outstanding + 1)
  }

  /** log_write panics with "too big a transaction". */
  predicate TooBig(s: LogState, size: int) {
    |s.lh| >= LOGSIZE || |s.lh| >= size - 1
  }

  /** log_write: absorb a block that is already logged, append a new one. */
  function LogWrite(s: LogState, blockno: nat): (r: LogState) {
    if blockno in s.lh then s else s.(lh := s.lh + [blockno])
  }

  /** end_op up to the call of commit. */
  function EndOp(s: LogState): (r: LogState)
    requires s.outstanding > 0
  {
    s.(outstanding := s.outstanding - 1, committing := s.outstanding == 1)
  }

  /** commit has returned: the header is empty and begin_op may proceed. */
  function CommitDone(s: LogState): (r: LogState) {
    s.(committing := false, lh := [])
  }

  // ----- The system: the log, the operations in progress, and what happened -----

  /** An operation: the number of commits before it began, how many new log
      slots it used, and which blocks it wrote. */
  datatype Op = Op(epoch: nat, spent: nat, writes: set<nat>)

  datatype System = System(
    log: LogState, size: int, ops: map<Pid, Op>,
    ended: seq<Op>,            // finished operations
    commits: seq<set<nat>>)    // blocks of each committed transaction

  datatype OpEvent = EvBegin(pid: Pid) | EvWrite(pid: Pid, blockno: nat) | EvEnd(pid: Pid) | EvCommit

  function Init(size: int): (s: System) {
    System(LogState(0, false, []), size, map[], [], [])
  }

  /** A process may take this step. An operation uses at most MAXOPBLOCKS slots. */
  predicate Enabled(s: System, e: OpEvent) {
    match e
    case EvBegin(pid) => pid !in s.ops && CanBegin(s.log)
    case EvWrite(pid, b) =>
      pid in s.ops && !TooBig(s.log, s.size) && (b in s.log.lh || s.ops[pid].spent < MAXOPBLOCKS)
    case EvEnd(pid) => pid in s.ops && s.log.outstanding > 0
    case EvCommit => s.log.committing
  }

  function Step(s: System, e: OpEvent): (r: System)
    requires Enabled(s, e)
  {
    match e
    case EvBegin(pid) =>
      s.(log := BeginOp(s.log), ops := s.ops[pid := Op(|s.commits|, 0, {})])
    case EvWrite(pid, b) =>
      var op := s.ops[pid];
      var cost := if b in s.log.lh then 0 else 1;
      s.(log := LogWrite(s.log, b), ops := s.ops[pid := Op(op.epoch, op.spent + cost, op.writes + {b})])
    case EvEnd(pid) =>
      s.(log := EndOp(s.log), ops := s.ops - {pid}, ended := s.ended + [s.ops[pid]])
    case EvCommit =>
      s.(log := CommitDone(s.log), commits := s.commits + [set b | b in s.log.lh])
  }

  /** A schedule; steps that are not enabled do not happen. */
  function Exec(s: System, es: seq<OpEvent>): (r: System)
    decreases es
  {
    if es == [] then s else Exec(if Enabled(s, es[0]) then Step(s, es[0]) else s, es[1..])
  }

  /** Log slots that operations in progress may still claim. */
  ghost function Unspent(ops: map<Pid, Op>): (u: int) {
    if ops == map[] then 0
    else
      var pid :| pid in ops;
      MAXOPBLOCKS - ops[pid].spent + Unspent(ops - {pid})
  }

  lemma {:induction false} UnspentRemove(ops: map<Pid, Op>, pid: Pid)
    requires pid in ops
    ensures Unspent(ops) == MAXOPBLOCKS - ops[pid].spent + Unspent(ops - {pid})
    decreases |ops|
  {
    var p :| p in ops && Unspent(ops) == MAXOPBLOCKS - ops[p].spent + Unspent(ops - {p});
    if p != pid {
      UnspentRemove(ops - {p}, pid);
      UnspentRemove(ops - {pid}, p);
      assert ops - {p} - {pid} == ops - {pid} - {p};
    }
  }

  lemma UnspentUpdate(ops: map<Pid, Op>, pid: Pid, op: Op)
    ensures Unspent(ops[pid := op]) == MAXOPBLOCKS - op.spent + Unspent(ops - {pid})
    ensures pid !in ops ==> ops - {pid} == ops
  {
    UnspentRemove(ops[pid := op], pid);
    assert ops[pid := op] - {pid} == ops - {pid};
  }

  lemma {:induction false} UnspentIsNat(ops: map<Pid, Op>)
    requires forall p :: p in ops ==> ops[p].spent <= MAXOPBLOCKS
    ensures Unspent(ops) >= 0
    decreases |ops|
  {
    if ops != map[] {
      var p :| p in ops;
      UnspentRemove(ops, p);
      UnspentIsNat(ops - {p});
    }
  }

  // ----- Invariants -----

  /** committing implies that no operation is in progress; the counter is right;
      the log has no duplicates. */
  ghost predicate LogInv(s: System) {
    && s.log.outstanding == |s.ops|
    && (s.log.committing ==> s.ops == map[])
    && Distinct(s.log.lh)
  }

  /** Every operation in progress keeps its reservation. */
  ghost predicate Reserved(s: System) {
    && (forall p :: p in s.ops ==> s.ops[p].spent <= MAXOPBLOCKS)
    && |s.log.lh| + Unspent(s.ops) <= LOGSIZE
  }

  /** The transaction that an operation belongs to: a committed one or the open one. */
  ghost function Transaction(s: System, epoch: nat): (t: set<nat>)
    requires epoch <= |s.commits|
  {
    if epoch < |s.commits| then s.commits[epoch] else set b | b in s.log.lh
  }

  ghost predicate WroteIn(op: Op, epoch: nat, b: nat) {
    op.epoch == epoch && b in op.writes
  }

  /** Operations in progress belong to the open transaction, every operation's
      writes are all in its own transaction, and a transaction holds nothing else. */
  ghost predicate Grouped(s: System) {
    && (forall p :: p in s.ops ==>
          s.ops[p].epoch == |s.commits| && s.ops[p].writes <= Transaction(s, |s.commits|))
    && (forall i :: 0 <= i < |s.ended| ==>
          s.ended[i].epoch <= |s.commits| && s.ended[i].writes <= Transaction(s, s.ended[i].epoch))
    && (forall k, b :: 0 <= k <= |s.commits| && b in Transaction(s, k) ==>
          || (exists i :: 0 <= i < |s.ended| && WroteIn(s.ended[i], k, b))
          || (exists p :: p in s.ops && WroteIn(s.ops[p], k, b)))
  }

  ghost predicate Inv(s: System) {
    LogInv(s) && Reserved(s) && Grouped(s)
  }

  lemma LogInvStep(s: System, e: OpEvent)
    requires LogInv(s) && Enabled(s, e)
    ensures LogInv(Step(s, e))
  {
    if e.EvEnd? {
      assert (s.ops - {e.pid}).Keys == s.ops.Keys - {e.pid};
    } else if e.EvBegin? {
      assert s.ops[e.pid := Op(|s.commits|, 0, {})].Keys == s.ops.Keys + {e.pid};
    } else if e.EvWrite? {
      assert Step(s, e).ops.Keys == s.ops.Keys;
    }
  }

  lemma {:induction false} UnspentBound(ops: map<Pid, Op>)
    requires forall p :: p in ops ==> ops[p].spent <= MAXOPBLOCKS
    ensures Unspent(ops) <= MAXOPBLOCKS * |ops|
    decreases |ops|
  {
    if ops != map[] {
      var p :| p in ops;
      UnspentRemove(ops, p);
      UnspentBound(ops - {p});
    }
  }

  lemma ReservedStep(s: System, e: OpEvent)
    requires LogInv(s) && Reserved(s) && Enabled(s, e)
    ensures Reserved(Step(s, e))
  {
    match e
    case EvBegin(pid) =>
      UnspentUpdate(s.ops, pid, Op(|s.commits|, 0, {}));
      UnspentBound(s.ops);
    case EvWrite(pid, b) =>
      UnspentRemove(s.ops, pid);
      UnspentUpdate(s.ops, pid, Step(s, e).ops[pid]);
    case EvEnd(pid) =>
      UnspentRemove(s.ops, pid);
    case EvCommit =>
  }

  lemma GroupedStep(s: System, e: OpEvent)
    requires LogInv(s) && Grouped(s) && Enabled(s, e)
    ensures Grouped(Step(s, e))
  {
    var r := Step(s, e);
    forall k, b | 0 <= k <= |r.commits| && b in Transaction(r, k)
      ensures (exists i :: 0 <= i < |r.ended| && WroteIn(r.ended[i], k, b)) ||
              (exists p :: p in r.ops && WroteIn(r.ops[p], k, b))
    {
      if e.EvWrite? && k == |s.commits| && b !in Transaction(s, k) {
        assert WroteIn(r.ops[e.pid], k, b);
      } else {
        assert k <= |s.commits| && b in Transaction(s, k);
        if i :| 0 <= i < |s.ended| && WroteIn(s.ended[i], k, b) {
          assert r.ended[i] == s.ended[i];
        } else {
          var p :| p in s.ops && WroteIn(s.ops[p], k, b);
          if e.EvEnd? && p == e.pid {
            assert r.ended[|s.ended|] == s.ops[p];
          } else {
            assert WroteIn(r.ops[p], k, b);
          }
        }
      }
    }
  }

  /** Safety of every interleaving of any number of processes. */
  lemma {:induction false} EveryInterleaving(s: System, es: seq<OpEvent>)
    requires Inv(s)
    ensures Inv(Exec(s, es))
    decreases es
  {
    if es != [] {
      var e := es[0];
      if Enabled(s, e) {
        LogInvStep(s, e);
        ReservedStep(s, e);
        GroupedStep(s, e);
        EveryInterleaving(Step(s, e), es[1..]);
      } else {
        EveryInterleaving(s, es[1..]);
      }
    }
  }

  lemma InitInv(size: int)
    ensures Inv(Init(size))
  {}

  /** An operation's writes are never split: once its transaction has committed,
      that commit contains them all. */
  lemma WholeOperationsCommit(size: int, es: seq<OpEvent>, i: nat)
    requires i < |Exec(Init(size), es).ended|
    ensures
      var s := Exec(Init(size), es);
      var op := s.ended[i];
      op.epoch < |s.commits| ==> op.writes <= s.commits[op.epoch]
  {
    EveryInterleaving(Init(size), es);
  }

  /** The panic in end_op is unreachable: while a process is inside an
      operation no commit runs and the counter is positive. */
  lemma EndOpNeverPanics(size: int, es: seq<OpEvent>, pid: Pid)
    requires pid in Exec(Init(size), es).ops
    ensures
      var s := Exec(Init(size), es);
      !s.log.committing && s.log.outstanding >= 1
  {
    EveryInterleaving(Init(size), es);
    var s := Exec(Init(size), es);
    assert s.ops.Keys != {};
  }

  /** begin_op lets a process in unless a commit runs or the log, with a full share for
      every operation in progress and the new one, could overflow. */
  lemma BeginExactly(size: int, es: seq<OpEvent>, pid: Pid)
    requires pid !in Exec(Init(size), es).ops
    ensures
      var s := Exec(Init(size), es);
      Enabled(s, EvBegin(pid)) <==> !s.log.committing && |s.log.lh| + (|s.ops| + 1) * MAXOPBLOCKS <= LOGSIZE
  {
    EveryInterleaving(Init(size), es);
  }

  /** The last operation to end starts a commit, no other does; and that commit is all
      that was logged. */
  lemma EndExactly(size: int, es: seq<OpEvent>, pid: Pid)
    requires pid in Exec(Init(size), es).ops
    ensures
      var s := Exec(Init(size), es);
      && Enabled(s, EvEnd(pid))
      && var r := Step(s, EvEnd(pid));
         && r.ops == s.ops - {pid} && r.log.lh == s.log.lh && r.ended == s.ended + [s.ops[pid]]
         && (Enabled(r, EvCommit) <==> r.ops == map[])
         && (Enabled(r, EvCommit) ==>
              var c := Step(r, EvCommit);
              && !c.log.committing && c.log.lh == [] && |c.commits| == |s.commits| + 1
              && (forall b :: b in c.commits[|s.commits|] <==> b in s.log.lh))
  {
    EveryInterleaving(Init(size), es);
    var s := Exec(Init(size), es);
    EndOpNeverPanics(size, es, pid);
    var r := Step(s, EvEnd(pid));
    assert |s.ops - {pid}| == |s.ops| - 1;
    assert |r.ops| == 0 <==> r.ops == map[] by { NoOps(r.ops); }
  }

  lemma NoOps(ops: map<Pid, Op>)
    ensures |ops| == 0 <==> ops == map[]
  {
    assert |ops| == 0 ==> ops.Keys == {};
  }

  /** A second operation joins a transaction that has entries already, and both are in
      the same commit. */
  lemma JoinedCommit(size: int, p: Pid, q: Pid, a: nat, b: nat)
    requires size > 3 && p != q && a != b
    ensures
      var s := Exec(Init(size),
        [EvBegin(p), EvWrite(p, a), EvBegin(q), EvWrite(q, b), EvEnd(p), EvEnd(q), EvCommit]);
      s.ended == [Op(0, 1, {a}), Op(0, 1, {b})] && |s.commits| == 1 && s.commits[0] == {a, b} && s.ops == map[]
  {
    var s0 := Init(size);
    var s1 := StepIf(s0, EvBegin(p));
    var s2 := StepIf(s1, EvWrite(p, a));
    var s3 := StepIf(s2, EvBegin(q));
    var s4 := StepIf(s3, EvWrite(q, b));
    assert s4.log.lh == [a, b] && s4.ops == map[p := Op(0, 1, {a}), q := Op(0, 1, {b})] by {
      assert {} + {a} == {a} && {} + {b} == {b};
    }
    var s5 := StepIf(s4, EvEnd(p));
    assert s5.ops == map[q := Op(0, 1, {b})];
    var s6 := StepIf(s5, EvEnd(q));
    var s7 := StepIf(s6, EvCommit);
    assert (set x | x in [a, b]) == {a, b};
    ExecSeven(s0, EvBegin(p), EvWrite(p, a), EvBegin(q), EvWrite(q, b), EvEnd(p), EvEnd(q), EvCommit);
  }

  function StepIf(s: System, e: OpEvent): (r: System) {
    if Enabled(s, e) then Step(s, e) else s
  }

  lemma ExecSeven(s: System, a: OpEvent, b: OpEvent, c: OpEvent, d: OpEvent, e: OpEvent, f: OpEvent, g: OpEvent)
    ensures Exec(s, [a, b, c, d, e, f, g]) ==
      StepIf(StepIf(StepIf(StepIf(StepIf(StepIf(StepIf(s, a), b), c), d), e), f), g)
  {
    hide Enabled, Step;
    ExecMore(s, [a, b, c, d, e, f], g);
    ExecMore(s, [a, b, c, d, e], f);
    ExecMore(s, [a, b, c, d], e);
    ExecMore(s, [a, b, c], d);
    ExecMore(s, [a, b], c);
    ExecMore(s, [a], b);
    ExecMore(s, [], a);
    assert [] + [a] == [a] && [a] + [b] == [a, b] && [a, b] + [c] == [a, b, c] && [a, b, c] + [d] == [a, b, c, d];
    assert [a, b, c, d] + [e] == [a, b, c, d, e] && [a, b, c, d, e] + [f] == [a, b, c, d, e, f];
    assert [a, b, c, d, e, f] + [g] == [a, b, c, d, e, f, g];
  }

  lemma {:induction false} ExecMore(s: System, es: seq<OpEvent>, e: OpEvent)
    ensures Exec(s, es + [e]) == StepIf(Exec(s, es), e)
    decreases es
  {
    hide Enabled, Step;
    if es == [] {
      assert [] + [e] == [e] && [e][1..] == [];
    } else {
      ExecMore(StepIf(s, es[0]), es[1..], e);
      assert (es + [e])[1..] == es[1..] + [e];
    }
  }

  /** An open operation can log any block while the log and its own share have room for
      it; a block that is in the log already takes none of either. */
  lemma WriteExactly(size: int, es: seq<OpEvent>, pid: Pid, b: nat)
    requires pid in Exec(Init(size), es).ops
    ensures
      var s := Exec(Init(size), es);
      && (Enabled(s, EvWrite(pid, b)) <==>
            |s.log.lh| < LOGSIZE && |s.log.lh| < size - 1 && (b in s.log.lh || s.ops[pid].spent < MAXOPBLOCKS))
      && (Enabled(s, EvWrite(pid, b)) ==>
            var r := Step(s, EvWrite(pid, b));
            && r.log.lh == (if b in s.log.lh then s.log.lh else s.log.lh + [b])
            && r.log.outstanding == s.log.outstanding && !r.log.committing
            && pid in r.ops && b in r.ops[pid].writes && Enabled(r, EvEnd(pid)))
  {
    EveryInterleaving(Init(size), es);
    SizeIsConstant(Init(size), es);
    EndOpNeverPanics(size, es, pid);
  }

  // ----- Nobody waits in begin_op for good -----

  /** Between transactions the log is empty. */
  ghost predicate Idle(s: System) {
    s.ops == map[] && !s.log.committing ==> s.log.lh == []
  }

  lemma IdleStep(s: System, e: OpEvent)
    requires LogInv(s) && Idle(s) && Enabled(s, e)
    ensures Idle(Step(s, e))
  {
    if e.EvEnd? {
      assert |s.ops - {e.pid}| == |s.ops| - 1;
      NoOps(s.ops - {e.pid});
    } else if !e.EvCommit? {
      assert e.pid in Step(s, e).ops;
    }
  }

  lemma {:induction false} IdleRun(s: System, es: seq<OpEvent>)
    requires LogInv(s) && Idle(s)
    ensures LogInv(Exec(s, es)) && Idle(Exec(s, es))
    decreases es
  {
    hide LogInv, Idle, Enabled, Step;
    if es != [] {
      if Enabled(s, es[0]) {
        LogInvStep(s, es[0]);
        IdleStep(s, es[0]);
      }
      IdleRun(StepIf(s, es[0]), es[1..]);
    }
  }

  /** From every state in which begin_op makes a process wait, the operations in progress
      can end and the commit can finish, and then it gets in. */
  lemma BeginInTheEnd(size: int, es: seq<OpEvent>, pid: Pid) returns (more: seq<OpEvent>)
    requires pid !in Exec(Init(size), es).ops
    ensures forall i :: 0 <= i < |more| ==> more[i].EvEnd? || more[i].EvCommit?
    ensures
      var s := Exec(Init(size), es + more);
      Enabled(s, EvBegin(pid)) && s.ops == map[] && s.log.lh == [] && !s.log.committing
  {
    var s := Exec(Init(size), es);
    IdleRun(Init(size), es);
    more := Drain(s);
    ExecConcat(Init(size), es, more);
  }

  lemma {:induction false} Drain(s: System) returns (more: seq<OpEvent>)
    requires LogInv(s) && Idle(s)
    ensures forall i :: 0 <= i < |more| ==> more[i].EvEnd? || more[i].EvCommit?
    ensures
      var r := Exec(s, more);
      r.ops == map[] && r.log.lh == [] && !r.log.committing && r.log.outstanding == 0
    decreases |s.ops|
  {
    if s.ops == map[] {
      more := if s.log.committing then [EvCommit] else [];
    } else {
      var p :| p in s.ops;
      var e := EvEnd(p);
      NoOps(s.ops);
      LogInvStep(s, e);
      IdleStep(s, e);
      assert |s.ops - {p}| == |s.ops| - 1;
      more := Drain(Step(s, e));
      assert ([e] + more)[1..] == more;
      more := [e] + more;
    }
  }

  /** When an operation with budget left logs a new block, log_write's guard trips
      exactly when the log area is full; a log of LOGSIZE+1 blocks never is. */
  lemma NewBlockFits(size: int, es: seq<OpEvent>, pid: Pid)
    requires pid in Exec(Init(size), es).ops && Exec(Init(size), es).ops[pid].spent < MAXOPBLOCKS
    ensures
      var s := Exec(Init(size), es);
      && (TooBig(s.log, size) <==> |s.log.lh| >= size - 1)
      && (size >= LOGSIZE + 1 ==> !TooBig(s.log, size))
  {
    EveryInterleaving(Init(size), es);
    var s := Exec(Init(size), es);
    SizeIsConstant(Init(size), es);
    UnspentRemove(s.ops, pid);
    UnspentIsNat(s.ops - {pid});
  }

  /** When an operation writes a block that is already logged, which takes no slot, the
      guard trips if and only if the log is full all the same. In a log of more than
      LOGSIZE blocks that takes LOGSIZE entries, and then every operation in progress has
      used its whole share. */
  lemma LoggedBlockFits(size: int, es: seq<OpEvent>, pid: Pid, b: nat)
    requires pid in Exec(Init(size), es).ops && b in Exec(Init(size), es).log.lh
    ensures
      var s := Exec(Init(size), es);
      && LogWrite(s.log, b) == s.log
      && (TooBig(s.log, size) <==> |s.log.lh| == LOGSIZE || |s.log.lh| >= size - 1)
      && (size > LOGSIZE ==> (TooBig(s.log, size) <==> |s.log.lh| == LOGSIZE))
      && (size > LOGSIZE && TooBig(s.log, size) ==> forall p :: p in s.ops ==> s.ops[p].spent == MAXOPBLOCKS)
  {
    EveryInterleaving(Init(size), es);
    var s := Exec(Init(size), es);
    SizeIsConstant(Init(size), es);
    UnspentIsNat(s.ops);
    forall p | p in s.ops
      ensures |s.log.lh| == LOGSIZE ==> s.ops[p].spent == MAXOPBLOCKS
    {
      UnspentRemove(s.ops, p);
      UnspentIsNat(s.ops - {p});
    }
  }

  lemma {:induction false} SizeIsConstant(s: System, es: seq<OpEvent>)
    ensures Exec(s, es).size == s.size
    decreases es
  {
    if es != [] {
      SizeIsConstant(if Enabled(s, es[0]) then Step(s, es[0]) else s, es[1..]);
    }
  }

  // ----- The log that mkfs makes is one block short -----

  function Writes(pid: Pid, first: nat, count: nat): (es: seq<OpEvent>)
    decreases count
  {
    if count == 0 then [] else [EvWrite(pid, first)] + Writes(pid, first + 1, count - 1)
  }

  lemma {:induction false} ExecConcat(s: System, a: seq<OpEvent>, b: seq<OpEvent>)
    ensures Exec(s, a + b) == Exec(Exec(s, a), b)
    decreases a
  {
    if a == [] {
      assert a + b == b;
    } else {
      assert (a + b)[1..] == a[1..] + b;
      ExecConcat(if Enabled(s, a[0]) then Step(s, a[0]) else s, a[1..], b);
    }
  }

  ghost predicate Compact(s: LogState) {
    forall b :: b in s.lh ==> b < |s.lh|
  }

  /** An operation within its budget logs `count` new blocks. */
  lemma {:induction false} WritesFill(s: System, pid: Pid, count: nat)
    requires pid in s.ops && s.ops[pid].spent + count <= MAXOPBLOCKS
    requires |s.log.lh| + count <= LOGSIZE && |s.log.lh| + count <= s.size - 1
    requires Compact(s.log)
    ensures
      var r := Exec(s, Writes(pid, |s.log.lh|, count));
      && |r.log.lh| == |s.log.lh| + count && Compact(r.log)
      && r.ops.Keys == s.ops.Keys && r.ops[pid].spent == s.ops[pid].spent + count
      && (forall p :: p in s.ops && p != pid ==> r.ops[p] == s.ops[p])
      && r.log.outstanding == s.log.outstanding && r.log.committing == s.log.committing && r.size == s.size
    decreases count
  {
    var first := |s.log.lh|;
    if count > 0 {
      var e := EvWrite(pid, first);
      assert Enabled(s, e);
      var es := Writes(pid, first, count);
      assert es[0] == e && es[1..] == Writes(pid, first + 1, count - 1);
      WritesFill(Step(s, e), pid, count - 1);
    }
  }

  lemma ExecStep(s: System, e: OpEvent, es: seq<OpEvent>)
    requires Enabled(s, e)
    ensures Exec(s, [e] + es) == Exec(Step(s, e), es)
  {
    assert ([e] + es)[1..] == es;
  }

  /** Three operations; the first two log `k` new blocks each, the third `last`. */
  function ThreeOperations(k: nat, last: nat): (es: seq<OpEvent>) {
    [EvBegin(1)] + ([EvBegin(2)] + ([EvBegin(3)] + ThreeWriters(k, last)))
  }

  function ThreeWriters(k: nat, last: nat): (es: seq<OpEvent>) {
    Writes(1, 0, k) + (Writes(2, k, k) + Writes(3, k + k, last))
  }

  lemma ThreeWritersFill(s: System, k: nat, last: nat)
    requires s.ops.Keys == {1, 2, 3} && s.log.lh == []
    requires forall p :: p in s.ops ==> s.ops[p].spent == 0
    requires k <= MAXOPBLOCKS && last <= MAXOPBLOCKS && k + k + last <= s.size - 1
    ensures
      var r := Exec(s, ThreeWriters(k, last));
      |r.log.lh| == k + k + last && 3 in r.ops && r.ops[3].spent == last && Compact(r.log)
  {
    hide Exec, Writes;
    var w1, w2, w3 := Writes(1, 0, k), Writes(2, k, k), Writes(3, k + k, last);
    assert ThreeWriters(k, last) == w1 + (w2 + w3);
    ExecConcat(s, w1, w2 + w3);
    WritesFill(s, 1, k);
    var s1 := Exec(s, w1);
    ExecConcat(s1, w2, w3);
    WritesFill(s1, 2, k);
    WritesFill(Exec(s1, w2), 3, last);
  }

  lemma ThreeOperationsFill(size: int, k: nat, last: nat)
    requires k <= MAXOPBLOCKS && last <= MAXOPBLOCKS && k + k + last <= size - 1
    ensures
      var s := Exec(Init(size), ThreeOperations(k, last));
      |s.log.lh| == k + k + last && 3 in s.ops && s.ops[3].spent == last && Compact(s.log)
  {
    var s0 := Init(size);
    var s1 := Step(s0, EvBegin(1));
    var s2 := Step(s1, EvBegin(2));
    var s3 := Step(s2, EvBegin(3));
    assert s3.ops.Keys == {1, 2, 3};
    hide Exec, ThreeWriters;
    ExecStep(s0, EvBegin(1), [EvBegin(2)] + ([EvBegin(3)] + ThreeWriters(k, last)));
    ExecStep(s1, EvBegin(2), [EvBegin(3)] + ThreeWriters(k, last));
    ExecStep(s2, EvBegin(3), ThreeWriters(k, last));
    ThreeWritersFill(s3, k, last);
  }

  /** With mkfs's log of LOGSIZE blocks, three operations inside their budgets
      reach a state where the last one still has a slot left and its next new
      block panics. */
  lemma MkfsLogIsOneShort()
    ensures
      var s := Exec(Init(LOGSIZE), ThreeOperations(MAXOPBLOCKS, 9));
      3 in s.ops && s.ops[3].spent < MAXOPBLOCKS && 29 !in s.log.lh && TooBig(s.log, LOGSIZE)
  {
    ThreeOperationsFill(LOGSIZE, MAXOPBLOCKS, 9);
  }

  /** Even in a larger log, rewriting an already logged block panics once all
      three operations have used their budgets: the guard precedes absorption. */
  lemma AbsorptionCanPanic(size: int)
    requires size > LOGSIZE
    ensures
      var s := Exec(Init(size), ThreeOperations(MAXOPBLOCKS, 10));
      3 in s.ops && TooBig(s.log, size) && exists b :: b in s.log.lh && LogWrite(s.log, b) == s.log
  {
    ThreeOperationsFill(size, MAXOPBLOCKS, 10);
    var s := Exec(Init(size), ThreeOperations(MAXOPBLOCKS, 10));
    assert s.log.lh[0] in s.log.lh;
  }
}
