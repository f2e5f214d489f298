/** kernel/proc.c: fork, exit, wait, kill, sleep and wakeup in every interleaving.
    One step is one action on the process table under the locks that the code
    holds there; a short critical section of some p->lock is one step that needs
    that lock free. */
module ExitWait {

  datatype Option<T> = None | Some(value: T)

  datatype PState = Unused | Used | Sleeping | Runnable | Running | Zombie

  /** What a sleeping process waits for: its own children, or something else. */
  datatype Chan = NoChan | OnSelf | Elsewhere

  /** Where a process is in fork, exit or wait. */
  datatype Pc =
    | User
    | ForkLink(np: nat) | ForkRun(np: nat)
    | ExitStart | Reparent(i: nat) | WakeInit(i: nat, j: nat) | WakeParent(j: nat)
    | ExitLock | ExitZombie | ExitRelease | ExitSwitch | Dead
    | WaitStart | Scan(i: nat, kids: bool) | CheckKilled
    | SleepLock | SleepRelease | SleepMark | SleepSwitch | Asleep | Woken

  /** `lock` says that the process itself, or the scheduler for it, holds p->lock
      from one step to the next. */
  datatype Proc = Proc(state: PState, parent: Option<nat>, pid: nat, chan: Chan, killed: bool, lock: bool, pc: Pc)

  /** `reaped` lists the pids that wait has returned. */
  datatype State = State(procs: seq<Proc>, waitLock: Option<nat>, nextpid: nat, init: nat, reaped: seq<nat>)

  predicate HoldsWaitLock(pc: Pc) {
    match pc
    case Reparent(_) => true
    case WakeInit(_, _) => true
    case WakeParent(_) => true
    case ExitLock => true
    case ExitZombie => true
    case ExitRelease => true
    case Scan(_, _) => true
    case CheckKilled => true
    case SleepLock => true
    case SleepRelease => true
    case _ => false
  }

  predicate HoldsOwnLock(pc: Pc) {
    pc.ExitZombie? || pc.ExitRelease? || pc.ExitSwitch? || pc.SleepRelease? || pc.SleepMark? || pc.SleepSwitch?
    || pc.Woken?
  }

  /** Past the scan of wait that found no zombie, and not woken since. */
  predicate Sleepy(p: Proc) {
    p.pc.CheckKilled? || p.pc.SleepLock? || p.pc.SleepRelease? || p.pc.SleepMark? || p.pc.SleepSwitch?
    || (p.pc.Asleep? && p.state == Sleeping)
  }

  // ----- Steps -----

  datatype Event =
    | Fork(p: nat, np: nat) | ForkFails(p: nat, np: nat) | LinkChild(p: nat) | RunChild(p: nat)
    | Exit(p: nat) | ExitAcquire(p: nat) | ReparentNext(p: nat) | WakeInitNext(p: nat) | WakeParentNext(p: nat)
    | ExitTakeLock(p: nat) | BecomeZombie(p: nat) | ExitDropLock(p: nat) | ExitLeave(p: nat)
    | Wait(p: nat) | WaitAcquire(p: nat) | ScanNext(p: nat, copied: bool) | TestKilled(p: nat)
    | SleepTakeLock(p: nat) | SleepDropLock(p: nat) | SetSleeping(p: nat) | SleepLeave(p: nat) | Resume(p: nat)
    | Schedule(p: nat) | Preempt(p: nat) | Kill(p: nat, pid: nat) | SleepElsewhere(p: nat) | WakeElsewhere(p: nat)

  predicate At(s: State, p: nat, pc: Pc) {
    p < |s.procs| && s.procs[p].state == Running && s.procs[p].pc == pc
  }

  /** wakeup can look at `j` now: it is the caller, or its lock is free. */
  predicate CanWake(s: State, p: nat, j: nat) {
    j < |s.procs| ==> j == p || !s.procs[j].lock
  }

  predicate Enabled(s: State, ev: Event) {
    var n := |s.procs|;
    ev.p < n &&
    match ev
    case Fork(p, np) => At(s, p, User) && np < n && s.procs[np].state == Unused && !s.procs[np].lock
    case ForkFails(p, np) => At(s, p, User) && np < n && s.procs[np].state == Unused && !s.procs[np].lock
    case LinkChild(p) =>
      s.procs[p].state == Running && s.procs[p].pc.ForkLink? && s.procs[p].pc.np < n && s.waitLock == None
    case RunChild(p) =>
      s.procs[p].state == Running && s.procs[p].pc.ForkRun? && s.procs[p].pc.np < n && !s.procs[s.procs[p].pc.np].lock
    case Exit(p) => At(s, p, User) && p != s.init
    case ExitAcquire(p) => At(s, p, ExitStart) && s.waitLock == None
    case ReparentNext(p) => s.procs[p].pc.Reparent?
    case WakeInitNext(p) => s.procs[p].pc.WakeInit? && CanWake(s, p, s.procs[p].pc.j)
    case WakeParentNext(p) => s.procs[p].pc.WakeParent? && CanWake(s, p, s.procs[p].pc.j)
    case ExitTakeLock(p) => s.procs[p].pc.ExitLock? && !s.procs[p].lock
    case BecomeZombie(p) => s.procs[p].pc.ExitZombie?
    case ExitDropLock(p) => s.procs[p].pc.ExitRelease?
    case ExitLeave(p) => s.procs[p].pc.ExitSwitch?
    case Wait(p) => At(s, p, User)
    case WaitAcquire(p) => At(s, p, WaitStart) && s.waitLock == None
    case ScanNext(p, copied) =>
      && s.procs[p].pc.Scan?
      && (s.procs[p].pc.i < n && s.procs[s.procs[p].pc.i].parent == Some(p) ==> !s.procs[s.procs[p].pc.i].lock)
    case TestKilled(p) => s.procs[p].pc.CheckKilled? && !s.procs[p].lock
    case SleepTakeLock(p) => s.procs[p].pc.SleepLock? && !s.procs[p].lock
    case SleepDropLock(p) => s.procs[p].pc.SleepRelease?
    case SetSleeping(p) => s.procs[p].pc.SleepMark?
    case SleepLeave(p) => s.procs[p].pc.SleepSwitch?
    case Resume(p) => s.procs[p].pc.Woken?
    case Schedule(p) => s.procs[p].state == Runnable && !s.procs[p].lock
    case Preempt(p) => s.procs[p].state == Running && !s.procs[p].lock && s.waitLock != Some(p)
    case Kill(p, pid) => !s.procs[p].lock && s.procs[p].pid == pid
    case SleepElsewhere(p) => At(s, p, User)
    case WakeElsewhere(p) => !s.procs[p].lock && s.procs[p].state == Sleeping && s.procs[p].chan == Elsewhere
  }

  function Put(s: State, p: nat, x: Proc): (r: State)
    requires p < |s.procs|
  {
    s.(procs := s.procs[p := x])
  }

  function Goto(s: State, p: nat, pc: Pc): (r: State)
    requires p < |s.procs|
  {
    Put(s, p, s.procs[p].(pc := pc))
  }

  /** One round of wakeup(t) by `p`, looking at `j`. */
  function WakeOne(s: State, p: nat, j: nat, t: Option<nat>): (r: State)
    requires j < |s.procs|
  {
    if j != p && s.procs[j].state == Sleeping && s.procs[j].chan == OnSelf && t == Some(j)
    then Put(s, j, s.procs[j].(state := Runnable)) else s
  }

  /** freeproc */
  function Freed(): (x: Proc) {
    Proc(Unused, None, 0, NoChan, false, false, User)
  }

  /** allocproc: nothing else about the slot changes. */
  function Allocated(x: Proc, pid: nat): (y: Proc) {
    x.(state := Used, pid := pid)
  }

  function Step(s: State, ev: Event): (r: State)
    requires Enabled(s, ev)
    ensures |r.procs| == |s.procs|
  {
    var n, p := |s.procs|, ev.p;
    var x := s.procs[p];
    match ev
    case Fork(_, np) =>
      Goto(Put(s, np, Allocated(s.procs[np], s.nextpid)), p, ForkLink(np)).(nextpid := s.nextpid + 1)
    case ForkFails(_, np) => Put(s, np, Freed()).(nextpid := s.nextpid + 1)
    case LinkChild(_) => Goto(Put(s, x.pc.np, s.procs[x.pc.np].(parent := Some(p))), p, ForkRun(x.pc.np))
    case RunChild(_) => Goto(Put(s, x.pc.np, s.procs[x.pc.np].(state := Runnable)), p, User)
    case Exit(_) => Goto(s, p, ExitStart)
    case ExitAcquire(_) => Goto(s, p, Reparent(0)).(waitLock := Some(p))
    case ReparentNext(_) =>
      if x.pc.i >= n then Goto(s, p, WakeParent(0))
      else if s.procs[x.pc.i].parent == Some(p) then
        Goto(Put(s, x.pc.i, s.procs[x.pc.i].(parent := Some(s.init))), p, WakeInit(x.pc.i, 0))
      else Goto(s, p, Reparent(x.pc.i + 1))
    case WakeInitNext(_) =>
      if x.pc.j >= n then Goto(s, p, Reparent(x.pc.i + 1))
      else Goto(WakeOne(s, p, x.pc.j, Some(s.init)), p, WakeInit(x.pc.i, x.pc.j + 1))
    case WakeParentNext(_) =>
      if x.pc.j >= n then Goto(s, p, ExitLock)
      else Goto(WakeOne(s, p, x.pc.j, x.parent), p, WakeParent(x.pc.j + 1))
    case ExitTakeLock(_) => Put(s, p, x.(lock := true, pc := ExitZombie))
    case BecomeZombie(_) => Put(s, p, x.(state := Zombie, pc := ExitRelease))
    case ExitDropLock(_) => Goto(s, p, ExitSwitch).(waitLock := None)
    case ExitLeave(_) => Put(s, p, x.(lock := false, pc := Dead))
    case Wait(_) => Goto(s, p, WaitStart)
    case WaitAcquire(_) => Goto(s, p, Scan(0, false)).(waitLock := Some(p))
    case ScanNext(_, copied) =>
      if x.pc.i >= n then (if x.pc.kids then Goto(s, p, CheckKilled) else Goto(s, p, User).(waitLock := None))
      else if s.procs[x.pc.i].parent != Some(p) then Goto(s, p, Scan(x.pc.i + 1, x.pc.kids))
      else if s.procs[x.pc.i].state != Zombie then Goto(s, p, Scan(x.pc.i + 1, true))
      else if !copied then Goto(s, p, User).(waitLock := None)
      else Goto(Put(s, x.pc.i, Freed()), p, User).(waitLock := None, reaped := s.reaped + [s.procs[x.pc.i].pid])
    case TestKilled(_) => if x.killed then Goto(s, p, User).(waitLock := None) else Goto(s, p, SleepLock)
    case SleepTakeLock(_) => Put(s, p, x.(lock := true, pc := SleepRelease))
    case SleepDropLock(_) => Goto(s, p, SleepMark).(waitLock := None)
    case SetSleeping(_) => Put(s, p, x.(chan := OnSelf, state := Sleeping, pc := SleepSwitch))
    case SleepLeave(_) => Put(s, p, x.(lock := false, pc := Asleep))
    case Resume(_) => Put(s, p, x.(chan := NoChan, lock := false, pc := WaitStart))
    case Schedule(_) =>
      if x.pc.Asleep? then Put(s, p, x.(state := Running, lock := true, pc := Woken))
      else Put(s, p, x.(state := Running, chan := NoChan))
    case Preempt(_) => Put(s, p, x.(state := Runnable))
    case Kill(_, _) => Put(s, p, x.(killed := true, state := if x.state == Sleeping then Runnable else x.state))
    case SleepElsewhere(_) => Put(s, p, x.(state := Sleeping, chan := Elsewhere))
    case WakeElsewhere(_) => Put(s, p, x.(state := Runnable))
  }

  // ----- The invariant -----

  /** The states that go with each place in the code. */
  predicate Shaped(x: Proc) {
    && (x.lock <==> HoldsOwnLock(x.pc))
    && (x.state == Zombie <==> x.pc.ExitRelease? || x.pc.ExitSwitch? || x.pc.Dead?)
    && (HoldsWaitLock(x.pc) && !x.pc.ExitRelease? ==> x.state == Running)
    && (x.pc.SleepMark? || x.pc.Woken? ==> x.state == Running)
    && (x.pc.SleepSwitch? ==> x.state == Sleeping)
    && (x.pc.Asleep? ==> x.state == Sleeping || x.state == Runnable)
    && (x.chan == OnSelf <==> x.pc.SleepSwitch? || x.pc.Asleep? || x.pc.Woken?)
    && (x.state == Unused || x.state == Used ==> x.pc.User?)
    && (x.state == Sleeping ==> x.pc.User? || x.pc.SleepSwitch? || x.pc.Asleep?)
  }

  predicate Alive(x: Proc) {
    x.state != Unused && x.state != Used && x.state != Zombie
  }

  /** A process in the middle of wakeup(initproc) has not come to init yet. */
  predicate Excused(s: State) {
    && s.waitLock.Some? && s.waitLock.value < |s.procs| && s.procs[s.waitLock.value].pc.WakeInit?
    && s.procs[s.waitLock.value].pc.j <= s.init
  }

  predicate ProcOk(s: State, p: nat)
    requires p < |s.procs|
  {
    var x := s.procs[p];
    && Shaped(x) && (HoldsWaitLock(x.pc) <==> s.waitLock == Some(p))
    && (x.pc.ForkLink? || x.pc.ForkRun? ==>
         && x.pc.np < |s.procs| && x.pc.np != p && s.procs[x.pc.np].state == Used && Alive(x)
         && s.procs[x.pc.np].parent == if x.pc.ForkLink? then None else Some(p))
    && (x.state != Unused ==> x.pid < s.nextpid)
  }

  /** May a process at `pc` still have child `c`? */
  predicate MayHave(pc: Pc, c: nat) {
    match pc
    case Reparent(i) => i <= c
    case WakeInit(i, _) => i < c
    case WakeParent(_) => false
    case ExitLock => false
    case ExitZombie => false
    case ExitRelease => false
    case ExitSwitch => false
    case Dead => false
    case Scan(i, kids) => c < i ==> kids
    case _ => true
  }

  /** What holds of a child and its parent. */
  predicate ChildOk(s: State, c: nat)
    requires c < |s.procs| && s.procs[c].parent.Some?
  {
    var x, q := s.procs[c], s.procs[c].parent.value;
    && q < |s.procs| && q != c && c != s.init && x.state != Unused && Alive(s.procs[q]) && MayHave(s.procs[q].pc, c)
    && (x.state == Zombie ==>
         && (s.procs[q].pc.Scan? ==> s.procs[q].pc.i <= c)
         && (Sleepy(s.procs[q]) ==> q == s.init && Excused(s)))
    && ((x.pc.WakeParent? && q < x.pc.j) || x.pc.ExitLock? || x.pc.ExitZombie? ==> !Sleepy(s.procs[q]))
  }

  predicate Exiting(pc: Pc) {
    pc.ExitStart? || pc.Reparent? || pc.WakeInit? || pc.WakeParent? || pc.ExitLock? || pc.ExitZombie? || pc.ExitRelease?
    || pc.ExitSwitch? || pc.Dead?
  }

  predicate Forking(pc: Pc) {
    pc.ForkLink? || pc.ForkRun?
  }

  /** No two forks have the same child. */
  ghost predicate ForksApart(s: State) {
    forall p, q :: 0 <= p < q < |s.procs| && Forking(s.procs[p].pc) && Forking(s.procs[q].pc) ==>
      s.procs[p].pc.np != s.procs[q].pc.np
  }

  ghost predicate Inv(s: State) {
    && s.init < |s.procs| && Alive(s.procs[s.init]) && s.procs[s.init].parent == None && !Exiting(s.procs[s.init].pc)
    && (s.waitLock.Some? ==> s.waitLock.value < |s.procs|) && ForksApart(s)
    && (forall p :: 0 <= p < |s.procs| ==> ProcOk(s, p))
    && (forall c :: 0 <= c < |s.procs| && s.procs[c].parent.Some? ==> ChildOk(s, c))
  }

  // ----- Every step keeps the invariant -----

  /** Process `p` goes from `x` to `y`, everybody else stays. */
  ghost predicate Moved(s: State, r: State, p: nat) {
    && p < |s.procs| == |r.procs| && r.init == s.init && r.nextpid == s.nextpid && r.procs == s.procs[p := r.procs[p]]
    && r.procs[p].parent == s.procs[p].parent && r.procs[p].pid == s.procs[p].pid
    && (r.waitLock == s.waitLock || (s.waitLock == None && r.waitLock == Some(p))
        || (s.waitLock == Some(p) && r.waitLock == None))
  }

  /** What the process itself has to see to. */
  ghost predicate MoveOk(s: State, r: State, p: nat)
    requires Moved(s, r, p)
  {
    var x, y := s.procs[p], r.procs[p];
    && Shaped(y) && (HoldsWaitLock(y.pc) <==> r.waitLock == Some(p))
    && (y.state == Unused <==> x.state == Unused) && (x.state == Used <==> y.state == Used)
    && (Forking(y.pc) ==> y.pc == x.pc && Alive(y))
    && (p == s.init ==> Alive(y) && !Exiting(y.pc))
    && (Excused(s) ==> Excused(r) || (r.init < |r.procs| && !Sleepy(r.procs[r.init])))
    && (Sleepy(y) ==> Sleepy(x) || s.waitLock == Some(p))
    && (forall c :: 0 <= c < |s.procs| && s.procs[c].parent == Some(p) ==> ParentOk(s, x, y, c))
  }

  /** From `x` to `y` the process can go on as the parent of `c`. */
  predicate ParentOk(s: State, x: Proc, y: Proc, c: nat)
    requires c < |s.procs|
  {
    && Alive(y) && MayHave(y.pc, c)
    && (s.procs[c].state == Zombie ==> (Sleepy(y) ==> Sleepy(x)) && (y.pc.Scan? ==> y.pc.i <= c))
  }

  lemma KeepMove(s: State, r: State, p: nat)
    requires Inv(s) && Moved(s, r, p) && MoveOk(s, r, p)
    requires r.procs[p].parent.Some? ==> ChildOk(r, p)
    ensures Inv(r)
  {
    forall q | 0 <= q < |r.procs|
      ensures ProcOk(r, q)
    {
      MoveProc(s, r, p, q);
    }
    forall c | 0 <= c < |r.procs| && r.procs[c].parent.Some?
      ensures ChildOk(r, c)
    {
      if c != p {
        MoveChild(s, r, p, c);
      }
    }
  }

  lemma MoveProc(s: State, r: State, p: nat, q: nat)
    requires Moved(s, r, p) && MoveOk(s, r, p) && q < |s.procs| && ProcOk(s, q) && ProcOk(s, p)
    ensures ProcOk(r, q)
  {}

  lemma MoveChild(s: State, r: State, p: nat, c: nat)
    requires Moved(s, r, p) && MoveOk(s, r, p) && c < |s.procs| && c != p && s.procs[c].parent.Some? && ChildOk(s, c)
    requires ProcOk(s, c) && ProcOk(s, p)
    ensures ChildOk(r, c)
  {}

  lemma KeepExit(s: State, p: nat)
    requires Inv(s) && Enabled(s, Exit(p))
    ensures Inv(Step(s, Exit(p)))
  {
    hide ForksApart;
    var r := Step(s, Exit(p));
    assert ProcOk(s, p);
    Known(s, p);
    KeepMove(s, r, p);
  }

  lemma KeepExitAcquire(s: State, p: nat)
    requires Inv(s) && Enabled(s, ExitAcquire(p))
    ensures Inv(Step(s, ExitAcquire(p)))
  {
    hide ForksApart;
    var r := Step(s, ExitAcquire(p));
    assert ProcOk(s, p);
    Known(s, p);
    KeepMove(s, r, p);
  }

  lemma KeepExitTakeLock(s: State, p: nat)
    requires Inv(s) && Enabled(s, ExitTakeLock(p))
    ensures Inv(Step(s, ExitTakeLock(p)))
  {
    hide ForksApart;
    var r := Step(s, ExitTakeLock(p));
    assert ProcOk(s, p);
    Known(s, p);
    KeepMove(s, r, p);
  }

  lemma KeepBecomeZombie(s: State, p: nat)
    requires Inv(s) && Enabled(s, BecomeZombie(p))
    ensures Inv(Step(s, BecomeZombie(p)))
  {
    hide ForksApart;
    var r := Step(s, BecomeZombie(p));
    assert ProcOk(s, p);
    Known(s, p);
    KeepMove(s, r, p);
  }

  lemma KeepExitDropLock(s: State, p: nat)
    requires Inv(s) && Enabled(s, ExitDropLock(p))
    ensures Inv(Step(s, ExitDropLock(p)))
  {
    hide ForksApart;
    var r := Step(s, ExitDropLock(p));
    assert ProcOk(s, p);
    Known(s, p);
    KeepMove(s, r, p);
  }

  lemma KeepExitLeave(s: State, p: nat)
    requires Inv(s) && Enabled(s, ExitLeave(p))
    ensures Inv(Step(s, ExitLeave(p)))
  {
    hide ForksApart;
    var r := Step(s, ExitLeave(p));
    assert ProcOk(s, p);
    Known(s, p);
    KeepMove(s, r, p);
  }

  lemma KeepWait(s: State, p: nat)
    requires Inv(s) && Enabled(s, Wait(p))
    ensures Inv(Step(s, Wait(p)))
  {
    hide ForksApart;
    var r := Step(s, Wait(p));
    assert ProcOk(s, p);
    Known(s, p);
    KeepMove(s, r, p);
  }

  lemma KeepWaitAcquire(s: State, p: nat)
    requires Inv(s) && Enabled(s, WaitAcquire(p))
    ensures Inv(Step(s, WaitAcquire(p)))
  {
    hide ForksApart;
    var r := Step(s, WaitAcquire(p));
    assert ProcOk(s, p);
    Known(s, p);
    KeepMove(s, r, p);
  }

  lemma KeepTestKilled(s: State, p: nat)
    requires Inv(s) && Enabled(s, TestKilled(p))
    ensures Inv(Step(s, TestKilled(p)))
  {
    hide ForksApart;
    var r := Step(s, TestKilled(p));
    assert ProcOk(s, p);
    Known(s, p);
    KeepMove(s, r, p);
  }

  lemma KeepSleepTakeLock(s: State, p: nat)
    requires Inv(s) && Enabled(s, SleepTakeLock(p))
    ensures Inv(Step(s, SleepTakeLock(p)))
  {
    hide ForksApart;
    var r := Step(s, SleepTakeLock(p));
    assert ProcOk(s, p);
    Known(s, p);
    KeepMove(s, r, p);
  }

  lemma KeepSleepDropLock(s: State, p: nat)
    requires Inv(s) && Enabled(s, SleepDropLock(p))
    ensures Inv(Step(s, SleepDropLock(p)))
  {
    hide ForksApart;
    var r := Step(s, SleepDropLock(p));
    assert ProcOk(s, p);
    Known(s, p);
    KeepMove(s, r, p);
  }

  lemma KeepSetSleeping(s: State, p: nat)
    requires Inv(s) && Enabled(s, SetSleeping(p))
    ensures Inv(Step(s, SetSleeping(p)))
  {
    hide ForksApart;
    var r := Step(s, SetSleeping(p));
    assert ProcOk(s, p);
    Known(s, p);
    KeepMove(s, r, p);
  }

  lemma KeepSleepLeave(s: State, p: nat)
    requires Inv(s) && Enabled(s, SleepLeave(p))
    ensures Inv(Step(s, SleepLeave(p)))
  {
    hide ForksApart;
    var r := Step(s, SleepLeave(p));
    assert ProcOk(s, p);
    Known(s, p);
    KeepMove(s, r, p);
  }

  lemma KeepResume(s: State, p: nat)
    requires Inv(s) && Enabled(s, Resume(p))
    ensures Inv(Step(s, Resume(p)))
  {
    hide ForksApart;
    var r := Step(s, Resume(p));
    assert ProcOk(s, p);
    Known(s, p);
    KeepMove(s, r, p);
  }

  lemma KeepSchedule(s: State, p: nat)
    requires Inv(s) && Enabled(s, Schedule(p))
    ensures Inv(Step(s, Schedule(p)))
  {
    hide ForksApart;
    var r := Step(s, Schedule(p));
    assert ProcOk(s, p);
    Known(s, p);
    KeepMove(s, r, p);
  }

  lemma KeepPreempt(s: State, p: nat)
    requires Inv(s) && Enabled(s, Preempt(p))
    ensures Inv(Step(s, Preempt(p)))
  {
    hide ForksApart;
    var r := Step(s, Preempt(p));
    assert ProcOk(s, p);
    Known(s, p);
    KeepMove(s, r, p);
  }

  lemma KeepKill(s: State, p: nat, pid: nat)
    requires Inv(s) && Enabled(s, Kill(p, pid))
    ensures Inv(Step(s, Kill(p, pid)))
  {
    hide ForksApart;
    var r := Step(s, Kill(p, pid));
    assert ProcOk(s, p);
    Known(s, p);
    KeepMove(s, r, p);
  }

  lemma KeepSleepElsewhere(s: State, p: nat)
    requires Inv(s) && Enabled(s, SleepElsewhere(p))
    ensures Inv(Step(s, SleepElsewhere(p)))
  {
    hide ForksApart;
    var r := Step(s, SleepElsewhere(p));
    assert ProcOk(s, p);
    Known(s, p);
    KeepMove(s, r, p);
  }

  lemma KeepWakeElsewhere(s: State, p: nat)
    requires Inv(s) && Enabled(s, WakeElsewhere(p))
    ensures Inv(Step(s, WakeElsewhere(p)))
  {
    hide ForksApart;
    var r := Step(s, WakeElsewhere(p));
    assert ProcOk(s, p);
    Known(s, p);
    KeepMove(s, r, p);
  }

  /** What the invariant says of a process, its parent and its children. */
  lemma Known(s: State, p: nat)
    requires Inv(s) && p < |s.procs|
    ensures ProcOk(s, p)
    ensures s.procs[p].parent.Some? ==> ChildOk(s, p) && ProcOk(s, s.procs[p].parent.value)
    ensures forall c :: 0 <= c < |s.procs| && s.procs[c].parent == Some(p) ==> ChildOk(s, c)
  {}

  /** wakeup's effect on one sleeper. */
  lemma KeepWakeOne(s: State, p: nat, j: nat, t: Option<nat>)
    requires Inv(s) && j < |s.procs| && p < |s.procs| && s.waitLock == Some(p) && (j == p || !s.procs[j].lock)
    requires t != Some(p)
    ensures Inv(WakeOne(s, p, j, t))
    ensures
      var r := WakeOne(s, p, j, t);
      && |r.procs| == |s.procs| && r.procs[p] == s.procs[p] && r.init == s.init && r.waitLock == s.waitLock
      && (Excused(r) <==> Excused(s))
      && (t == Some(j) ==> !Sleepy(r.procs[j]))
      && (forall q :: 0 <= q < |s.procs| && !Sleepy(s.procs[q]) ==> !Sleepy(r.procs[q]))
  {
    hide ForksApart;
    var r := WakeOne(s, p, j, t);
    Known(s, j);
    Known(s, p);
    if r != s {
      KeepMove(s, r, j);
    }
  }

  /** The scans of exit move on. */
  lemma KeepScanOn(s: State, p: nat, pc: Pc)
    requires Inv(s) && p < |s.procs|
    requires
      var x := s.procs[p];
      match x.pc
      case WakeInit(i, j) =>
        (pc == WakeInit(i, j + 1) && (j == s.init ==> !Sleepy(s.procs[s.init])))
        || (pc == Reparent(i + 1) && j >= |s.procs|)
      case WakeParent(j) => (pc == WakeParent(j + 1) || (pc == ExitLock && j >= |s.procs|))
        && (x.parent.Some? && x.parent.value == j ==> j < |s.procs| && !Sleepy(s.procs[j]))
      case Reparent(i) =>
        (pc == Reparent(i + 1) && i < |s.procs| && s.procs[i].parent != Some(p))
        || (pc == WakeParent(0) && i >= |s.procs|)
      case _ => false
    ensures Inv(Goto(s, p, pc))
  {
    hide ForksApart;
    Known(s, p);
    KeepMove(s, Goto(s, p, pc), p);
  }

  lemma KeepWakeInitNext(s: State, p: nat)
    requires Inv(s) && Enabled(s, WakeInitNext(p))
    ensures Inv(Step(s, WakeInitNext(p)))
  {
    hide Inv, Excused;
    Known(s, p);
    var i, j := s.procs[p].pc.i, s.procs[p].pc.j;
    if j < |s.procs| {
      InitStays(s, p);
      KeepWakeOne(s, p, j, Some(s.init));
      KeepScanOn(WakeOne(s, p, j, Some(s.init)), p, WakeInit(i, j + 1));
    } else {
      KeepScanOn(s, p, Reparent(i + 1));
    }
  }

  lemma InitStays(s: State, p: nat)
    requires Inv(s) && p < |s.procs| && Exiting(s.procs[p].pc)
    ensures p != s.init && s.procs[p].parent != Some(p)
  {
    hide ProcOk;
    if s.procs[p].parent.Some? {
      assert ChildOk(s, p);
    }
  }

  lemma KeepWakeParentNext(s: State, p: nat)
    requires Inv(s) && Enabled(s, WakeParentNext(p))
    ensures Inv(Step(s, WakeParentNext(p)))
  {
    hide Inv, Excused;
    Known(s, p);
    var j := s.procs[p].pc.j;
    if j < |s.procs| {
      InitStays(s, p);
      KeepWakeOne(s, p, j, s.procs[p].parent);
      KeepScanOn(WakeOne(s, p, j, s.procs[p].parent), p, WakeParent(j + 1));
    } else {
      KeepScanOn(s, p, ExitLock);
    }
  }

  /** reparent: one child goes to init. */
  lemma KeepReparentNext(s: State, p: nat)
    requires Inv(s) && Enabled(s, ReparentNext(p))
    ensures Inv(Step(s, ReparentNext(p)))
  {
    hide Inv;
    Known(s, p);
    var i := s.procs[p].pc.i;
    if i >= |s.procs| {
      KeepScanOn(s, p, WakeParent(0));
    } else if s.procs[i].parent != Some(p) {
      KeepScanOn(s, p, Reparent(i + 1));
    } else {
      KeepAdopt(s, p, i);
    }
  }

  lemma KeepAdopt(s: State, p: nat, i: nat)
    requires Inv(s) && p < |s.procs| && i < |s.procs| && s.procs[p].pc == Reparent(i) && s.procs[i].parent == Some(p)
    ensures Inv(Goto(Put(s, i, s.procs[i].(parent := Some(s.init))), p, WakeInit(i, 0)))
  {
    var r := Goto(Put(s, i, s.procs[i].(parent := Some(s.init))), p, WakeInit(i, 0));
    InitStays(s, p);
    assert ChildOk(s, i);
    forall q | 0 <= q < |r.procs|
      ensures ProcOk(r, q)
    {
      assert ProcOk(s, q) && ProcOk(s, p);
    }
    forall c | 0 <= c < |r.procs| && r.procs[c].parent.Some?
      ensures ChildOk(r, c)
    {
      AdoptChild(s, r, p, i, c);
    }
  }

  lemma AdoptChild(s: State, r: State, p: nat, i: nat, c: nat)
    requires Inv(s) && p < |s.procs| && i < |s.procs| && s.procs[p].pc == Reparent(i) && s.procs[i].parent == Some(p)
    requires p != i && r == Goto(Put(s, i, s.procs[i].(parent := Some(s.init))), p, WakeInit(i, 0))
    requires c < |s.procs| && r.procs[c].parent.Some? && p != s.init
    ensures ChildOk(r, c)
  {
    hide ForksApart;
    assert ProcOk(s, p) && ProcOk(s, c) && ProcOk(s, s.init);
    assert ChildOk(s, c);
  }

  /** freeproc of a process that is done, or of a slot that was free before. */
  lemma KeepFree(s: State, i: nat)
    requires Inv(s) && i < |s.procs| && (s.procs[i].pc == Dead || s.procs[i].state == Unused)
    ensures Inv(Put(s, i, Freed()))
  {
    var r := Put(s, i, Freed());
    assert ProcOk(s, i);
    forall q | 0 <= q < |r.procs|
      ensures ProcOk(r, q)
    {
      assert ProcOk(s, q);
    }
    forall c | 0 <= c < |r.procs| && r.procs[c].parent.Some?
      ensures ChildOk(r, c)
    {
      assert ChildOk(s, c);
    }
  }

  /** wait gives up its lock and returns. */
  lemma KeepReturn(s: State, p: nat, reaped: seq<nat>)
    requires Inv(s) && p < |s.procs| && (s.procs[p].pc.Scan? || s.procs[p].pc.CheckKilled?)
    ensures Inv(Goto(s, p, User).(waitLock := None, reaped := reaped))
  {
    hide ForksApart;
    Known(s, p);
    KeepMove(s, Goto(s, p, User).(waitLock := None, reaped := reaped), p);
  }

  lemma KeepScanNext(s: State, p: nat, copied: bool)
    requires Inv(s) && Enabled(s, ScanNext(p, copied))
    ensures Inv(Step(s, ScanNext(p, copied)))
  {
    hide Inv;
    Known(s, p);
    var i := s.procs[p].pc.i;
    if i >= |s.procs| {
      if s.procs[p].pc.kids {
        KeepLook(s, p, CheckKilled);
      } else {
        KeepReturn(s, p, s.reaped);
      }
    } else if s.procs[i].parent != Some(p) {
      KeepLook(s, p, Scan(i + 1, s.procs[p].pc.kids));
    } else if s.procs[i].state != Zombie {
      KeepLook(s, p, Scan(i + 1, true));
    } else if !copied {
      KeepReturn(s, p, s.reaped);
    } else {
      Known(s, i);
      KeepFree(s, i);
      assert i != p;
      KeepReturn(Put(s, i, Freed()), p, s.reaped + [s.procs[i].pid]);
    }
  }

  /** The scan of wait moves on. */
  lemma KeepLook(s: State, p: nat, pc: Pc)
    requires Inv(s) && p < |s.procs| && s.procs[p].pc.Scan?
    requires
      var i, kids := s.procs[p].pc.i, s.procs[p].pc.kids;
      if i < |s.procs|
      then
        && pc == Scan(i + 1, kids || s.procs[i].parent == Some(p))
        && !(s.procs[i].parent == Some(p) && s.procs[i].state == Zombie)
      else pc == CheckKilled
    ensures Inv(Goto(s, p, pc))
  {
    hide ForksApart;
    Known(s, p);
    KeepMove(s, Goto(s, p, pc), p);
  }

  // ----- fork -----

  ghost predicate NobodysFork(s: State, np: nat) {
    forall q :: 0 <= q < |s.procs| && Forking(s.procs[q].pc) ==> s.procs[q].pc.np != np
  }

  /** allocproc */
  lemma KeepAlloc(s: State, np: nat)
    requires Inv(s) && np < |s.procs| && s.procs[np].state == Unused
    ensures
      var r := Put(s, np, Allocated(s.procs[np], s.nextpid)).(nextpid := s.nextpid + 1);
      Inv(r) && NobodysFork(r, np) && r.procs[np].parent == None
  {
    var r := Put(s, np, Allocated(s.procs[np], s.nextpid)).(nextpid := s.nextpid + 1);
    assert ProcOk(s, np);
    forall q | 0 <= q < |r.procs|
      ensures ProcOk(r, q) && (Forking(r.procs[q].pc) ==> r.procs[q].pc.np != np)
    {
      assert ProcOk(s, q);
    }
    forall c | 0 <= c < |r.procs| && r.procs[c].parent.Some?
      ensures ChildOk(r, c)
    {
      assert ChildOk(s, c);
    }
  }

  lemma KeepEnter(s: State, p: nat, np: nat)
    requires Inv(s) && At(s, p, User) && np < |s.procs| && np != p && s.procs[np].state == Used
    requires s.procs[np].parent == None && NobodysFork(s, np)
    ensures Inv(Goto(s, p, ForkLink(np)))
  {
    var r := Goto(s, p, ForkLink(np));
    forall q | 0 <= q < |r.procs|
      ensures ProcOk(r, q)
    {
      assert ProcOk(s, q) && ProcOk(s, p);
    }
    forall c | 0 <= c < |r.procs| && r.procs[c].parent.Some?
      ensures ChildOk(r, c)
    {
      assert ChildOk(s, c) && ProcOk(s, p);
    }
  }

  lemma KeepFork(s: State, p: nat, np: nat)
    requires Inv(s) && Enabled(s, Fork(p, np))
    ensures Inv(Step(s, Fork(p, np)))
  {
    hide Inv, NobodysFork;
    KeepAlloc(s, np);
    KeepEnter(Put(s, np, Allocated(s.procs[np], s.nextpid)).(nextpid := s.nextpid + 1), p, np);
  }

  lemma KeepForkFails(s: State, p: nat, np: nat)
    requires Inv(s) && Enabled(s, ForkFails(p, np))
    ensures Inv(Step(s, ForkFails(p, np)))
  {
    KeepFree(s, np);
    var t, r := Put(s, np, Freed()), Step(s, ForkFails(p, np));
    forall q | 0 <= q < |r.procs|
      ensures ProcOk(r, q)
    {
      assert ProcOk(t, q);
    }
    forall c | 0 <= c < |r.procs| && r.procs[c].parent.Some?
      ensures ChildOk(r, c)
    {
      assert ChildOk(t, c);
    }
  }

  lemma KeepLinkChild(s: State, p: nat)
    requires Inv(s) && Enabled(s, LinkChild(p))
    ensures Inv(Step(s, LinkChild(p)))
  {
    var r := Step(s, LinkChild(p));
    forall q | 0 <= q < |r.procs|
      ensures ProcOk(r, q)
    {
      LinkProc(s, p, q);
    }
    forall c | 0 <= c < |r.procs| && r.procs[c].parent.Some?
      ensures ChildOk(r, c)
    {
      LinkChildren(s, p, c);
    }
  }

  lemma LinkProc(s: State, p: nat, q: nat)
    requires Inv(s) && Enabled(s, LinkChild(p)) && q < |s.procs|
    ensures ProcOk(Step(s, LinkChild(p)), q)
  {
    assert ProcOk(s, p) && ProcOk(s, s.procs[p].pc.np) && ProcOk(s, q);
  }

  lemma LinkChildren(s: State, p: nat, c: nat)
    requires Inv(s) && Enabled(s, LinkChild(p)) && c < |s.procs| && Step(s, LinkChild(p)).procs[c].parent.Some?
    ensures ChildOk(Step(s, LinkChild(p)), c)
  {
    hide ForksApart;
    assert ProcOk(s, p) && ProcOk(s, s.procs[p].pc.np);
    if c != s.procs[p].pc.np {
      assert ChildOk(s, c);
    }
  }

  /** The new process may run. */
  lemma KeepStart(s: State, np: nat)
    requires Inv(s) && np < |s.procs| && s.procs[np].state == Used && NobodysFork(s, np)
    ensures Inv(Put(s, np, s.procs[np].(state := Runnable)))
  {
    var r := Put(s, np, s.procs[np].(state := Runnable));
    forall q | 0 <= q < |r.procs|
      ensures ProcOk(r, q)
    {
      assert ProcOk(s, q) && ProcOk(s, np);
    }
    forall c | 0 <= c < |r.procs| && r.procs[c].parent.Some?
      ensures ChildOk(r, c)
    {
      assert ChildOk(s, c) && ProcOk(s, np);
    }
  }

  lemma KeepRunChild(s: State, p: nat)
    requires Inv(s) && Enabled(s, RunChild(p))
    ensures Inv(Step(s, RunChild(p)))
  {
    hide ChildOk, Excused;
    var np := s.procs[p].pc.np;
    Known(s, p);
    var t := Goto(s, p, User);
    KeepLeaveFork(s, p);
    assert t.procs[np] == s.procs[np];
    KeepStart(t, np);
    assert Step(s, RunChild(p)).procs == Put(t, np, t.procs[np].(state := Runnable)).procs;
  }

  lemma KeepLeaveFork(s: State, p: nat)
    requires Inv(s) && p < |s.procs| && s.procs[p].state == Running && s.procs[p].pc.ForkRun?
    ensures Inv(Goto(s, p, User)) && NobodysFork(Goto(s, p, User), s.procs[p].pc.np)
  {
    Known(s, p);
    KeepMove(s, Goto(s, p, User), p);
  }

  // ----- Whole runs -----

  lemma StepKeeps(s: State, ev: Event)
    requires Inv(s) && Enabled(s, ev)
    ensures Inv(Step(s, ev))
  {
    hide Inv, Step, Enabled;
    match ev
    case Fork(p, np) => KeepFork(s, p, np);
    case ForkFails(p, np) => KeepForkFails(s, p, np);
    case LinkChild(p) => KeepLinkChild(s, p);
    case RunChild(p) => KeepRunChild(s, p);
    case Exit(p) => KeepExit(s, p);
    case ExitAcquire(p) => KeepExitAcquire(s, p);
    case ReparentNext(p) => KeepReparentNext(s, p);
    case WakeInitNext(p) => KeepWakeInitNext(s, p);
    case WakeParentNext(p) => KeepWakeParentNext(s, p);
    case ExitTakeLock(p) => KeepExitTakeLock(s, p);
    case BecomeZombie(p) => KeepBecomeZombie(s, p);
    case ExitDropLock(p) => KeepExitDropLock(s, p);
    case ExitLeave(p) => KeepExitLeave(s, p);
    case Wait(p) => KeepWait(s, p);
    case WaitAcquire(p) => KeepWaitAcquire(s, p);
    case ScanNext(p, copied) => KeepScanNext(s, p, copied);
    case TestKilled(p) => KeepTestKilled(s, p);
    case SleepTakeLock(p) => KeepSleepTakeLock(s, p);
    case SleepDropLock(p) => KeepSleepDropLock(s, p);
    case SetSleeping(p) => KeepSetSleeping(s, p);
    case SleepLeave(p) => KeepSleepLeave(s, p);
    case Resume(p) => KeepResume(s, p);
    case Schedule(p) => KeepSchedule(s, p);
    case Preempt(p) => KeepPreempt(s, p);
    case Kill(p, pid) => KeepKill(s, p, pid);
    case SleepElsewhere(p) => KeepSleepElsewhere(s, p);
    case WakeElsewhere(p) => KeepWakeElsewhere(s, p);
  }

  /** Pids in use and pids handed to wait are all different. */
  ghost predicate PidsOk(s: State) {
    && (forall i, j :: 0 <= i < j < |s.procs| && s.procs[i].state != Unused && s.procs[j].state != Unused ==>
         s.procs[i].pid != s.procs[j].pid)
    && (forall i, k :: 0 <= i < |s.procs| && 0 <= k < |s.reaped| && s.procs[i].state != Unused ==>
         s.procs[i].pid != s.reaped[k])
    && (forall k, m :: 0 <= k < m < |s.reaped| ==> s.reaped[k] != s.reaped[m])
    && (forall k :: 0 <= k < |s.reaped| ==> s.reaped[k] < s.nextpid)
    && (forall i :: 0 <= i < |s.procs| && s.procs[i].state != Unused ==> s.procs[i].pid < s.nextpid)
  }

  ghost predicate SamePids(s: State, r: State) {
    && |r.procs| == |s.procs| && r.nextpid == s.nextpid && r.reaped == s.reaped
    && forall i :: 0 <= i < |s.procs| ==>
         r.procs[i].pid == s.procs[i].pid && (r.procs[i].state == Unused <==> s.procs[i].state == Unused)
  }

  predicate Reaps(s: State, ev: Event)
    requires Enabled(s, ev)
  {
    && ev.ScanNext? && s.procs[ev.p].pc.i < |s.procs| && s.procs[s.procs[ev.p].pc.i].parent == Some(ev.p)
    && s.procs[s.procs[ev.p].pc.i].state == Zombie && ev.copied
  }

  predicate TouchesOther(ev: Event) {
    ev.LinkChild? || ev.RunChild? || ev.ReparentNext? || ev.WakeInitNext? || ev.WakeParentNext?
  }

  lemma OtherKeepsPids(s: State, ev: Event)
    requires Enabled(s, ev) && TouchesOther(ev) && (ev.RunChild? ==> s.procs[s.procs[ev.p].pc.np].state != Unused)
    ensures SamePids(s, Step(s, ev))
  {}

  lemma OwnKeepsPids(s: State, ev: Event)
    requires Enabled(s, ev) && !ev.Fork? && !ev.ForkFails? && !Reaps(s, ev) && !TouchesOther(ev)
    requires Shaped(s.procs[ev.p])
    ensures SamePids(s, Step(s, ev))
  {}

  lemma NewPid(s: State, np: nat, p: nat)
    requires PidsOk(s) && np < |s.procs| && p < |s.procs| && p != np && s.procs[np].state == Unused
    ensures PidsOk(Goto(Put(s, np, Allocated(s.procs[np], s.nextpid)), p, ForkLink(np)).(nextpid := s.nextpid + 1))
  {}

  lemma LostPid(s: State, np: nat)
    requires PidsOk(s) && np < |s.procs| && s.procs[np].state == Unused
    ensures PidsOk(Put(s, np, Freed()).(nextpid := s.nextpid + 1))
  {}

  lemma ReapedPid(s: State, i: nat, p: nat)
    requires PidsOk(s) && i < |s.procs| && p < |s.procs| && p != i && s.procs[i].state == Zombie
    ensures PidsOk(Goto(Put(s, i, Freed()), p, User).(waitLock := None, reaped := s.reaped + [s.procs[i].pid]))
  {}

  lemma SamePidsOk(s: State, r: State)
    requires PidsOk(s) && SamePids(s, r)
    ensures PidsOk(r)
  {}

  lemma PidsKept(s: State, ev: Event)
    requires Inv(s) && PidsOk(s) && Enabled(s, ev)
    ensures PidsOk(Step(s, ev))
  {
    hide Inv, PidsOk;
    Known(s, ev.p);
    if ev.Fork? {
      NewPid(s, ev.np, ev.p);
    } else if ev.ForkFails? {
      LostPid(s, ev.np);
    } else if Reaps(s, ev) {
      ReapedPid(s, s.procs[ev.p].pc.i, ev.p);
    } else if TouchesOther(ev) {
      OtherKeepsPids(s, ev);
      SamePidsOk(s, Step(s, ev));
    } else {
      OwnKeepsPids(s, ev);
      SamePidsOk(s, Step(s, ev));
    }
  }

  /** A run: every event is enabled where it happens. */
  ghost predicate Runs(s: State, evs: seq<Event>)
    decreases |evs|
  {
    evs == [] || (Enabled(s, evs[0]) && Runs(Step(s, evs[0]), evs[1..]))
  }

  ghost function After(s: State, evs: seq<Event>): (r: State)
    requires Runs(s, evs)
    decreases |evs|
  {
    if evs == [] then s else After(Step(s, evs[0]), evs[1..])
  }

  /** The table after userinit: init alone, in slot `i` with pid 1. */
  function Boot(n: nat, i: nat): (s: State)
    requires i < n
  {
    State(seq(n, _ => Freed())[i := Proc(Runnable, None, 1, NoChan, false, false, User)], None, 2, i, [])
  }

  lemma BootOk(n: nat, i: nat)
    requires i < n
    ensures Inv(Boot(n, i)) && PidsOk(Boot(n, i)) && KidsOk(Boot(n, i))
  {
    var s := Boot(n, i);
    assert forall k :: 0 <= k < n && k != i ==> s.procs[k] == Freed();
  }

  lemma {:induction false} EveryRun(s: State, evs: seq<Event>)
    requires Inv(s) && PidsOk(s) && Runs(s, evs)
    ensures Inv(After(s, evs)) && PidsOk(After(s, evs))
    decreases |evs|
  {
    hide Inv, PidsOk, Enabled, Step;
    if evs != [] {
      StepKeeps(s, evs[0]);
      PidsKept(s, evs[0]);
      EveryRun(Step(s, evs[0]), evs[1..]);
    }
  }

  // ----- What this means -----

  /** No wakeup is lost: whenever wait_lock is free, nobody sleeps on their own
      channel, which is what wait does, while a child of theirs is a zombie. */
  lemma NoLostWakeup(s: State, q: nat, c: nat)
    requires Inv(s) && s.waitLock == None && q < |s.procs| && c < |s.procs|
    requires s.procs[q].state == Sleeping && s.procs[q].chan == OnSelf && s.procs[c].parent == Some(q)
    ensures s.procs[c].state != Zombie
  {
    hide ForksApart;
    assert ChildOk(s, c) && ProcOk(s, q);
  }

  /** A parent is a live process, never a zombie or a free slot. */
  lemma ParentsLive(s: State, c: nat)
    requires Inv(s) && c < |s.procs| && s.procs[c].parent.Some?
    ensures
      var q := s.procs[c].parent.value;
      q < |s.procs| && q != c && s.procs[q].state != Zombie && s.procs[q].state != Unused
  {
    hide ProcOk, ForksApart;
    assert ChildOk(s, c);
  }

  /** wait frees a process only after it has left its kernel stack for good. */
  lemma ReapedIsDone(s: State, ev: Event)
    requires Inv(s) && Enabled(s, ev) && Reaps(s, ev)
    ensures s.procs[s.procs[ev.p].pc.i].pc == Dead
  {
    hide ChildOk, ForksApart;
    assert ProcOk(s, s.procs[ev.p].pc.i);
  }

  /** wait reports that there are no children only when there are none. */
  lemma NoChildrenMeansNone(s: State, p: nat, c: nat)
    requires Inv(s) && p < |s.procs| && s.procs[p].pc == Scan(|s.procs|, false) && c < |s.procs|
    ensures s.procs[c].parent != Some(p)
  {
    hide ProcOk, ForksApart;
    if s.procs[c].parent.Some? {
      assert ChildOk(s, c);
    }
  }

  // ----- When wait returns and when it sleeps -----

  predicate InWait(pc: Pc) {
    || pc.WaitStart? || pc.Scan? || pc.CheckKilled? || pc.SleepLock? || pc.SleepRelease? || pc.SleepMark?
    || pc.SleepSwitch? || pc.Asleep? || pc.Woken?
  }

  ghost predicate HasChild(s: State, p: nat) {
    exists c :: 0 <= c < |s.procs| && s.procs[c].parent == Some(p)
  }

  /** A scan that has met a child, or ended with one. */
  predicate SawKids(pc: Pc) {
    (pc.Scan? && pc.kids) || pc.CheckKilled?
  }

  /** Such a child is still there: it needs wait_lock to go. */
  ghost predicate KidsOk(s: State) {
    forall p :: 0 <= p < |s.procs| && SawKids(s.procs[p].pc) ==> HasChild(s, p)
  }

  lemma KidsStep(s: State, ev: Event)
    requires Inv(s) && KidsOk(s) && Enabled(s, ev)
    ensures KidsOk(Step(s, ev))
  {
    hide ChildOk, ForksApart, Excused;
    var r := Step(s, ev);
    forall p | 0 <= p < |r.procs| && SawKids(r.procs[p].pc)
      ensures HasChild(r, p)
    {
      KidStays(s, ev, p);
    }
  }

  lemma KidStays(s: State, ev: Event, p: nat)
    requires Inv(s) && KidsOk(s) && Enabled(s, ev) && p < |s.procs| && SawKids(Step(s, ev).procs[p].pc)
    ensures HasChild(Step(s, ev), p)
  {
    hide Inv, ProcOk, ChildOk, Step, Enabled;
    if ev.p != p {
      StillSaw(s, ev, p);
      var c :| 0 <= c < |s.procs| && s.procs[c].parent == Some(p);
      ParentStays(s, ev, c, p);
    } else {
      OwnScan(s, ev, p);
    }
  }

  /** Nobody else moves a process along; but its parent may free it. */
  lemma OthersPc(s: State, ev: Event, p: nat)
    requires Enabled(s, ev) && p < |s.procs| && ev.p != p
    ensures Step(s, ev).procs[p].pc == s.procs[p].pc || s.procs[p].state == Zombie
      || (ev.ForkFails? && ev.np == p && s.procs[p].state == Unused)
  {
    hide CanWake, At;
  }

  lemma StillSaw(s: State, ev: Event, p: nat)
    requires Enabled(s, ev) && p < |s.procs| && ev.p != p && SawKids(Step(s, ev).procs[p].pc)
    ensures SawKids(s.procs[p].pc)
  {
    hide CanWake, At;
  }

  /** Who changes the parent of a process. */
  lemma WhoseChild(s: State, ev: Event, c: nat)
    requires Enabled(s, ev) && c < |s.procs|
    ensures
      || Step(s, ev).procs[c].parent == s.procs[c].parent || s.procs[c].parent == Some(ev.p)
      || (ev.LinkChild? && s.procs[ev.p].pc.np == c) || (ev.ForkFails? && ev.np == c)
  {
    hide CanWake, At;
  }

  /** Only a process itself makes a child of its own not its child. */
  lemma ParentStays(s: State, ev: Event, c: nat, p: nat)
    requires Inv(s) && Enabled(s, ev) && p < |s.procs| && c < |s.procs| && ev.p != p && s.procs[c].parent == Some(p)
    ensures Step(s, ev).procs[c].parent == Some(p)
  {
    hide ForksApart, MayHave, Excused, CanWake, Sleepy, Shaped, Step;
    WhoseChild(s, ev, c);
    assert ChildOk(s, c) && ProcOk(s, ev.p);
  }

  lemma OwnScan(s: State, ev: Event, p: nat)
    requires KidsOk(s) && Enabled(s, ev) && p < |s.procs| && ev.p == p && SawKids(Step(s, ev).procs[p].pc)
    ensures HasChild(Step(s, ev), p)
  {
    hide Step, Enabled;
    if SawKids(s.procs[p].pc) {
      var c :| 0 <= c < |s.procs| && s.procs[c].parent == Some(p);
      StillKid(s, ev, c);
    } else {
      SeenKid(s, ev, p);
    }
  }

  lemma StillKid(s: State, ev: Event, c: nat)
    requires Enabled(s, ev) && c < |s.procs| && s.procs[c].parent == Some(ev.p)
    requires SawKids(s.procs[ev.p].pc) && SawKids(Step(s, ev).procs[ev.p].pc)
    ensures Step(s, ev).procs[c].parent == Some(ev.p)
  {
    hide CanWake;
  }

  lemma SeenKid(s: State, ev: Event, p: nat)
    requires Enabled(s, ev) && p < |s.procs| && ev.p == p
    requires !SawKids(s.procs[p].pc) && SawKids(Step(s, ev).procs[p].pc)
    ensures HasChild(Step(s, ev), p)
  {
    hide CanWake;
    assert ev.ScanNext?;
    assert Step(s, ev).procs[s.procs[p].pc.i].parent == Some(p);
  }

  lemma {:induction false} KidsEveryRun(s: State, evs: seq<Event>)
    requires Inv(s) && KidsOk(s) && Runs(s, evs)
    ensures KidsOk(After(s, evs))
    decreases |evs|
  {
    hide Inv, KidsOk, Enabled, Step;
    if evs != [] {
      StepKeeps(s, evs[0]);
      KidsStep(s, evs[0]);
      KidsEveryRun(Step(s, evs[0]), evs[1..]);
    }
  }

  /** wait returns only with the pid of a zombie child, which is gone then, or because
      there is no child, or because the caller is killed, or because the status of a
      zombie child could not be copied out. */
  lemma WaitReturns(s: State, ev: Event, p: nat)
    requires Inv(s) && Enabled(s, ev) && p < |s.procs| && InWait(s.procs[p].pc) && Step(s, ev).procs[p].pc == User
    ensures ev.p == p
    ensures
      var r := Step(s, ev);
      || (exists c ::
           && 0 <= c < |s.procs| && s.procs[c].parent == Some(p) && s.procs[c].state == Zombie
           && r.procs[c] == Freed() && r.reaped == s.reaped + [s.procs[c].pid])
      || (r.reaped == s.reaped && !HasChild(s, p))
      || (r.reaped == s.reaped && s.procs[p].killed)
      || (r.reaped == s.reaped && ev == ScanNext(p, false) &&
           exists c :: 0 <= c < |s.procs| && s.procs[c].parent == Some(p) && s.procs[c].state == Zombie)
  {
    hide ForksApart, Excused;
    var r := Step(s, ev);
    Known(s, p);
    Known(s, ev.p);
    assert ev.p == p by {
      if ev.p != p {
        OthersLeaveIt(s, ev, p);
      }
    }
    if ev.ScanNext? {
      var i := s.procs[p].pc.i;
      if i >= |s.procs| {
        forall c | 0 <= c < |s.procs|
          ensures s.procs[c].parent != Some(p)
        {
          assert s.procs[c].parent.Some? ==> ChildOk(s, c);
        }
      } else {
        assert s.procs[i].parent == Some(p) && s.procs[i].state == Zombie;
      }
    }
  }

  /** Nobody else moves a process along in wait. */
  lemma OthersLeaveIt(s: State, ev: Event, p: nat)
    requires Inv(s) && Enabled(s, ev) && p < |s.procs| && ev.p != p && InWait(s.procs[p].pc)
    ensures Step(s, ev).procs[p].pc == s.procs[p].pc
  {
    hide ForksApart, Excused, ChildOk, CanWake, Sleepy, Step, Enabled;
    OthersPc(s, ev, p);
    assert ProcOk(s, p);
  }

  /** wait sleeps only if the caller is not killed and has a child. */
  lemma WaitSleeps(s: State, ev: Event, p: nat)
    requires Inv(s) && KidsOk(s) && Enabled(s, ev) && p < |s.procs|
    requires Step(s, ev).procs[p].pc == SleepLock != s.procs[p].pc
    ensures ev == TestKilled(p) && !s.procs[p].killed && HasChild(s, p)
  {
    hide Inv, HasChild, CanWake;
    assert s.procs[p].pc == CheckKilled;
    assert SawKids(s.procs[p].pc);
  }

  /** kill marks its target and ends its sleep, whatever it sleeps on; nobody else is
      touched. */
  lemma KillWakes(s: State, p: nat, pid: nat)
    requires Enabled(s, Kill(p, pid))
    ensures
      var r := Step(s, Kill(p, pid));
      && r.procs[p].killed && r.procs[p].state != Sleeping && r.procs[p].pc == s.procs[p].pc
      && (s.procs[p].state == Sleeping ==> r.procs[p].state == Runnable)
      && forall q :: 0 <= q < |s.procs| && q != p ==> r.procs[q] == s.procs[q]
  {}

  /** The end of fork: a new child of the caller that can run. */
  lemma ForkStarts(s: State, p: nat)
    requires Inv(s) && Enabled(s, RunChild(p))
    ensures
      var r, np := Step(s, RunChild(p)), s.procs[p].pc.np;
      && np != p && r.procs[np].state == Runnable && r.procs[np].parent == Some(p) && r.procs[np].pc == User
      && r.procs[p].pc == User && r.procs[np].pid == s.procs[np].pid
  {
    hide ForksApart, ChildOk;
    assert ProcOk(s, p) && ProcOk(s, s.procs[p].pc.np);
  }

  /** Whether a free slot is marked as killed: only a kill of it sets the mark, only a
      fork that fails there clears it, and a fork that succeeds keeps it. */
  lemma MarkOfFreeSlot(s: State, ev: Event, c: nat)
    requires Inv(s) && Enabled(s, ev) && c < |s.procs| && s.procs[c].state == Unused
    ensures Step(s, ev).procs[c].killed <==>
      ev == Kill(c, s.procs[c].pid) || (s.procs[c].killed && !(ev.ForkFails? && ev.np == c))
  {
    hide ChildOk, ForksApart;
    assert ProcOk(s, c) && ProcOk(s, ev.p);
  }

  /** So kill(0), which finds a free slot, kills the next process that gets it. */
  lemma BornKilled(n: nat, i: nat, c: nat)
    requires i < n && c < n && c != i
    ensures
      var evs := [Schedule(i), Kill(c, 0), Fork(i, c)];
      && Runs(Boot(n, i), evs)
      && var r := After(Boot(n, i), evs);
         c < |r.procs| && r.procs[c].killed && r.procs[c].state == Used && r.procs[c].pid == 2
  {
    var s0 := Boot(n, i);
    RunOfThree(s0, Schedule(i), Kill(c, 0), Fork(i, c));
  }

  lemma RunOfThree(s: State, a: Event, b: Event, c: Event)
    requires Enabled(s, a) && Enabled(Step(s, a), b) && Enabled(Step(Step(s, a), b), c)
    ensures Runs(s, [a, b, c]) && After(s, [a, b, c]) == Step(Step(Step(s, a), b), c)
  {
    hide Step, Enabled;
    var s1, s2, s3 := Step(s, a), Step(Step(s, a), b), Step(Step(Step(s, a), b), c);
    assert [c][1..] == [] && [b, c][1..] == [c] && [a, b, c][1..] == [b, c];
    assert Runs(s3, []) && After(s3, []) == s3;
    assert Runs(s2, [c]) && After(s2, [c]) == s3;
    assert Runs(s1, [b, c]) && After(s1, [b, c]) == s3;
  }

  /** A process asleep on something else sleeps on until its own wakeup or a kill: no
      wakeup of wait or exit is for it. */
  lemma SleepsOn(s: State, ev: Event, q: nat)
    requires Inv(s) && Enabled(s, ev)
    requires q < |s.procs| && s.procs[q].state == Sleeping && s.procs[q].chan == Elsewhere && s.procs[q].pc == User
    ensures
      var x := Step(s, ev).procs[q];
      && x.chan == Elsewhere && x.pc == User
      && x.state == if (ev.WakeElsewhere? || ev.Kill?) && ev.p == q then Runnable else Sleeping
  {
    if ev.p != q {
      if ev.RunChild? {
        ForkedIsUsed(s, ev.p);
      }
      SleepsOnOthers(s, ev, q);
    } else {
      hide Inv;
    }
  }

  lemma ForkedIsUsed(s: State, p: nat)
    requires Inv(s) && Enabled(s, RunChild(p))
    ensures s.procs[s.procs[p].pc.np].state == Used
  {
    hide ForksApart, ChildOk;
    assert ProcOk(s, p) && ProcOk(s, s.procs[p].pc.np);
  }

  lemma SleepsOnOthers(s: State, ev: Event, q: nat)
    requires Enabled(s, ev) && q < |s.procs| && s.procs[q].state == Sleeping && s.procs[q].chan == Elsewhere
    requires s.procs[q].pc == User && ev.p != q && (ev.RunChild? ==> s.procs[ev.p].pc.np != q)
    ensures
      var x := Step(s, ev).procs[q];
      x.chan == Elsewhere && x.pc == User && x.state == Sleeping
  {
    if !TouchesOther(ev) {
      LeavesOthers(s, ev, q);
      hide Step;
    }
  }

  /** A process asleep in wait is woken by a kill, by a child of its own that exits, or, if
      it is init, by a process whose children it gets; by nothing else. */
  lemma WokenBy(s: State, ev: Event, q: nat)
    requires Enabled(s, ev) && q < |s.procs| && s.procs[q].pc == Asleep
    requires Inv(s) && s.procs[q].state == Sleeping
    ensures
      var x, y := s.procs[ev.p], Step(s, ev).procs[q];
      && y.pc == Asleep
      && (y.state == Runnable <==>
            || (ev.Kill? && ev.p == q) || (ev.WakeParentNext? && x.pc.j == q && x.parent == Some(q))
            || (ev.WakeInitNext? && x.pc.j == q && q == s.init))
      && (y.state == Runnable || y.state == Sleeping)
  {
    if ev.RunChild? {
      ForkedIsUsed(s, ev.p);
    }
    AsleepFacts(s, q);
    hide Inv;
    if ev.p == q {
      WokenBySelf(s, ev);
    } else {
      WokenByOther(s, ev, q);
    }
  }

  lemma AsleepFacts(s: State, q: nat)
    requires Inv(s) && q < |s.procs| && s.procs[q].pc == Asleep
    ensures s.procs[q].chan == OnSelf
  {
    hide ForksApart, ChildOk;
    assert ProcOk(s, q);
  }

  lemma WokenBySelf(s: State, ev: Event)
    requires Enabled(s, ev) && s.procs[ev.p].pc == Asleep && s.procs[ev.p].state == Sleeping
    requires s.procs[ev.p].chan == OnSelf
    ensures
      var y := Step(s, ev).procs[ev.p];
      ev.Kill? && y.pc == Asleep && y.state == Runnable
  {}

  lemma WokenByOther(s: State, ev: Event, q: nat)
    requires Enabled(s, ev) && q < |s.procs| && s.procs[q].pc == Asleep && s.procs[q].state == Sleeping
    requires s.procs[q].chan == OnSelf && ev.p != q && (ev.RunChild? ==> s.procs[ev.p].pc.np != q)
    ensures
      var x, y := s.procs[ev.p], Step(s, ev).procs[q];
      && y.pc == Asleep
      && y.state == if (ev.WakeParentNext? && x.pc.j == q && x.parent == Some(q))
           || (ev.WakeInitNext? && x.pc.j == q && q == s.init) then Runnable else Sleeping
  {
    if !TouchesOther(ev) {
      LeavesOthers(s, ev, q);
      hide Step;
    }
  }

  /** Only fork, wait and these events touch another process. */
  lemma LeavesOthers(s: State, ev: Event, q: nat)
    requires Enabled(s, ev) && !TouchesOther(ev) && ev.p != q && q < |s.procs|
    requires s.procs[q].state != Unused && s.procs[q].state != Zombie
    ensures Step(s, ev).procs[q] == s.procs[q]
  {}

  lemma RunMore(s: State, ev: Event, evs: seq<Event>)
    requires Enabled(s, ev) && Runs(Step(s, ev), evs)
    ensures Runs(s, [ev] + evs) && After(s, [ev] + evs) == After(Step(s, ev), evs)
  {
    hide Enabled, Step;
    assert ([ev] + evs)[1..] == evs;
  }

  /** A process that sleeps on something else, or yields, comes back to where it was. */
  lemma ComesBack(s: State, p: nat)
    requires At(s, p, User) && !s.procs[p].lock && s.waitLock != Some(p)
    ensures
      var asleep, away := [SleepElsewhere(p)] + ([WakeElsewhere(p)] + [Schedule(p)]), [Preempt(p)] + [Schedule(p)];
      && Runs(s, asleep) && After(s, asleep) == Put(s, p, s.procs[p].(chan := NoChan))
      && Runs(s, away) && After(s, away) == Put(s, p, s.procs[p].(chan := NoChan))
  {
    hide Enabled, Step, Runs, After;
    var a := Put(s, p, s.procs[p].(state := Sleeping, chan := Elsewhere));
    var b := Put(s, p, s.procs[p].(state := Runnable, chan := Elsewhere));
    var c := Put(s, p, s.procs[p].(state := Runnable));
    Slept(s, p);
    Wakened(a, p);
    assert Put(a, p, a.procs[p].(state := Runnable)) == b;
    PutTwice(s, p, b.procs[p], s.procs[p].(chan := NoChan));
    PutTwice(s, p, c.procs[p], s.procs[p].(chan := NoChan));
    Scheduled(b, p);
    Scheduled(c, p);
    RunMore(a, WakeElsewhere(p), [Schedule(p)]);
    RunMore(s, SleepElsewhere(p), [WakeElsewhere(p)] + [Schedule(p)]);
    RunMore(s, Preempt(p), [Schedule(p)]);
  }

  lemma PutTwice(s: State, p: nat, x: Proc, y: Proc)
    requires p < |s.procs|
    ensures Put(Put(s, p, x), p, y) == Put(s, p, y)
  {}

  lemma Slept(s: State, p: nat)
    requires At(s, p, User) && !s.procs[p].lock && s.waitLock != Some(p)
    ensures Enabled(s, SleepElsewhere(p)) && Enabled(s, Preempt(p))
    ensures Step(s, SleepElsewhere(p)) == Put(s, p, s.procs[p].(state := Sleeping, chan := Elsewhere))
    ensures Step(s, Preempt(p)) == Put(s, p, s.procs[p].(state := Runnable))
  {}

  lemma Wakened(s: State, p: nat)
    requires p < |s.procs| && !s.procs[p].lock && s.procs[p].state == Sleeping && s.procs[p].chan == Elsewhere
    ensures Enabled(s, WakeElsewhere(p))
    ensures Step(s, WakeElsewhere(p)) == Put(s, p, s.procs[p].(state := Runnable))
  {}

  lemma Scheduled(s: State, p: nat)
    requires p < |s.procs| && s.procs[p].state == Runnable && !s.procs[p].lock && s.procs[p].pc == User
    ensures Runs(s, [Schedule(p)])
    ensures After(s, [Schedule(p)]) == Put(s, p, s.procs[p].(state := Running, chan := NoChan))
  {
    var r := Step(s, Schedule(p));
    assert [Schedule(p)] == [Schedule(p)] + [];
    RunMore(s, Schedule(p), []);
  }

  // ----- Parents -----

  /** A process has the parent that forked it until that exits, which makes it init's, or
      until its parent reaps it. That changes only under wait_lock. */
  lemma ParentChanges(s: State, ev: Event, c: nat)
    requires Inv(s) && Enabled(s, ev) && c < |s.procs|
    ensures NextParent(s, ev, c)
    ensures Step(s, ev).procs[c].parent != s.procs[c].parent ==>
      if ev.LinkChild? then s.waitLock == None else s.waitLock == Some(ev.p)
  {
    if s.procs[c].parent.Some? {
      ChildInUse(s, c);
    }
    if ev.LinkChild? {
      NotYetLinked(s, ev.p);
    }
    hide Inv, NextParent, Step, Enabled;
    if c == ev.p {
      ParentOfSelf(s, ev);
    } else {
      ParentOfOther(s, ev, c);
    }
    ChangesUnderLock(s, ev, c);
  }

  lemma ChangesUnderLock(s: State, ev: Event, c: nat)
    requires Inv(s) && Enabled(s, ev) && c < |s.procs| && NextParent(s, ev, c)
    ensures Step(s, ev).procs[c].parent != s.procs[c].parent ==>
      if ev.LinkChild? then s.waitLock == None else s.waitLock == Some(ev.p)
  {
    hide ChildOk, ForksApart, Step;
    assert ProcOk(s, ev.p);
  }

  predicate NextParent(s: State, ev: Event, c: nat)
    requires Enabled(s, ev) && c < |s.procs|
  {
    var x, y := s.procs[c], Step(s, ev).procs[c];
    match x.parent
    case None => y.parent == None || (ev.LinkChild? && s.procs[ev.p].pc.np == c && y.parent == Some(ev.p))
    case Some(q) =>
      || y.parent == Some(q) || (ev == ReparentNext(q) && y == x.(parent := Some(s.init)))
      || (ev == ScanNext(q, true) && x.state == Zombie && y == Freed() && Step(s, ev).reaped == s.reaped + [x.pid])
  }

  lemma ParentOfSelf(s: State, ev: Event)
    requires Enabled(s, ev) && s.procs[ev.p].parent != Some(ev.p)
    requires ev.LinkChild? ==> s.procs[ev.p].pc.np != ev.p
    ensures NextParent(s, ev, ev.p)
  {
    var x, y := s.procs[ev.p], Step(s, ev).procs[ev.p];
    assert y.parent == x.parent;
  }

  lemma ParentOfOther(s: State, ev: Event, c: nat)
    requires Enabled(s, ev) && c < |s.procs| && c != ev.p && (s.procs[c].parent.Some? ==> s.procs[c].state != Unused)
    requires ev.LinkChild? ==> s.procs[s.procs[ev.p].pc.np].parent == None
    ensures NextParent(s, ev, c)
  {}

  lemma ChildInUse(s: State, c: nat)
    requires Inv(s) && c < |s.procs| && s.procs[c].parent.Some?
    ensures s.procs[c].state != Unused && s.procs[c].parent != Some(c)
  {
    hide ProcOk, ForksApart;
    assert ChildOk(s, c);
  }

  lemma NotYetLinked(s: State, p: nat)
    requires Inv(s) && Enabled(s, LinkChild(p))
    ensures s.procs[s.procs[p].pc.np].parent == None && s.procs[p].pc.np != p
  {
    hide ForksApart, ChildOk;
    assert ProcOk(s, p);
  }

  // ----- Nobody is stuck -----

  /** The next step of a process in the middle of fork, exit or wait. */
  function Own(s: State, p: nat): (ev: Event)
    requires p < |s.procs|
  {
    match s.procs[p].pc
    case ForkLink(_) => LinkChild(p)
    case ForkRun(_) => RunChild(p)
    case ExitStart => ExitAcquire(p)
    case Reparent(_) => ReparentNext(p)
    case WakeInit(_, _) => WakeInitNext(p)
    case WakeParent(_) => WakeParentNext(p)
    case ExitLock => ExitTakeLock(p)
    case ExitZombie => BecomeZombie(p)
    case ExitRelease => ExitDropLock(p)
    case ExitSwitch => ExitLeave(p)
    case WaitStart => WaitAcquire(p)
    case Scan(_, _) => ScanNext(p, true)
    case CheckKilled => TestKilled(p)
    case SleepLock => SleepTakeLock(p)
    case SleepRelease => SleepDropLock(p)
    case SleepMark => SetSleeping(p)
    case SleepSwitch => SleepLeave(p)
    case Woken => Resume(p)
    case _ => Schedule(p)
  }

  predicate CanGo(s: State, p: nat) {
    p < |s.procs| && (Enabled(s, Own(s, p)) || Enabled(s, Schedule(p)))
  }

  lemma LockedCanGo(s: State, j: nat)
    requires Inv(s) && j < |s.procs| && s.procs[j].lock
    ensures CanGo(s, j)
  {
    hide ChildOk, ForksApart;
    assert ProcOk(s, j);
  }

  lemma HolderCanGo(s: State, q: nat)
    requires Inv(s) && s.waitLock == Some(q) && forall j :: 0 <= j < |s.procs| ==> !s.procs[j].lock
    ensures CanGo(s, q)
  {
    hide ChildOk, ForksApart;
    assert ProcOk(s, q);
  }

  lemma FreeCanGo(s: State, p: nat)
    requires Inv(s) && s.waitLock == None && forall j :: 0 <= j < |s.procs| ==> !s.procs[j].lock
    requires p < |s.procs| && !s.procs[p].pc.User? && !s.procs[p].pc.Dead? && !s.procs[p].pc.Asleep?
    ensures CanGo(s, p)
  {
    hide ChildOk, ForksApart;
    assert ProcOk(s, p);
  }

  /** No deadlock: a process in the middle of fork, exit or wait can go on, or else the
      holder of wait_lock can, or somebody who holds their own p->lock. */
  lemma NeverStuck(s: State, p: nat)
    requires Inv(s) && p < |s.procs|
    requires !s.procs[p].pc.User? && !s.procs[p].pc.Dead? && !s.procs[p].pc.Asleep?
    ensures
      || CanGo(s, p) || (s.waitLock.Some? && CanGo(s, s.waitLock.value))
      || exists j :: 0 <= j < |s.procs| && s.procs[j].lock && CanGo(s, j)
  {
    hide CanGo, Own, Enabled, Inv;
    if j :| 0 <= j < |s.procs| && s.procs[j].lock {
      LockedCanGo(s, j);
    } else if s.waitLock.Some? {
      HolderCanGo(s, s.waitLock.value);
    } else {
      FreeCanGo(s, p);
    }
  }

  /** What a running process may do: wait, exit unless it is init, and fork if a slot is
      free. kill reaches every process whose lock is free. */
  lemma UserMay(s: State, p: nat, np: nat)
    requires At(s, p, User) && np < |s.procs|
    ensures Enabled(s, Wait(p)) && (Enabled(s, Exit(p)) <==> p != s.init)
    ensures Enabled(s, Fork(p, np)) <==> s.procs[np].state == Unused && !s.procs[np].lock
    ensures Enabled(s, ForkFails(p, np)) <==> Enabled(s, Fork(p, np))
    ensures Enabled(s, Kill(np, s.procs[np].pid)) <==> !s.procs[np].lock
  {}
}
