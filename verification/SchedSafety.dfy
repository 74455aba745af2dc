/**
 * What every step of the scheduler keeps: who holds proc_lock, where interrupts are off, which CPU
 * is on which kernel stack.
 */
module SchedSafety {
  import opened Sched

  /** Between the store of lk->cpu and its clearing. */
  predicate InSection(pc: Pc) {
    || pc.SchedScan? || pc.SchedSet? || pc.SchedSwtch? || pc.SchedBack? || Leaving(pc) || Scanning(pc)
    || (pc.Rel? && !pc.stage.Unlock? && !pc.stage.Pop?)
  }

  /** Between the exchange that took the lock and the store that frees it. */
  predicate Holds(pc: Pc) {
    (pc.Acq? && pc.at.Own?) || InSection(pc) || (pc.Rel? && pc.stage.Unlock?)
  }

  /** Between pushcli and popcli. */
  predicate Pushed(pc: Pc) {
    (pc.Acq? && !pc.at.Push?) || Holds(pc) || pc.Rel?
  }

  predicate BackOk(p: Slot, to: Back) {
    to.ToWait? ==> to.parent == p
  }

  predicate WantOk(me: Option<Slot>, w: Want) {
    match w
    case ForSched => me.None?
    case ForYield(p, to) => me == Some(p) && BackOk(p, to)
    case ForExit(p, _) => me == Some(p)
    case ForWait(p) => me == Some(p)
    case ForAlloc(maker) => me == maker
    case ForReady(maker, _) => me == maker
  }

  predicate DoneOk(me: Option<Slot>, d: Done) {
    match d
    case SchedDone => me.None?
    case YieldDone(to) => me.Some? && BackOk(me.value, to)
    case ForkRet => me.Some?
    case WaitNone(p) => me == Some(p)
    case WaitFound => me.Some?
    case AllocGot(maker, _) => me == maker
    case AllocNone(maker) => me == maker
    case ReadyDone(maker) => me == maker
  }

  /** A program point that the thread of process me, or a scheduler thread, can be at. */
  predicate PcOk(me: Option<Slot>, pc: Pc) {
    match pc
    case Boot | SchedLoop | SchedScan(_) | SchedSet(_) | SchedSwtch(_) | SchedBack(_) => me.None?
    case User | Syscall | Kernel | IntReturn => me.Some?
    case YieldStart(to) => me.Some? && BackOk(me.value, to)
    case Acq(_, w) => WantOk(me, w)
    case YieldMark(p, to) => me == Some(p) && BackOk(p, to)
    case YieldClear(p, to) => me == Some(p) && BackOk(p, to)
    case YieldSwtch(p, to) => me == Some(p) && BackOk(p, to)
    case ExitMark(p, _) => me == Some(p)
    case ExitClear(p) => me == Some(p)
    case ExitSwtch(p) => me == Some(p)
    case WaitScan(p, _) => me == Some(p)
    case AllocScan(maker, _) => me == maker
    case ReadyMark(maker, _) => me == maker
    case BuildStack(maker, _) => me == maker
    case Build(maker, _) => me == maker
    case Rel(_, d) => DoneOk(me, d)
    case Halt => false
  }

  /** Where the timer may have interrupted process p. */
  predicate FrameOk(p: Slot, pc: Pc) {
    || pc.User? || pc.Kernel? || pc.IntReturn? || (pc.YieldStart? && BackOk(p, pc.to))
    || pc == Acq(Push, ForWait(p))
  }

  predicate FramesOk(p: Slot, frames: seq<Pc>) {
    forall i :: 0 <= i < |frames| ==> FrameOk(p, frames[i])
  }

  /** A process stays here with interrupts off, so that it is never suspended here. */
  predicate Quiet(pc: Pc) {
    || pc.Syscall? || pc.BuildStack? || pc.Build?
    || (pc.Acq? && pc.at.Push? && (pc.w.ForExit? || pc.w.ForAlloc? || pc.w.ForReady?))
  }

  predicate CalmWant(w: Want) {
    w.ForAlloc? || w.ForReady?
  }

  /** Here the interrupt flag that popcli will restore is off. */
  predicate Calm(pc: Pc) {
    match pc
    case Acq(at, w) => !at.Push? && CalmWant(w)
    case AllocScan(_, _) => true
    case Rel(_, d) => d.AllocGot?
    case _ => false
  }

  /** The process whose kernel stack the CPU is on or about to switch to. */
  function Uses(u: Cpu): Option<Slot> {
    if u.on.Some? then u.on
    else match u.pc
      case SchedSet(p) => Some(p)
      case SchedSwtch(p) => Some(p)
      case _ => None
  }

  function DoneSlot(d: Done): Option<Slot> {
    if d.AllocGot? then Some(d.slot) else None
  }

  function WantSlot(w: Want): Option<Slot> {
    if w.ForReady? then Some(w.slot) else None
  }

  /** The slot the CPU is filling in. */
  function Builds(pc: Pc): Option<Slot> {
    match pc
    case Rel(_, d) => DoneSlot(d)
    case BuildStack(_, p) => Some(p)
    case Build(_, p) => Some(p)
    case Acq(_, w) => WantSlot(w)
    case ReadyMark(_, p) => Some(p)
    case _ => None
  }

  /** The state of the process a CPU is on: still Running until yield or exit has marked it. */
  function UseState(pc: Pc): ProcState {
    if pc.YieldClear? || pc.YieldSwtch? then Runnable
    else if pc.ExitClear? || pc.ExitSwtch? then Zombie
    else Running
  }

  predicate LockView(lock: Lock, c: nat, u: Cpu) {
    (Holds(u.pc) <==> lock.taker == Some(c)) && (InSection(u.pc) <==> lock.cpu == Some(c))
  }

  predicate IntrView(u: Cpu) {
    && u.ncli == (if Pushed(u.pc) then 1 else 0) && (Pushed(u.pc) ==> !u.intr)
    && (u.on.Some? && Quiet(u.pc) ==> !u.intr) && (u.on.Some? && Calm(u.pc) ==> !u.intena)
  }

  predicate ThreadView(u: Cpu) {
    && PcOk(u.on, u.pc)
    && match u.on
       case None => u.frames == [] && u.proc == if u.pc.SchedSwtch? then Some(u.pc.target) else None
       case Some(p) =>
         && FramesOk(p, u.frames) && u.sched == SchedBack(p)
         && u.proc == if u.pc.YieldSwtch? || u.pc.ExitSwtch? then None else Some(p)
  }

  /** How far a creation is: 1 once there is a kernel stack, 2 once the process is complete. */
  function Progress(pc: Pc): nat {
    if pc.Acq? || pc.ReadyMark? then 2 else if pc.Build? then 1 else 0
  }

  /** What is filled in at each point of a creation. */
  predicate BuildOk(r: Proc, pc: Pc) {
    && r.state.Embryo?
    && (Progress(pc) >= 1 ==> r.kstack.Some?)
    && (Progress(pc) >= 2 ==> r.ctx == Rel(TestLocked, ForkRet) && r.frames == [User])
  }

  /** Where a suspended process goes on. */
  predicate Resumable(p: Slot, r: Proc) {
    && r.ctx.Rel? && r.ctx.stage.TestLocked? && (r.ctx.d.ForkRet? || r.ctx.d.YieldDone?) && DoneOk(Some(p), r.ctx.d)
    && FramesOk(p, r.frames)
  }

  predicate OwnerView(procs: Table, c: nat, u: Cpu) {
    && (Uses(u).Some? ==> var r := procs[Uses(u).value]; r.owner == Some(c) && r.state == UseState(u.pc))
    && (Builds(u.pc).Some? ==> var r := procs[Builds(u.pc).value]; r.owner == Some(c) && BuildOk(r, u.pc))
    && (u.pc.SchedSet? || u.pc.SchedSwtch? ==> Resumable(u.pc.target, procs[u.pc.target]))
  }

  predicate CpuView(s: State, c: nat)
    requires c < |s.cpus|
  {
    var u := s.cpus[c];
    LockView(s.lock, c, u) && IntrView(u) && ThreadView(u) && OwnerView(s.procs, c, u)
  }

  predicate SlotView(s: State, p: Slot) {
    var r := s.procs[p];
    && (r.owner.Some? ==>
          r.owner.value < |s.cpus|
            && (Uses(s.cpus[r.owner.value]) == Some(p) || Builds(s.cpus[r.owner.value].pc) == Some(p)))
    && (r.state.Running? || r.state.Embryo? ==> r.owner.Some?)
    && (r.state.Runnable? && r.owner.None? ==> Resumable(p, r))
    && (r.state.Runnable? || r.state.Running? || r.state.Zombie? ==> r.kstack.Some?)
    && (r.kstack.Some? ==> r.kstack.value in s.stacks)
  }

  /** No kernel stack belongs to two slots. */
  predicate StacksApart(procs: Table) {
    forall p: Slot, q: Slot :: p != q && procs[p].kstack.Some? ==> procs[p].kstack != procs[q].kstack
  }

  ghost predicate Inv(s: State) {
    && (s.lock.taker.Some? ==> s.lock.taker.value < |s.cpus|) && (s.lock.cpu.Some? ==> s.lock.cpu.value < |s.cpus|)
    && (forall c :: 0 <= c < |s.cpus| ==> CpuView(s, c))
    && (forall p: Slot :: SlotView(s, p))
    && StacksApart(s.procs)
  }

  predicate FreshCpu(c: nat, u: Cpu) {
    u == Cpu(if c == 0 then Boot else SchedLoop, [], None, None, SchedLoop, 0, false, false)
  }

  /** CPU 0 is in the boot code, the others enter the scheduler; no process exists. */
  ghost predicate Init(s: State) {
    && (forall c :: 0 <= c < |s.cpus| ==> FreshCpu(c, s.cpus[c]))
    && (forall p: Slot :: s.procs[p] == Proc(Unused, 0, 0, 0, None, Halt, [], None))
    && s.lock == Lock(None, None) && s.nextPid == 1 && s.log == []
  }

  lemma InitInv(s: State)
    requires Init(s)
    ensures Inv(s)
  {
    forall c | 0 <= c < |s.cpus| ensures CpuView(s, c) {
      assert FreshCpu(c, s.cpus[c]);
    }
  }

  /** The lock may change hands between c and nobody, not between others. */
  predicate LockMove(c: nat, a: Option<nat>, b: Option<nat>) {
    a == b || ((a.None? || a == Some(c)) && (b.None? || b == Some(c)))
  }

  /** A step of CPU c that touches no slot. */
  lemma LocalStep(s: State, c: nat, s': State)
    requires Inv(s) && c < |s.cpus| == |s'.cpus| && s' == s.(cpus := s.cpus[c := s'.cpus[c]], lock := s'.lock)
    requires LockMove(c, s.lock.taker, s'.lock.taker) && LockMove(c, s.lock.cpu, s'.lock.cpu)
    requires Uses(s'.cpus[c]) == Uses(s.cpus[c]) && Builds(s'.cpus[c].pc) == Builds(s.cpus[c].pc)
    requires CpuView(s', c)
    ensures Inv(s')
  {
    hide PcOk, IntrView, ThreadView, OwnerView, Uses, Builds, Holds, InSection, Resumable, StacksApart;
    forall d | 0 <= d < |s'.cpus| ensures CpuView(s', d) {
      if d != c {
        assert CpuView(s, d);
      }
    }
    forall p: Slot ensures SlotView(s', p) {
      assert SlotView(s, p);
    }
  }

  lemma TargetUsed(u: Cpu)
    requires ThreadView(u)
    ensures u.pc.SchedSet? || u.pc.SchedSwtch? ==> Uses(u) == Some(u.pc.target)
  {
  }

  /** A step of CPU c that changes slot p, which no other CPU owns. */
  lemma SlotStep(s: State, c: nat, p: Slot, s': State)
    requires Inv(s) && c < |s.cpus| && SlotShape(s, c, p, s')
    requires s.procs[p].owner.None? || s.procs[p].owner == Some(c)
    requires forall q: Slot :: q != p && s.procs[q].kstack.Some? ==>
               s.procs[q].kstack.value in s'.stacks && s.procs[q].kstack != s'.procs[p].kstack
    ensures Inv(s')
  {
    hide PcOk, IntrView, ThreadView, Builds, Holds, InSection, Resumable, BuildOk;
    forall d | 0 <= d < |s'.cpus| ensures CpuView(s', d) {
      assert CpuView(s, d);
      TargetUsed(s.cpus[d]);
    }
    forall q: Slot ensures SlotView(s', q) {
      assert SlotView(s, q);
    }
  }

  /** The step changes CPU c and slot p alone, and both are as they should be. */
  predicate SlotShape(s: State, c: nat, p: Slot, s': State)
    requires c < |s.cpus|
  {
    && |s'.cpus| == |s.cpus| && s'.cpus == s.cpus[c := s'.cpus[c]] && s'.procs == s.procs[p := s'.procs[p]]
    && s'.lock == s.lock
    && OwnedKept(s.cpus[c], s'.cpus[c], p) && CpuView(s', c) && SlotView(s', p)
  }

  /** What u owned apart from p, u' owns still. */
  predicate OwnedKept(u: Cpu, u': Cpu, p: Slot) {
    && (Uses(u).Some? && Uses(u) != Some(p) ==> Uses(u') == Uses(u))
    && (Builds(u.pc).Some? && Builds(u.pc) != Some(p) ==> Builds(u'.pc) == Builds(u.pc))
  }

  lemma AcquireInv(s: State, c: nat)
    requires Inv(s) && c < |s.cpus| && s.cpus[c].pc.Acq?
    ensures Inv(Acquire(s, c))
  {
    hide *;
    InvCpu(s, c);
    LockFree(s, c);
    AcquireView(s, c);
    LocalStep(s, c, Acquire(s, c));
  }

  lemma InvCpu(s: State, c: nat)
    requires Inv(s) && c < |s.cpus|
    ensures CpuView(s, c)
  {
  }

  lemma OwnerKept(procs: Table, c: nat, u: Cpu, u': Cpu)
    requires OwnerView(procs, c, u) && Uses(u') == Uses(u) && Builds(u'.pc) == Builds(u.pc)
             && UseState(u'.pc) == UseState(u.pc)
    requires Builds(u.pc).Some? ==> Progress(u'.pc) <= Progress(u.pc)
    requires !u'.pc.SchedSet? && !u'.pc.SchedSwtch?
    ensures OwnerView(procs, c, u')
  {
  }

  lemma MePoint(s: State, c: nat)
    requires c < |s.cpus| && ThreadView(s.cpus[c])
    ensures s.cpus[c].pc.Acq? ==> WantOk(s.cpus[c].on, s.cpus[c].pc.w)
    ensures s.cpus[c].pc.Rel? ==> DoneOk(s.cpus[c].on, s.cpus[c].pc.d)
  {
  }

  /** The first point of a critical section is one the caller may be at. */
  lemma CriticalOk(me: Option<Slot>, w: Want)
    requires WantOk(me, w)
    ensures var pc := Critical(w);
            && PcOk(me, pc) && InSection(pc) && !Quiet(pc) && Builds(pc) == WantSlot(w) && (Calm(pc) ==> CalmWant(w))
            && !pc.Acq? && !pc.Rel? && !pc.SchedSet? && !pc.SchedSwtch? && UseState(pc) == Running
            && !pc.YieldSwtch? && !pc.ExitSwtch? && Progress(pc) <= 2
  {
  }

  /** So is the point after a release, with interrupts off if it must be. */
  lemma AfterReleaseOk(me: Option<Slot>, d: Done)
    requires DoneOk(me, d)
    ensures var pc := AfterRelease(d);
            && PcOk(me, pc) && !Pushed(pc) && !Calm(pc) && (Quiet(pc) ==> d.AllocGot?) && Builds(pc) == DoneSlot(d)
            && !pc.Rel? && !pc.SchedSet? && !pc.SchedSwtch? && UseState(pc) == Running
            && !pc.YieldSwtch? && !pc.ExitSwtch? && (DoneSlot(d).Some? ==> Progress(pc) == 0)
  {
  }

  lemma AcquireView(s: State, c: nat)
    requires c < |s.cpus| && s.cpus[c].pc.Acq? && CpuView(s, c) && (s.lock.cpu.Some? ==> s.lock.cpu == s.lock.taker)
    ensures var s' := Acquire(s, c);
            && |s'.cpus| == |s.cpus| && s' == s.(cpus := s.cpus[c := s'.cpus[c]], lock := s'.lock)
            && LockMove(c, s.lock.taker, s'.lock.taker) && LockMove(c, s.lock.cpu, s'.lock.cpu)
            && Uses(s'.cpus[c]) == Uses(s.cpus[c]) && Builds(s'.cpus[c].pc) == Builds(s.cpus[c].pc)
            && CpuView(s', c)
  {
    AcquireLock(s, c);
    AcquireIntr(s, c);
    AcquireThread(s, c);
    assert !Acquire(s, c).cpus[c].pc.Halt?;
    AcquireOwner(s, c);
    hide Acquire, LockView, IntrView, ThreadView, OwnerView, Uses, Builds;
  }

  lemma AcquireLock(s: State, c: nat)
    requires c < |s.cpus| && s.cpus[c].pc.Acq? && LockView(s.lock, c, s.cpus[c]) && ThreadView(s.cpus[c])
             && (s.lock.cpu.Some? ==> s.lock.cpu == s.lock.taker)
    ensures var s' := Acquire(s, c);
            && |s'.cpus| == |s.cpus| && s' == s.(cpus := s.cpus[c := s'.cpus[c]], lock := s'.lock)
            && LockMove(c, s.lock.taker, s'.lock.taker) && LockMove(c, s.lock.cpu, s'.lock.cpu)
            && LockView(s'.lock, c, s'.cpus[c])
  {
    hide Critical, BackOk, WantOk, DoneOk, FrameOk, FramesOk;
    MePoint(s, c);
    if s.cpus[c].pc.at.Own? { CriticalOk(s.cpus[c].on, s.cpus[c].pc.w); }
    assert s.cpus[c := s.cpus[c]] == s.cpus;
  }

  lemma AcquireIntr(s: State, c: nat)
    requires c < |s.cpus| && s.cpus[c].pc.Acq? && LockView(s.lock, c, s.cpus[c]) && IntrView(s.cpus[c])
             && ThreadView(s.cpus[c]) && (s.lock.cpu.Some? ==> s.lock.cpu == s.lock.taker)
    ensures IntrView(Acquire(s, c).cpus[c])
  {
    hide Critical, BackOk, WantOk, DoneOk, FrameOk, FramesOk;
    MePoint(s, c);
    if s.cpus[c].pc.at.Own? { CriticalOk(s.cpus[c].on, s.cpus[c].pc.w); }
  }

  lemma AcquireThread(s: State, c: nat)
    requires c < |s.cpus| && s.cpus[c].pc.Acq? && LockView(s.lock, c, s.cpus[c]) && IntrView(s.cpus[c])
             && ThreadView(s.cpus[c]) && (s.lock.cpu.Some? ==> s.lock.cpu == s.lock.taker)
    ensures ThreadView(Acquire(s, c).cpus[c])
  {
    hide Critical, BackOk, WantOk, DoneOk, FrameOk, FramesOk, Calm, Quiet, UseState;
    MePoint(s, c);
    if s.cpus[c].pc.at.Own? { CriticalOk(s.cpus[c].on, s.cpus[c].pc.w); }
  }

  lemma AcquireOwner(s: State, c: nat)
    requires c < |s.cpus| && s.cpus[c].pc.Acq? && ThreadView(s.cpus[c]) && OwnerView(s.procs, c, s.cpus[c])
    requires !Acquire(s, c).cpus[c].pc.Halt?
    ensures var u' := Acquire(s, c).cpus[c];
            OwnerView(s.procs, c, u') && Uses(u') == Uses(s.cpus[c]) && Builds(u'.pc) == Builds(s.cpus[c].pc)
  {
    hide *;
    AcquireNext(s, c);
    var u, u' := s.cpus[c], Acquire(s, c).cpus[c];
    MePoint(s, c);
    AcquireKept(u.on, u.pc, u'.pc);
    UsesKept(u, u');
    OwnerKept(s.procs, c, u, u');
  }

  lemma UsesKept(u: Cpu, u': Cpu)
    requires u'.on == u.on && !u.pc.SchedSet? && !u.pc.SchedSwtch? && !u'.pc.SchedSet? && !u'.pc.SchedSwtch?
    ensures Uses(u') == Uses(u)
  {
  }

  lemma AcquireNext(s: State, c: nat)
    requires c < |s.cpus| && s.cpus[c].pc.Acq?
    ensures |Acquire(s, c).cpus| == |s.cpus|
    ensures var u, u' := s.cpus[c], Acquire(s, c).cpus[c];
            u'.on == u.on && (u'.pc.Halt? || (u'.pc.Acq? && u'.pc.w == u.pc.w) || u'.pc == Critical(u.pc.w))
  {
    hide Critical;
  }

  lemma AcquireKept(me: Option<Slot>, pc: Pc, pc': Pc)
    requires pc.Acq? && WantOk(me, pc.w) && ((pc'.Acq? && pc'.w == pc.w) || pc' == Critical(pc.w))
    ensures Builds(pc') == Builds(pc) && UseState(pc') == UseState(pc)
            && (Builds(pc).Some? ==> Progress(pc') <= Progress(pc))
    ensures !pc.SchedSet? && !pc.SchedSwtch? && !pc'.SchedSet? && !pc'.SchedSwtch?
  {
    CriticalOk(me, pc.w);
    hide Critical, WantOk;
  }

  lemma LockFree(s: State, c: nat)
    requires Inv(s) && c < |s.cpus|
    ensures s.lock.cpu.Some? ==> s.lock.cpu == s.lock.taker
  {
    if s.lock.cpu.Some? {
      assert CpuView(s, s.lock.cpu.value);
    }
  }

  lemma ReleaseInv(s: State, c: nat)
    requires Inv(s) && c < |s.cpus| && s.cpus[c].pc.Rel?
    ensures Inv(Release(s, c))
  {
    hide *;
    InvCpu(s, c);
    ReleaseView(s, c);
    LocalStep(s, c, Release(s, c));
  }

  lemma ReleaseView(s: State, c: nat)
    requires c < |s.cpus| && s.cpus[c].pc.Rel? && CpuView(s, c)
    ensures var s' := Release(s, c);
            && |s'.cpus| == |s.cpus| && s' == s.(cpus := s.cpus[c := s'.cpus[c]], lock := s'.lock)
            && LockMove(c, s.lock.taker, s'.lock.taker) && LockMove(c, s.lock.cpu, s'.lock.cpu)
            && Uses(s'.cpus[c]) == Uses(s.cpus[c]) && Builds(s'.cpus[c].pc) == Builds(s.cpus[c].pc)
            && CpuView(s', c)
  {
    ReleaseLock(s, c);
    ReleaseIntr(s, c);
    ReleaseThread(s, c);
    assert !Release(s, c).cpus[c].pc.Halt?;
    ReleaseOwner(s, c);
    hide Release, LockView, IntrView, ThreadView, OwnerView, Uses, Builds;
  }

  lemma ReleaseLock(s: State, c: nat)
    requires c < |s.cpus| && s.cpus[c].pc.Rel? && LockView(s.lock, c, s.cpus[c]) && ThreadView(s.cpus[c])
    ensures var s' := Release(s, c);
            && |s'.cpus| == |s.cpus| && s' == s.(cpus := s.cpus[c := s'.cpus[c]], lock := s'.lock)
            && LockMove(c, s.lock.taker, s'.lock.taker) && LockMove(c, s.lock.cpu, s'.lock.cpu)
            && LockView(s'.lock, c, s'.cpus[c])
  {
    hide AfterRelease, BackOk, WantOk, DoneOk, FrameOk, FramesOk;
    MePoint(s, c);
    if s.cpus[c].pc.stage.Pop? { AfterReleaseOk(s.cpus[c].on, s.cpus[c].pc.d); }
    assert s.cpus[c := s.cpus[c]] == s.cpus;
  }

  lemma ReleaseIntr(s: State, c: nat)
    requires c < |s.cpus| && s.cpus[c].pc.Rel? && LockView(s.lock, c, s.cpus[c]) && IntrView(s.cpus[c])
             && ThreadView(s.cpus[c])
    ensures IntrView(Release(s, c).cpus[c])
  {
    hide AfterRelease, BackOk, WantOk, DoneOk, FrameOk, FramesOk;
    MePoint(s, c);
    if s.cpus[c].pc.stage.Pop? { AfterReleaseOk(s.cpus[c].on, s.cpus[c].pc.d); }
  }

  lemma ReleaseThread(s: State, c: nat)
    requires c < |s.cpus| && s.cpus[c].pc.Rel? && LockView(s.lock, c, s.cpus[c]) && IntrView(s.cpus[c])
             && ThreadView(s.cpus[c])
    ensures ThreadView(Release(s, c).cpus[c])
  {
    hide AfterRelease, BackOk, WantOk, DoneOk, FrameOk, FramesOk, Calm, Quiet, UseState;
    MePoint(s, c);
    if s.cpus[c].pc.stage.Pop? { AfterReleaseOk(s.cpus[c].on, s.cpus[c].pc.d); }
  }

  lemma ReleaseOwner(s: State, c: nat)
    requires c < |s.cpus| && s.cpus[c].pc.Rel? && ThreadView(s.cpus[c]) && OwnerView(s.procs, c, s.cpus[c])
    requires !Release(s, c).cpus[c].pc.Halt?
    ensures var u' := Release(s, c).cpus[c];
            OwnerView(s.procs, c, u') && Uses(u') == Uses(s.cpus[c]) && Builds(u'.pc) == Builds(s.cpus[c].pc)
  {
    hide *;
    ReleaseNext(s, c);
    var u, u' := s.cpus[c], Release(s, c).cpus[c];
    MePoint(s, c);
    ReleaseKept(u.on, u.pc, u'.pc);
    UsesKept(u, u');
    OwnerKept(s.procs, c, u, u');
  }

  lemma ReleaseNext(s: State, c: nat)
    requires c < |s.cpus| && s.cpus[c].pc.Rel?
    ensures |Release(s, c).cpus| == |s.cpus|
    ensures var u, u' := s.cpus[c], Release(s, c).cpus[c];
            u'.on == u.on && (u'.pc.Halt? || (u'.pc.Rel? && u'.pc.d == u.pc.d) || u'.pc == AfterRelease(u.pc.d))
  {
    hide AfterRelease;
  }

  lemma ReleaseKept(me: Option<Slot>, pc: Pc, pc': Pc)
    requires pc.Rel? && DoneOk(me, pc.d) && ((pc'.Rel? && pc'.d == pc.d) || pc' == AfterRelease(pc.d))
    ensures Builds(pc') == Builds(pc) && UseState(pc') == UseState(pc)
            && (Builds(pc).Some? ==> Progress(pc') <= Progress(pc))
    ensures !pc.SchedSet? && !pc.SchedSwtch? && !pc'.SchedSet? && !pc'.SchedSwtch?
  {
    AfterReleaseOk(me, pc.d);
    hide AfterRelease, DoneOk;
  }

  /** While c is in its critical section, no other CPU is on, or filling in, a process in such a state. */
  lemma Unowned(s: State, c: nat, p: Slot)
    requires Inv(s) && c < |s.cpus| && (s.cpus[c].pc.SchedScan? || s.cpus[c].pc.WaitScan? || s.cpus[c].pc.AllocScan?)
    requires (s.procs[p].state.Runnable? || s.procs[p].state.Zombie? || s.procs[p].state.Unused?)
    ensures s.procs[p].owner.None?
  {
    hide PcOk, IntrView, Resumable, StacksApart;
    assert CpuView(s, c) && SlotView(s, p);
    forall d | 0 <= d < |s.cpus| ensures s.procs[p].owner != Some(d) {
      assert CpuView(s, d);
    }
  }

  lemma SlotParts(s: State, p: Slot)
    requires Inv(s)
    ensures SlotView(s, p) && StacksApart(s.procs)
  {
  }

  /** No other slot has the stack of slot p. */
  lemma OtherStacks(s: State, p: Slot)
    requires Inv(s)
    ensures forall q: Slot :: q != p && s.procs[q].kstack.Some? ==>
              s.procs[q].kstack.value in s.stacks && s.procs[q].kstack != s.procs[p].kstack
  {
    forall q: Slot | q != p && s.procs[q].kstack.Some?
      ensures s.procs[q].kstack.value in s.stacks && s.procs[q].kstack != s.procs[p].kstack
    {
      assert SlotView(s, q);
    }
  }

  lemma ScheduleInv(s: State, c: nat)
    requires Inv(s) && c < |s.cpus| && Scheduling(s.cpus[c].pc)
    ensures Inv(Schedule(s, c))
  {
    hide Inv, PcOk, FramesOk, LockView, Resumable, IntrView, OwnerView, CpuView, SlotView, StacksApart;
    var pc, s' := s.cpus[c].pc, Schedule(s, c);
    InvCpu(s, c);
    if pc.SchedScan? && pc.i < MAX_PROCS && s.procs[pc.i].state.Runnable? {
      ClaimInv(s, c, pc.i);
    } else {
      ScheduleView(s, c);
      LocalStep(s, c, s');
    }
  }

  lemma ScheduleView(s: State, c: nat)
    requires c < |s.cpus| && Scheduling(s.cpus[c].pc) && CpuView(s, c)
    requires var pc := s.cpus[c].pc; !(pc.SchedScan? && pc.i < MAX_PROCS && s.procs[pc.i].state.Runnable?)
    ensures var s' := Schedule(s, c);
            && |s'.cpus| == |s.cpus| && s' == s.(cpus := s.cpus[c := s'.cpus[c]])
            && Uses(s'.cpus[c]) == Uses(s.cpus[c]) && Builds(s'.cpus[c].pc) == Builds(s.cpus[c].pc)
            && CpuView(s', c)
  {
    hide FrameOk, BackOk, Calm;
    if s.cpus[c].pc.SchedSwtch? {
      SwitchView(s, c);
    } else {
      hide FramesOk, Resumable;
    }
  }

  /** Switching to a process: its context is one its thread can be at, with the lock held. */
  lemma SwitchView(s: State, c: nat)
    requires c < |s.cpus| && s.cpus[c].pc.SchedSwtch? && CpuView(s, c)
    ensures Uses(Schedule(s, c).cpus[c]) == Uses(s.cpus[c]) && Builds(Schedule(s, c).cpus[c].pc) == Builds(s.cpus[c].pc)
    ensures CpuView(Schedule(s, c), c)
  {
    hide FrameOk, FramesOk, DoneOk, WantOk, BackOk;
  }

  lemma ClaimInv(s: State, c: nat, i: Slot)
    requires Inv(s) && c < |s.cpus| && s.cpus[c].pc == SchedScan(i) && s.procs[i].state.Runnable?
    ensures Inv(Schedule(s, c))
  {
    assert Scheduling(s.cpus[c].pc);
    hide *;
    InvCpu(s, c);
    Unowned(s, c, i);
    SlotParts(s, i);
    OtherStacks(s, i);
    ClaimView(s, c, i);
    SlotStep(s, c, i, Schedule(s, c));
  }

  lemma ClaimView(s: State, c: nat, i: Slot)
    requires c < |s.cpus| && s.cpus[c].pc == SchedScan(i) && s.procs[i].state.Runnable?
    requires CpuView(s, c) && SlotView(s, i) && s.procs[i].owner.None?
    ensures var s' := Schedule(s, c); SlotShape(s, c, i, s')
    ensures Schedule(s, c).stacks == s.stacks && Schedule(s, c).procs[i].kstack == s.procs[i].kstack
  {
    hide FrameOk, FramesOk, DoneOk, BackOk, Calm;
  }

  lemma LeaveInv(s: State, c: nat)
    requires Inv(s) && c < |s.cpus| && Leaving(s.cpus[c].pc)
    ensures Inv(Leave(s, c))
  {
    var pc := s.cpus[c].pc;
    assert Leaving(pc);
    assert CpuView(s, c);
    if pc.YieldClear? || pc.ExitClear? {
      hide *;
      LeaveLocal(s, c);
      LocalStep(s, c, Leave(s, c));
    } else {
      var p := pc.p;
      assert Uses(s.cpus[c]) == Some(p);
      hide *;
      OwnerParts(s, c, p);
      SlotParts(s, p);
      OtherStacks(s, p);
      LeaveSlot(s, c, p);
      SlotStep(s, c, p, Leave(s, c));
    }
  }

  lemma OwnerParts(s: State, c: nat, p: Slot)
    requires c < |s.cpus| && CpuView(s, c) && (Uses(s.cpus[c]) == Some(p) || Builds(s.cpus[c].pc) == Some(p))
    ensures s.procs[p].owner == Some(c)
  {
    hide PcOk, LockView, IntrView, ThreadView, Resumable;
  }

  lemma LeaveLocal(s: State, c: nat)
    requires c < |s.cpus| && (s.cpus[c].pc.YieldClear? || s.cpus[c].pc.ExitClear?) && CpuView(s, c)
    ensures Leaving(s.cpus[c].pc)
    ensures var s' := Leave(s, c);
            && |s'.cpus| == |s.cpus| && s' == s.(cpus := s.cpus[c := s'.cpus[c]])
            && Uses(s'.cpus[c]) == Uses(s.cpus[c]) && Builds(s'.cpus[c].pc) == Builds(s.cpus[c].pc)
            && CpuView(s', c)
  {
    hide FrameOk, FramesOk, BackOk, Resumable;
  }

  lemma LeaveSlot(s: State, c: nat, p: Slot)
    requires c < |s.cpus| && Leaving(s.cpus[c].pc) && !s.cpus[c].pc.YieldClear? && !s.cpus[c].pc.ExitClear?
             && p == s.cpus[c].pc.p
    requires CpuView(s, c) && SlotView(s, p)
    ensures SlotShape(s, c, p, Leave(s, c))
    ensures Leave(s, c).stacks == s.stacks && Leave(s, c).procs[p].kstack == s.procs[p].kstack
  {
    if s.cpus[c].pc.YieldMark? || s.cpus[c].pc.ExitMark? {
      MarkSlot(s, c, p);
    } else {
      hide FrameOk, FramesOk, BackOk, Calm, Quiet;
    }
  }

  lemma MarkSlot(s: State, c: nat, p: Slot)
    requires c < |s.cpus| && (s.cpus[c].pc.YieldMark? || s.cpus[c].pc.ExitMark?) && p == s.cpus[c].pc.p
    requires CpuView(s, c) && SlotView(s, p)
    ensures SlotShape(s, c, p, Leave(s, c))
  {
    hide FrameOk, FramesOk, BackOk, Resumable;
  }

  lemma ScanInv(s: State, c: nat)
    requires Inv(s) && c < |s.cpus| && Scanning(s.cpus[c].pc)
    ensures Inv(Scan(s, c))
  {
    var pc := s.cpus[c].pc;
    assert Scanning(pc);
    hide *;
    InvCpu(s, c);
    if pc.ReadyMark? {
      ReadyOwner(s, c);
      SlotParts(s, pc.slot);
      OtherStacks(s, pc.slot);
      ReadySlot(s, c);
      SlotStep(s, c, pc.slot, Scan(s, c));
    } else if pc.i >= 64 || !Hit(s, c, pc.i) {
      ScanLocal(s, c);
      LocalStep(s, c, Scan(s, c));
    } else {
      HitState(s, c, pc.i);
      Unowned(s, c, pc.i);
      SlotParts(s, pc.i);
      OtherStacks(s, pc.i);
      if pc.WaitScan? {
        ReapSlot(s, c, pc.i);
        ReapStacks(s, c, pc.i);
      } else {
        AllocSlot(s, c, pc.i);
      }
      SlotStep(s, c, pc.i, Scan(s, c));
    }
  }

  /** The scan stops at slot i. */
  predicate Hit(s: State, c: nat, i: Slot)
    requires c < |s.cpus|
  {
    var pc := s.cpus[c].pc;
    || (pc.WaitScan? && s.procs[i].state.Zombie? && s.procs[i].ppid == s.procs[pc.parent].pid)
    || (pc.AllocScan? && s.procs[i].state.Unused?)
  }

  lemma HitState(s: State, c: nat, i: Slot)
    requires c < |s.cpus| && Hit(s, c, i)
    ensures s.procs[i].state.Zombie? || s.procs[i].state.Unused?
  {
  }

  /** Moving on inside a critical section, with nothing claimed or built. */
  lemma SectionMove(s: State, c: nat, pc': Pc)
    requires c < |s.cpus| && CpuView(s, c) && InSection(s.cpus[c].pc) && InSection(pc') && PcOk(s.cpus[c].on, pc')
    requires !Leaving(s.cpus[c].pc) && !Leaving(pc') && Unclaimed(s.cpus[c].pc) && Unclaimed(pc')
    requires !Quiet(pc') && (Calm(pc') ==> Calm(s.cpus[c].pc))
    ensures CpuView(Goto(s, c, pc'), c) && Uses(Goto(s, c, pc').cpus[c]) == Uses(s.cpus[c])
            && Builds(pc') == Builds(s.cpus[c].pc)
  {
    hide PcOk, InSection, Quiet, Calm, FramesOk, Resumable, BuildOk;
  }

  predicate Unclaimed(pc: Pc) {
    Builds(pc).None? && !pc.SchedSet? && !pc.SchedSwtch?
  }

  lemma ScanLocal(s: State, c: nat)
    requires c < |s.cpus| && CpuView(s, c)
    requires var pc := s.cpus[c].pc; (pc.WaitScan? || pc.AllocScan?) && (pc.i >= 64 || !Hit(s, c, pc.i))
    ensures Scanning(s.cpus[c].pc)
    ensures var s' := Scan(s, c);
            && |s'.cpus| == |s.cpus| && s' == s.(cpus := s.cpus[c := s'.cpus[c]])
            && Uses(s'.cpus[c]) == Uses(s.cpus[c]) && Builds(s'.cpus[c].pc) == Builds(s.cpus[c].pc)
            && CpuView(s', c)
  {
    var pc := s.cpus[c].pc;
    var pc' := ScanNext(pc);
    ScansOn(s, c);
    ThreadPc(s, c);
    hide *;
    NextOk(s.cpus[c].on, pc);
    SectionMove(s, c, pc');
    GotoShape(s, c, pc');
  }

  /** Where a scan goes on that has come to its end or to a slot it is not looking for. */
  function ScanNext(pc: Pc): Pc {
    match pc
    case WaitScan(parent, i) => if i >= 64 then Rel(TestLocked, WaitNone(parent)) else WaitScan(parent, i + 1)
    case AllocScan(maker, i) => if i >= 64 then Rel(TestLocked, AllocNone(maker)) else AllocScan(maker, i + 1)
    case _ => pc
  }

  lemma ScansOn(s: State, c: nat)
    requires c < |s.cpus|
    requires var pc := s.cpus[c].pc; (pc.WaitScan? || pc.AllocScan?) && (pc.i >= 64 || !Hit(s, c, pc.i))
    ensures Scanning(s.cpus[c].pc) && Scan(s, c) == Goto(s, c, ScanNext(s.cpus[c].pc))
  {
  }

  lemma NextOk(me: Option<Slot>, pc: Pc)
    requires (pc.WaitScan? || pc.AllocScan?) && PcOk(me, pc)
    ensures var pc' := ScanNext(pc);
            && InSection(pc) && InSection(pc') && PcOk(me, pc') && !Leaving(pc) && !Leaving(pc') && Unclaimed(pc)
            && Unclaimed(pc')
            && !Quiet(pc') && (Calm(pc') ==> Calm(pc))
  {
  }

  lemma GotoShape(s: State, c: nat, pc': Pc)
    requires c < |s.cpus|
    ensures var s' := Goto(s, c, pc');
            |s'.cpus| == |s.cpus| && s' == s.(cpus := s.cpus[c := s'.cpus[c]]) && s'.cpus[c].pc == pc'
  {
  }

  lemma ThreadPc(s: State, c: nat)
    requires c < |s.cpus| && CpuView(s, c)
    ensures PcOk(s.cpus[c].on, s.cpus[c].pc)
  {
  }

  lemma ReadyOwner(s: State, c: nat)
    requires c < |s.cpus| && s.cpus[c].pc.ReadyMark? && CpuView(s, c)
    ensures s.procs[s.cpus[c].pc.slot].owner == Some(c)
  {
    hide PcOk, LockView, IntrView, ThreadView, Resumable;
  }

  lemma ReadySlot(s: State, c: nat)
    requires c < |s.cpus| && s.cpus[c].pc.ReadyMark? && CpuView(s, c) && SlotView(s, s.cpus[c].pc.slot)
    ensures Scanning(s.cpus[c].pc)
    ensures var p := s.cpus[c].pc.slot;
            SlotShape(s, c, p, Scan(s, c)) && Scan(s, c).stacks == s.stacks
              && Scan(s, c).procs[p].kstack == s.procs[p].kstack
  {
    hide BackOk;
  }

  lemma ReapSlot(s: State, c: nat, i: Slot)
    requires c < |s.cpus| && s.cpus[c].pc.WaitScan? && s.cpus[c].pc.i == i && Hit(s, c, i)
    requires CpuView(s, c) && SlotView(s, i) && s.procs[i].owner.None?
    ensures SlotShape(s, c, i, Scan(s, c))
  {
    hide FrameOk, FramesOk, BackOk, Resumable;
  }

  lemma ReapStacks(s: State, c: nat, i: Slot)
    requires c < |s.cpus| && s.cpus[c].pc.WaitScan? && s.cpus[c].pc.i == i && Hit(s, c, i)
    requires forall q: Slot :: q != i && s.procs[q].kstack.Some? ==>
              s.procs[q].kstack.value in s.stacks && s.procs[q].kstack != s.procs[i].kstack
    ensures forall q: Slot :: q != i && s.procs[q].kstack.Some? ==>
              s.procs[q].kstack.value in Scan(s, c).stacks && s.procs[q].kstack != Scan(s, c).procs[i].kstack
  {
  }

  lemma AllocSlot(s: State, c: nat, i: Slot)
    requires c < |s.cpus| && s.cpus[c].pc.AllocScan? && s.cpus[c].pc.i == i && Hit(s, c, i)
    requires CpuView(s, c) && SlotView(s, i) && s.procs[i].owner.None?
    ensures SlotShape(s, c, i, Scan(s, c)) && Scan(s, c).stacks == s.stacks
            && Scan(s, c).procs[i].kstack == s.procs[i].kstack
  {
    hide FrameOk, FramesOk, BackOk, Resumable;
  }

  lemma ChooseInv(s: State, c: nat, s': State)
    requires Inv(s) && c < |s.cpus| && Choose(s, c, s')
    ensures Inv(s')
  {
    var pc := s.cpus[c].pc;
    InvCpu(s, c);
    hide *;
    if pc.BuildStack? || pc.Build? {
      FillOwner(s, c);
      SlotParts(s, pc.slot);
      OtherStacks(s, pc.slot);
      FillSlot(s, c, s');
      FillStacks(s, c, s');
      SlotStep(s, c, pc.slot, s');
    } else {
      ChooseLocal(s, c, s');
      LocalStep(s, c, s');
    }
  }

  lemma FillOwner(s: State, c: nat)
    requires c < |s.cpus| && (s.cpus[c].pc.BuildStack? || s.cpus[c].pc.Build?) && CpuView(s, c)
    ensures s.procs[s.cpus[c].pc.slot].owner == Some(c)
  {
    hide PcOk, LockView, IntrView, ThreadView, Resumable;
  }

  lemma FillSlot(s: State, c: nat, s': State)
    requires c < |s.cpus| && (s.cpus[c].pc.BuildStack? || s.cpus[c].pc.Build?) && CpuView(s, c)
             && SlotView(s, s.cpus[c].pc.slot)
    requires Choose(s, c, s')
    ensures SlotShape(s, c, s.cpus[c].pc.slot, s')
  {
    hide CpuView, SlotView, SlotShape, GiveUp, GotStack, Built;
    var pc := s.cpus[c].pc;
    if s' == GiveUp(s, c, pc.maker, pc.slot) {
      GiveUpSlot(s, c);
    } else if pc.BuildStack? {
      var k: nat :| k !in s.stacks && s' == GotStack(s, c, pc.maker, pc.slot, k);
      GotStackSlot(s, c, k);
    } else {
      BuiltSlot(s, c);
    }
  }

  lemma GiveUpSlot(s: State, c: nat)
    requires c < |s.cpus| && (s.cpus[c].pc.BuildStack? || s.cpus[c].pc.Build?) && CpuView(s, c)
             && SlotView(s, s.cpus[c].pc.slot)
    ensures var pc := s.cpus[c].pc; SlotShape(s, c, pc.slot, GiveUp(s, c, pc.maker, pc.slot))
  {
    hide FrameOk, FramesOk, BackOk, Resumable;
  }

  lemma GotStackSlot(s: State, c: nat, k: nat)
    requires c < |s.cpus| && s.cpus[c].pc.BuildStack? && CpuView(s, c) && SlotView(s, s.cpus[c].pc.slot)
    ensures var pc := s.cpus[c].pc; SlotShape(s, c, pc.slot, GotStack(s, c, pc.maker, pc.slot, k))
  {
    hide FrameOk, FramesOk, BackOk, Resumable;
  }

  lemma BuiltSlot(s: State, c: nat)
    requires c < |s.cpus| && s.cpus[c].pc.Build? && CpuView(s, c) && SlotView(s, s.cpus[c].pc.slot)
    ensures var pc := s.cpus[c].pc; SlotShape(s, c, pc.slot, Built(s, c, pc.maker, pc.slot))
  {
    hide FrameOk, FramesOk, BackOk, Resumable;
  }

  lemma FillStacks(s: State, c: nat, s': State)
    requires c < |s.cpus| && (s.cpus[c].pc.BuildStack? || s.cpus[c].pc.Build?) && Choose(s, c, s')
    requires var p := s.cpus[c].pc.slot; forall q: Slot :: q != p && s.procs[q].kstack.Some? ==>
              s.procs[q].kstack.value in s.stacks && s.procs[q].kstack != s.procs[p].kstack
    ensures var p := s.cpus[c].pc.slot; forall q: Slot :: q != p && s.procs[q].kstack.Some? ==>
              s.procs[q].kstack.value in s'.stacks && s.procs[q].kstack != s'.procs[p].kstack
  {
  }

  /** A point outside every critical section and creation. */
  predicate Plain(pc: Pc) {
    || pc.Boot? || pc.SchedLoop? || pc.User? || pc.Syscall? || pc.Kernel? || pc.YieldStart? || pc.IntReturn?
    || (pc.Acq? && pc.at.Push? && !pc.w.ForReady?)
  }

  lemma PlainMove(s: State, c: nat, u': Cpu)
    requires c < |s.cpus| && CpuView(s, c) && Plain(s.cpus[c].pc) && Plain(u'.pc)
    requires var u := s.cpus[c]; u' == u.(pc := u'.pc, intr := u'.intr, frames := u'.frames)
    requires PcOk(u'.on, u'.pc) && (if u'.on.None? then u'.frames == [] else FramesOk(u'.on.value, u'.frames))
    requires u'.on.Some? && Quiet(u'.pc) ==> !u'.intr
    ensures Uses(u') == Uses(s.cpus[c]) && Builds(u'.pc) == Builds(s.cpus[c].pc) && CpuView(SetCpu(s, c, u'), c)
  {
    hide PcOk, FramesOk, Quiet, Resumable;
  }

  /** What a thread at a plain point is like. */
  lemma PlainParts(s: State, c: nat)
    requires c < |s.cpus| && CpuView(s, c) && Plain(s.cpus[c].pc)
    ensures var u := s.cpus[c];
            && PcOk(u.on, u.pc) && u.proc == u.on && (u.on.Some? && Quiet(u.pc) ==> !u.intr)
            && (if u.on.None? then u.frames == [] else FramesOk(u.on.value, u.frames))
  {
    hide PcOk, FramesOk, Quiet, Resumable;
  }

  lemma ChooseLocal(s: State, c: nat, s': State)
    requires c < |s.cpus| && CpuView(s, c) && Choose(s, c, s') && !s.cpus[c].pc.BuildStack? && !s.cpus[c].pc.Build?
    ensures && |s'.cpus| == |s.cpus| && s' == s.(cpus := s.cpus[c := s'.cpus[c]])
            && Uses(s'.cpus[c]) == Uses(s.cpus[c]) && Builds(s'.cpus[c].pc) == Builds(s.cpus[c].pc)
            && CpuView(s', c)
  {
    hide CpuView, Uses, Builds, FrameOk;
    PlainParts(s, c);
    var u, u' := s.cpus[c], s'.cpus[c];
    if u.pc.IntReturn? {
      FrameParts(u.on, u.frames);
    }
    PlainMove(s, c, u');
    assert s' == SetCpu(s, c, u');
  }

  lemma FrameParts(me: Option<Slot>, frames: seq<Pc>)
    requires me.Some? && FramesOk(me.value, frames) && frames != []
    ensures var pc := frames[|frames| - 1]; PcOk(me, pc) && Plain(pc) && !Quiet(pc)
    ensures FramesOk(me.value, frames[..|frames| - 1])
  {
    assert FrameOk(me.value, frames[|frames| - 1]);
  }

  lemma TimerInv(s: State, c: nat, s': State)
    requires Inv(s) && c < |s.cpus| && Timer(s, c, s')
    ensures Inv(s')
  {
    InvCpu(s, c);
    hide *;
    if s' != s {
      TimerLocal(s, c, s');
      LocalStep(s, c, s');
    }
  }

  lemma TimerLocal(s: State, c: nat, s': State)
    requires c < |s.cpus| && CpuView(s, c) && Timer(s, c, s') && s' != s
    ensures && |s'.cpus| == |s.cpus| && s' == s.(cpus := s.cpus[c := s'.cpus[c]])
            && Uses(s'.cpus[c]) == Uses(s.cpus[c]) && Builds(s'.cpus[c].pc) == Builds(s.cpus[c].pc)
            && CpuView(s', c)
  {
    hide Resumable;
  }

  /** Every step keeps the invariant. */
  lemma StepInv(s: State, c: nat, s': State)
    requires Inv(s) && c < |s.cpus| && Step(s, c, s')
    ensures Inv(s')
  {
    var pc := s.cpus[c].pc;
    hide Inv, Timer, Choose, Acquire, Release, Schedule, Leave, Scan, Goto, SetCpu, SetProc;
    if Timer(s, c, s') { TimerInv(s, c, s'); }
    else if pc.Acq? { AcquireInv(s, c); }
    else if pc.Rel? { ReleaseInv(s, c); }
    else if Scheduling(pc) { ScheduleInv(s, c); }
    else if Leaving(pc) { LeaveInv(s, c); }
    else if Scanning(pc) { ScanInv(s, c); }
    else { ChooseInv(s, c, s'); }
  }
}
