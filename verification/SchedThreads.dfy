/**
 * Threads across switches: a process goes on where it stopped, its interrupt frames nest, sys_wait
 * does not return without a child, and acquire and release leave the interrupt flag as it was.
 */
module SchedThreads {
  import opened Sched
  import opened SchedSafety
  import opened SchedRuns
  import opened SchedTurns

  /** Where a thread is, and the points the timer interrupted below. */
  datatype Thread = Thread(pc: Pc, frames: seq<Pc>)

  /** The thread of slot p: in the registers of the CPU that is on its stack, or else in the saved context. */
  function ThreadOf(s: State, p: Slot): Thread {
    var r := s.procs[p];
    if r.owner.Some? && r.owner.value < |s.cpus| && s.cpus[r.owner.value].on == Some(p)
    then Thread(s.cpus[r.owner.value].pc, s.cpus[r.owner.value].frames)
    else Thread(r.ctx, r.frames)
  }

  predicate Alive(r: Proc) {
    r.state.Runnable? || r.state.Running?
  }

  /** Where the code of the process on CPU c stands in another process's way: it neither is nor makes p. */
  lemma Bystander(s: State, c: nat, p: Slot)
    requires Inv(s) && c < |s.cpus| && Alive(s.procs[p]) && s.cpus[c].on != Some(p)
    ensures CpuView(s, c) && Builds(s.cpus[c].pc) != Some(p)
    ensures s.cpus[c].on.Some? ==> s.procs[s.cpus[c].on.value].owner == Some(c)
    ensures s.procs[p].owner == Some(c) ==> Uses(s.cpus[c]) == Some(p)
    ensures Uses(s.cpus[c]) == Some(p) ==> s.procs[p].owner == Some(c)
    ensures s.procs[p].owner.Some? ==> s.procs[p].owner.value < |s.cpus|
    ensures s.procs[p].owner.None? ==> forall d :: 0 <= d < |s.cpus| ==> s.cpus[d].on != Some(p)
  {
    InvCpu(s, c);
    SlotParts(s, p);
    forall d | 0 <= d < |s.cpus| && s.cpus[d].on == Some(p) ensures s.procs[p].owner == Some(d) {
      OnOwned(s, d);
    }
    hide Inv, ThreadView, LockView, IntrView, Resumable;
  }

  /** What a step by a CPU that is not on p does to it. */
  predicate Untouched(s: State, s': State, p: Slot) {
    && ThreadOf(s', p) == ThreadOf(s, p) && Alive(s'.procs[p])
    && s'.procs[p].pid == s.procs[p].pid && s'.procs[p].ppid == s.procs[p].ppid
    && s'.procs[p].kstack == s.procs[p].kstack
  }

  lemma TimerApart(s: State, c: nat, s': State, p: Slot)
    requires c < |s.cpus| && Timer(s, c, s') && Alive(s.procs[p]) && s.cpus[c].on != Some(p)
    ensures Untouched(s, s', p)
  {
  }

  lemma LockApart(s: State, c: nat, p: Slot)
    requires c < |s.cpus| && Alive(s.procs[p]) && s.cpus[c].on != Some(p)
    ensures s.cpus[c].pc.Acq? ==> Untouched(s, Acquire(s, c), p)
    ensures s.cpus[c].pc.Rel? ==> Untouched(s, Release(s, c), p)
  {
    hide Critical, AfterRelease;
  }

  lemma ScheduleApart(s: State, c: nat, p: Slot)
    requires Inv(s) && c < |s.cpus| && Alive(s.procs[p]) && s.cpus[c].on != Some(p) && Scheduling(s.cpus[c].pc)
    ensures Untouched(s, Schedule(s, c), p)
  {
    Bystander(s, c, p);
    if s.cpus[c].pc.SchedScan? && s.cpus[c].pc.i < 64 && s.procs[s.cpus[c].pc.i].state.Runnable? {
      Unowned(s, c, s.cpus[c].pc.i);
    }
    hide Inv, PcOk, FramesOk, LockView, IntrView, Resumable;
  }

  lemma LeaveApart(s: State, c: nat, p: Slot)
    requires Inv(s) && c < |s.cpus| && Alive(s.procs[p]) && s.cpus[c].on != Some(p) && Leaving(s.cpus[c].pc)
    ensures Untouched(s, Leave(s, c), p)
  {
    Bystander(s, c, p);
    hide Inv, FramesOk, LockView, IntrView, Resumable;
  }

  lemma ScanApart(s: State, c: nat, p: Slot)
    requires Inv(s) && c < |s.cpus| && Alive(s.procs[p]) && s.cpus[c].on != Some(p) && Scanning(s.cpus[c].pc)
    ensures Untouched(s, Scan(s, c), p)
  {
    Bystander(s, c, p);
    hide Inv, PcOk, FramesOk, LockView, IntrView, Resumable;
  }

  lemma ChooseApart(s: State, c: nat, s': State, p: Slot)
    requires Inv(s) && c < |s.cpus| && Alive(s.procs[p]) && s.cpus[c].on != Some(p) && Choose(s, c, s')
    ensures Untouched(s, s', p)
  {
    Bystander(s, c, p);
    hide Inv, PcOk, FramesOk, LockView, IntrView, Resumable;
  }

  /**
   * No step moves the thread of a live process except one by the CPU that is on its stack: switching
   * to it resumes it at the very point, with the very frames, at which it left its last CPU.
   */
  lemma ThreadStays(s: State, c: nat, s': State, p: Slot)
    requires Inv(s) && c < |s.cpus| && Alive(s.procs[p]) && s.cpus[c].on != Some(p) && Step(s, c, s')
    ensures Untouched(s, s', p)
  {
    hide Inv, Untouched, Alive, Timer, Acquire, Release, Schedule, Leave, Scan, Choose;
    if Timer(s, c, s') { TimerApart(s, c, s', p); }
    LockApart(s, c, p);
    if Scheduling(s.cpus[c].pc) { ScheduleApart(s, c, p); }
    if Leaving(s.cpus[c].pc) { LeaveApart(s, c, p); }
    if Scanning(s.cpus[c].pc) { ScanApart(s, c, p); }
    if Choose(s, c, s') { ChooseApart(s, c, s', p); }
  }

  /** A process that yields leaves itself at the release that ends yield, and is still to run. */
  lemma YieldLeaves(s: State, c: nat, s': State, p: Slot)
    requires Inv(s) && c < |s.cpus| && s.cpus[c].pc.YieldSwtch? && s.cpus[c].pc.p == p && Step(s, c, s')
    ensures s'.procs[p].state.Runnable? && c < |s'.cpus| && s'.cpus[c].on.None? && s'.procs[p].owner.None?
    ensures ThreadOf(s', p) == Thread(Rel(TestLocked, YieldDone(s.cpus[c].pc.to)), s.cpus[c].frames)
  {
    InvCpu(s, c);
    hide Inv, FramesOk, LockView, Resumable;
  }

  /** Step k is taken by a CPU that is on the stack of p. */
  predicate RunsOn(ss: seq<State>, cs: seq<nat>, k: nat, p: Slot) {
    k < |cs| && k < |ss| && cs[k] < |ss[k].cpus| && ss[k].cpus[cs[k]].on == Some(p)
  }

  /** Over every run: as long as no CPU takes a step on its stack, a live process stays where it is. */
  lemma {:induction false} ThreadKept(ss: seq<State>, cs: seq<nat>, i: nat, j: nat, p: Slot)
    requires IsRun(ss, cs) && i <= j < |ss| && Alive(ss[i].procs[p])
    requires forall k :: i <= k < j ==> !RunsOn(ss, cs, k, p)
    ensures Alive(ss[j].procs[p]) && ThreadOf(ss[j], p) == ThreadOf(ss[i], p)
  {
    hide Step, Inv, ThreadOf, Alive;
    if i < j {
      ThreadKept(ss, cs, i, j - 1, p);
      RunInv(ss, cs, j - 1);
      assert RunStep(ss, cs, j - 1) && !RunsOn(ss, cs, j - 1, p);
      ThreadStays(ss[j - 1], cs[j - 1], ss[j], p);
    }
  }

  /** A point inside the handling of a timer interrupt, or of the first return to user mode. */
  predicate InTrap(pc: Pc) {
    match pc
    case IntReturn => true
    case YieldStart(to) => to.Trap?
    case Acq(_, w) => w.ForYield? && w.to.Trap?
    case YieldMark(_, to) => to.Trap?
    case YieldClear(_, to) => to.Trap?
    case YieldSwtch(_, to) => to.Trap?
    case Rel(_, d) => d.ForkRet? || (d.YieldDone? && d.to.Trap?)
    case _ => false
  }

  /** There is a frame to return to exactly inside a trap, and all frames but the first are themselves inside one. */
  predicate Nested(t: Thread) {
    && (InTrap(t.pc) <==> t.frames != [])
    && forall i :: 0 <= i < |t.frames| ==> (InTrap(t.frames[i]) <==> i > 0)
  }

  /** The threads of the processes on CPUs, and those saved. */
  predicate AllNested(s: State) {
    && (forall c :: 0 <= c < |s.cpus| && s.cpus[c].on.Some? ==> Nested(Thread(s.cpus[c].pc, s.cpus[c].frames)))
    && forall p: Slot :: s.procs[p].ctx.Rel? ==> Nested(Thread(s.procs[p].ctx, s.procs[p].frames))
  }

  /** The step leaves the saved contexts alone and the CPU's own thread nested. */
  predicate OwnNested(s: State, c: nat, s': State)
    requires c < |s.cpus|
  {
    && |s'.cpus| == |s.cpus| && (s'.cpus[c].on.Some? ==> Nested(Thread(s'.cpus[c].pc, s'.cpus[c].frames)))
    && forall p: Slot :: s'.procs[p].ctx.Rel? ==> Nested(Thread(s'.procs[p].ctx, s'.procs[p].frames))
  }

  lemma PushedFrame(pc: Pc, frames: seq<Pc>)
    requires Nested(Thread(pc, frames))
    ensures Nested(Thread(YieldStart(Trap), frames + [pc]))
  {
  }

  lemma PoppedFrame(frames: seq<Pc>)
    requires Nested(Thread(IntReturn, frames))
    ensures frames != [] && Nested(Thread(frames[|frames| - 1], frames[..|frames| - 1]))
  {
  }

  /** Moving on at the same depth. */
  lemma SameDepth(pc: Pc, pc': Pc, frames: seq<Pc>)
    requires Nested(Thread(pc, frames)) && (InTrap(pc') <==> InTrap(pc))
    ensures Nested(Thread(pc', frames))
  {
  }

  lemma TimerNested(s: State, c: nat, s': State)
    requires Inv(s) && AllNested(s) && c < |s.cpus| && Timer(s, c, s')
    ensures OwnNested(s, c, s')
  {
    InvCpu(s, c);
    hide Inv, Nested, PcOk, FramesOk, LockView, IntrView, OwnerView;
    if s.cpus[c].on.Some? { PushedFrame(s.cpus[c].pc, s.cpus[c].frames); }
  }

  lemma AcquireNested(s: State, c: nat)
    requires Inv(s) && AllNested(s) && c < |s.cpus| && s.cpus[c].pc.Acq?
    ensures OwnNested(s, c, Acquire(s, c))
  {
    StepInv(s, c, Acquire(s, c));
    InvCpu(Acquire(s, c), c);
    var u, u' := s.cpus[c], Acquire(s, c).cpus[c];
    AcquireDepth(s, c);
    hide Inv, Step, Acquire, Nested, FramesOk, LockView, IntrView, OwnerView;
    assert u'.on.Some? ==> !u'.pc.Halt?;
    if u.on.Some? { SameDepth(u.pc, u'.pc, u.frames); }
  }

  lemma AcquireDepth(s: State, c: nat)
    requires c < |s.cpus| && s.cpus[c].pc.Acq?
    ensures var s' := Acquire(s, c);
            && |s'.cpus| == |s.cpus| && s'.procs == s.procs && s'.cpus[c].on == s.cpus[c].on
            && s'.cpus[c].frames == s.cpus[c].frames
            && (s'.cpus[c].pc.Halt? || (InTrap(s'.cpus[c].pc) <==> InTrap(s.cpus[c].pc)))
  {
  }

  lemma ReleaseNested(s: State, c: nat)
    requires Inv(s) && AllNested(s) && c < |s.cpus| && s.cpus[c].pc.Rel?
    ensures OwnNested(s, c, Release(s, c))
  {
    StepInv(s, c, Release(s, c));
    InvCpu(Release(s, c), c);
    var u, u' := s.cpus[c], Release(s, c).cpus[c];
    ReleaseDepth(s, c);
    hide Inv, Step, Release, Nested, FramesOk, LockView, IntrView, OwnerView;
    assert u'.on.Some? ==> !u'.pc.Halt?;
    if u.on.Some? { SameDepth(u.pc, u'.pc, u.frames); }
  }

  lemma ReleaseDepth(s: State, c: nat)
    requires c < |s.cpus| && s.cpus[c].pc.Rel?
    ensures var s' := Release(s, c);
            && |s'.cpus| == |s.cpus| && s'.procs == s.procs && s'.cpus[c].on == s.cpus[c].on
            && s'.cpus[c].frames == s.cpus[c].frames
            && (s'.cpus[c].pc.Halt? || (InTrap(s'.cpus[c].pc) <==> InTrap(s.cpus[c].pc)))
  {
  }

  lemma ScheduleNested(s: State, c: nat)
    requires Inv(s) && AllNested(s) && c < |s.cpus| && Scheduling(s.cpus[c].pc)
    ensures OwnNested(s, c, Schedule(s, c))
  {
    InvCpu(s, c);
    hide Inv, Nested, FramesOk, LockView, IntrView;
  }

  lemma LeaveNested(s: State, c: nat)
    requires Inv(s) && AllNested(s) && c < |s.cpus| && Leaving(s.cpus[c].pc)
    ensures OwnNested(s, c, Leave(s, c))
  {
    hide Inv, Nested, Leave, AllNested, OwnNested, InTrap, OwnStep, Leaving;
    SwitchOwn(s, c);
    LeaveDepth(s, c);
    NestedOn(s, c);
    LeaverOn(s, c);
    var u, u' := s.cpus[c], Leave(s, c).cpus[c];
    if u.pc.YieldSwtch? {
      InTrapKept(u.pc.p, u.pc.to);
      SameDepth(u.pc, Rel(TestLocked, YieldDone(u.pc.to)), u.frames);
    } else if u'.on.Some? {
      SameDepth(u.pc, u'.pc, u.frames);
    }
    LeaveContexts(s, c);
    OwnParts(s, c, Leave(s, c));
  }

  lemma LeaverOn(s: State, c: nat)
    requires Inv(s) && c < |s.cpus| && Leaving(s.cpus[c].pc)
    ensures s.cpus[c].on.Some?
  {
    InvCpu(s, c);
    hide Inv, FramesOk, LockView, IntrView, OwnerView;
  }

  lemma InTrapKept(p: Slot, to: Back)
    ensures InTrap(Rel(TestLocked, YieldDone(to))) <==> InTrap(YieldSwtch(p, to))
  {
  }

  lemma LeaveContexts(s: State, c: nat)
    requires AllNested(s) && c < |s.cpus| && Leaving(s.cpus[c].pc)
    requires s.cpus[c].pc.YieldSwtch? ==>
               Nested(Thread(Rel(TestLocked, YieldDone(s.cpus[c].pc.to)), s.cpus[c].frames))
    ensures var s' := Leave(s, c);
            forall p: Slot :: s'.procs[p].ctx.Rel? ==> Nested(Thread(s'.procs[p].ctx, s'.procs[p].frames))
  {
    hide Nested;
  }

  lemma LeaveDepth(s: State, c: nat)
    requires c < |s.cpus| && Leaving(s.cpus[c].pc)
    ensures |Leave(s, c).cpus| == |s.cpus|
    ensures var u, u' := s.cpus[c], Leave(s, c).cpus[c];
            if u.pc.YieldSwtch? || u.pc.ExitSwtch? then u'.on.None?
            else u'.on == u.on && u'.frames == u.frames && (InTrap(u'.pc) <==> InTrap(u.pc))
  {
  }

  lemma ScanNested(s: State, c: nat)
    requires Inv(s) && AllNested(s) && c < |s.cpus| && Scanning(s.cpus[c].pc)
    ensures OwnNested(s, c, Scan(s, c))
  {
    hide Inv, Nested, Scan, AllNested, OwnNested, InTrap, OwnStep, Scanning;
    ScanOwn(s, c);
    ScanDepth(s, c);
    var u, u' := s.cpus[c], Scan(s, c).cpus[c];
    NestedOn(s, c);
    if u.on.Some? { SameDepth(u.pc, u'.pc, u.frames); }
    ScanContexts(s, c);
    OwnParts(s, c, Scan(s, c));
  }

  lemma ScanDepth(s: State, c: nat)
    requires c < |s.cpus| && Scanning(s.cpus[c].pc)
    ensures |Scan(s, c).cpus| == |s.cpus|
    ensures var u, u' := s.cpus[c], Scan(s, c).cpus[c];
            u'.on == u.on && u'.frames == u.frames && (InTrap(u'.pc) <==> InTrap(u.pc))
  {
  }

  lemma ScanContexts(s: State, c: nat)
    requires AllNested(s) && c < |s.cpus| && Scanning(s.cpus[c].pc)
    ensures var s' := Scan(s, c);
            forall p: Slot :: s'.procs[p].ctx.Rel? ==> Nested(Thread(s'.procs[p].ctx, s'.procs[p].frames))
  {
    hide Nested;
  }

  lemma ChooseNested(s: State, c: nat, s': State)
    requires Inv(s) && AllNested(s) && c < |s.cpus| && Choose(s, c, s')
    ensures OwnNested(s, c, s')
  {
    hide Inv, Nested, Choose, AllNested, OwnNested, InTrap;
    ChooseOwn(s, c, s');
    ChooseStays(s, c, s');
    ChooseContexts(s, c, s');
    var u, u' := s.cpus[c], s'.cpus[c];
    NestedOn(s, c);
    if u.on.Some? {
      if u.pc.IntReturn? {
        PoppedFrame(u.frames);
        Returns(s, c, s');
      } else {
        ChooseDepth(s, c, s');
        SameDepth(u.pc, u'.pc, u.frames);
      }
    }
    OwnParts(s, c, s');
  }

  lemma NestedOn(s: State, c: nat)
    requires AllNested(s) && c < |s.cpus|
    ensures s.cpus[c].on.Some? ==> Nested(Thread(s.cpus[c].pc, s.cpus[c].frames))
  {
    hide Nested;
  }

  lemma OwnParts(s: State, c: nat, s': State)
    requires c < |s.cpus| && OwnStep(s, c, s')
    requires s'.cpus[c].on.Some? ==> Nested(Thread(s'.cpus[c].pc, s'.cpus[c].frames))
    requires forall p: Slot :: s'.procs[p].ctx.Rel? ==> Nested(Thread(s'.procs[p].ctx, s'.procs[p].frames))
    ensures OwnNested(s, c, s')
  {
    hide Nested;
  }

  lemma ChooseStays(s: State, c: nat, s': State)
    requires c < |s.cpus| && Choose(s, c, s')
    ensures |s'.cpus| == |s.cpus| && s'.cpus[c].on == s.cpus[c].on
  {
    hide AfterYield, Caller;
  }

  lemma Returns(s: State, c: nat, s': State)
    requires c < |s.cpus| && Choose(s, c, s') && s.cpus[c].pc.IntReturn?
    ensures var u, u' := s.cpus[c], s'.cpus[c];
            u.frames != [] && u'.pc == u.frames[|u.frames| - 1] && u'.frames == u.frames[..|u.frames| - 1]
  {
  }

  /** The context of a new process is nested; no other is touched. */
  lemma ChooseContexts(s: State, c: nat, s': State)
    requires AllNested(s) && c < |s.cpus| && Choose(s, c, s')
    ensures forall p: Slot :: s'.procs[p].ctx.Rel? ==> Nested(Thread(s'.procs[p].ctx, s'.procs[p].frames))
  {
    hide Nested, AfterYield, Caller;
    NewNested();
  }

  lemma NewNested()
    ensures Nested(Thread(Rel(TestLocked, ForkRet), [User]))
  {
  }

  lemma ChooseDepth(s: State, c: nat, s': State)
    requires c < |s.cpus| && Choose(s, c, s') && !s.cpus[c].pc.IntReturn?
    ensures |s'.cpus| == |s.cpus| && s'.cpus[c].frames == s.cpus[c].frames
    ensures InTrap(s'.cpus[c].pc) <==> InTrap(s.cpus[c].pc)
  {
    if s.cpus[c].pc.BuildStack? || s.cpus[c].pc.Build? {
      FillDepth(s, c, s');
    }
  }

  lemma FillDepth(s: State, c: nat, s': State)
    requires c < |s.cpus| && Choose(s, c, s') && (s.cpus[c].pc.BuildStack? || s.cpus[c].pc.Build?)
    ensures |s'.cpus| == |s.cpus| && s'.cpus[c].frames == s.cpus[c].frames && !InTrap(s'.cpus[c].pc)
  {
  }

  lemma StepNested(s: State, c: nat, s': State)
    requires Inv(s) && AllNested(s) && c < |s.cpus| && Step(s, c, s')
    ensures AllNested(s')
  {
    var pc := s.cpus[c].pc;
    StepOwn(s, c, s');
    hide Inv, Nested, OwnNested, Timer, Acquire, Release, Schedule, Leave, Scan, Choose;
    if Timer(s, c, s') { TimerNested(s, c, s'); }
    else if pc.Acq? { AcquireNested(s, c); }
    else if pc.Rel? { ReleaseNested(s, c); }
    else if Scheduling(pc) { ScheduleNested(s, c); }
    else if Leaving(pc) { LeaveNested(s, c); }
    else if Scanning(pc) { ScanNested(s, c); }
    else { ChooseNested(s, c, s'); }
    OwnEnough(s, c, s');
  }

  lemma OwnEnough(s: State, c: nat, s': State)
    requires AllNested(s) && c < |s.cpus| && OwnStep(s, c, s') && OwnNested(s, c, s')
    ensures AllNested(s')
  {
    hide Nested;
  }

  /** Over every run the frames of every thread nest: a return from a trap always has a frame to return to. */
  lemma {:induction false} RunNested(ss: seq<State>, cs: seq<nat>, i: nat)
    requires IsRun(ss, cs) && i < |ss|
    ensures AllNested(ss[i])
  {
    hide Step, Inv, AllNested, Init;
    if i == 0 {
      InitNested(ss[0]);
    } else {
      RunNested(ss, cs, i - 1);
      RunInv(ss, cs, i - 1);
      assert RunStep(ss, cs, i - 1);
      StepNested(ss[i - 1], cs[i - 1], ss[i]);
    }
  }

  lemma InitNested(s: State)
    requires Init(s)
    ensures AllNested(s)
  {
    forall c | 0 <= c < |s.cpus| ensures s.cpus[c].on.None? {
      assert FreshCpu(c, s.cpus[c]);
    }
  }

  /** In user mode, and in a system call, no interrupt is pending a return. */
  lemma UserUninterrupted(ss: seq<State>, cs: seq<nat>, i: nat, c: nat)
    requires IsRun(ss, cs) && i < |ss| && c < |ss[i].cpus|
    requires var pc := ss[i].cpus[c].pc; pc.User? || pc.Syscall? || pc.Kernel?
    ensures ss[i].cpus[c].frames == []
  {
    hide IsRun, Inv;
    RunNested(ss, cs, i);
    RunInv(ss, cs, i);
    InvCpu(ss[i], c);
    assert PcOk(ss[i].cpus[c].on, ss[i].cpus[c].pc);
    assert Nested(Thread(ss[i].cpus[c].pc, ss[i].cpus[c].frames));
  }

  /** A point inside sys_wait's loop. */
  predicate Searching(pc: Pc) {
    match pc
    case YieldStart(to) => to.ToWait?
    case Acq(_, w) => w.ForWait? || (w.ForYield? && w.to.ToWait?)
    case WaitScan(_, _) => true
    case YieldMark(_, to) => to.ToWait?
    case YieldClear(_, to) => to.ToWait?
    case YieldSwtch(_, to) => to.ToWait?
    case Rel(_, d) => d.WaitNone? || (d.YieldDone? && d.to.ToWait?)
    case _ => false
  }

  /** The thread is in sys_wait's loop, below any interrupts. */
  predicate Waits(t: Thread) {
    Searching(if t.frames == [] then t.pc else t.frames[0])
  }

  function OnCpu(s: State, c: nat): Thread
    requires c < |s.cpus|
  {
    Thread(s.cpus[c].pc, s.cpus[c].frames)
  }

  /** The step has returned a child to the process on CPU c. */
  predicate Returned(s: State, c: nat, s': State)
    requires c < |s.cpus|
  {
    && s.cpus[c].on.Some? && |s'.log| == |s.log| + 1 && s'.log[|s.log|].Reaped?
    && s'.log[|s.log|].parent == s.procs[s.cpus[c].on.value].pid
    && c < |s'.cpus| && s'.cpus[c].pc == Rel(TestLocked, WaitFound)
  }

  lemma SearchTimer(s: State, c: nat, s': State)
    requires c < |s.cpus| && CpuView(s, c) && s.cpus[c].on.Some? && Waits(OnCpu(s, c)) && Timer(s, c, s')
    ensures c < |s'.cpus| && s'.cpus[c].on == s.cpus[c].on && Waits(OnCpu(s', c))
  {
    hide CpuView, Searching;
  }

  /** A thread in sys_wait's loop is at a point of the loop, or inside a trap. */
  lemma SearchPoint(s: State, c: nat)
    requires c < |s.cpus| && CpuView(s, c) && s.cpus[c].on.Some? && Waits(OnCpu(s, c)) && Nested(OnCpu(s, c))
    ensures if s.cpus[c].frames == [] then Searching(s.cpus[c].pc)
            else InTrap(s.cpus[c].pc) && Searching(s.cpus[c].frames[0])
    ensures PcOk(s.cpus[c].on, s.cpus[c].pc)
    ensures s.cpus[c].pc.YieldStart? ==> s.cpus[c].proc.Some?
  {
    hide Searching, InTrap, FramesOk, LockView, IntrView, OwnerView;
  }

  lemma SearchAcquire(s: State, c: nat)
    requires c < |s.cpus| && CpuView(s, c) && s.cpus[c].on.Some? && Waits(OnCpu(s, c)) && Nested(OnCpu(s, c))
    requires s.cpus[c].pc.Acq?
    ensures var s' := Acquire(s, c);
            && |s'.cpus| == |s.cpus| && s'.cpus[c].on == s.cpus[c].on
            && (s'.cpus[c].pc.Halt? || Waits(OnCpu(s', c)))
  {
    SearchPoint(s, c);
    hide CpuView, Nested, InTrap;
  }

  lemma SearchRelease(s: State, c: nat)
    requires c < |s.cpus| && CpuView(s, c) && s.cpus[c].on.Some? && Waits(OnCpu(s, c)) && Nested(OnCpu(s, c))
    requires s.cpus[c].pc.Rel?
    ensures var s' := Release(s, c);
            && |s'.cpus| == |s.cpus| && s'.cpus[c].on == s.cpus[c].on
            && (s'.cpus[c].pc.Halt? || Waits(OnCpu(s', c)))
  {
    SearchPoint(s, c);
    hide CpuView, Nested, InTrap;
  }

  lemma SearchLeave(s: State, c: nat)
    requires c < |s.cpus| && CpuView(s, c) && s.cpus[c].on.Some? && Waits(OnCpu(s, c)) && Nested(OnCpu(s, c))
    requires Leaving(s.cpus[c].pc)
    ensures var s', p := Leave(s, c), s.cpus[c].on.value;
            && |s'.cpus| == |s.cpus|
            && if s.cpus[c].pc.YieldSwtch? then Waits(Thread(s'.procs[p].ctx, s'.procs[p].frames))
               else s'.cpus[c].on == s.cpus[c].on && Waits(OnCpu(s', c))
  {
    SearchPoint(s, c);
    hide CpuView, Nested;
  }

  lemma SearchScan(s: State, c: nat)
    requires c < |s.cpus| && CpuView(s, c) && s.cpus[c].on.Some? && Waits(OnCpu(s, c)) && Nested(OnCpu(s, c))
    requires Scanning(s.cpus[c].pc)
    ensures var s' := Scan(s, c);
            |s'.cpus| == |s.cpus| && s'.cpus[c].on == s.cpus[c].on && (Waits(OnCpu(s', c)) || Returned(s, c, s'))
  {
    SearchPoint(s, c);
    hide CpuView, Nested;
  }

  lemma SearchChoose(s: State, c: nat, s': State)
    requires c < |s.cpus| && CpuView(s, c) && s.cpus[c].on.Some? && Waits(OnCpu(s, c)) && Nested(OnCpu(s, c))
    requires Choose(s, c, s')
    ensures |s'.cpus| == |s.cpus| && s'.cpus[c].on == s.cpus[c].on && Waits(OnCpu(s', c))
  {
    SearchPoint(s, c);
    hide CpuView, Nested;
  }

  /** The process on a CPU is in that CPU's registers until it leaves. */
  lemma OnThread(s: State, c: nat, p: Slot)
    requires Inv(s) && c < |s.cpus| && s.cpus[c].on == Some(p)
    ensures ThreadOf(s, p) == OnCpu(s, c)
  {
    OnOwned(s, c);
    hide Inv;
  }

  /** A process in sys_wait's loop stays in it, interrupted or not and on whatever CPU, until it is returned a child. */
  lemma WaitsOn(s: State, c: nat, s': State, p: Slot)
    requires Inv(s) && AllNested(s) && c < |s.cpus| && Step(s, c, s') && Alive(s.procs[p]) && Waits(ThreadOf(s, p))
    ensures Waits(ThreadOf(s', p)) || (s.cpus[c].on == Some(p) && Returned(s, c, s'))
  {
    if s.cpus[c].on != Some(p) {
      ThreadStays(s, c, s', p);
    } else {
      OnThread(s, c, p);
      StepInv(s, c, s');
      InvCpu(s, c);
      NestedOn(s, c);
      hide *;
      if s.cpus[c].pc.YieldSwtch? {
        YieldLeaves(s, c, s', p);
        LeavesSearching(s, c, s');
      } else {
        WaitsOwn(s, c, s');
        if !Returned(s, c, s') {
          OnThread(s', c, p);
        }
      }
    }
  }

  lemma LeavesSearching(s: State, c: nat, s': State)
    requires c < |s.cpus| && CpuView(s, c) && s.cpus[c].on.Some? && Waits(OnCpu(s, c)) && Nested(OnCpu(s, c))
    requires s.cpus[c].pc.YieldSwtch? && Step(s, c, s')
    ensures Waits(Thread(Rel(TestLocked, YieldDone(s.cpus[c].pc.to)), s.cpus[c].frames))
  {
    SearchPoint(s, c);
    hide CpuView, Nested, Step;
  }

  lemma NoHalt(s: State, c: nat)
    requires Inv(s) && c < |s.cpus|
    ensures !s.cpus[c].pc.Halt?
  {
    InvCpu(s, c);
    hide Inv;
  }

  lemma OffSwitch(s: State, c: nat)
    requires c < |s.cpus| && CpuView(s, c) && s.cpus[c].on.Some?
    ensures !Scheduling(s.cpus[c].pc)
  {
    hide LockView, IntrView, OwnerView;
  }

  lemma WaitsOwn(s: State, c: nat, s': State)
    requires Inv(s') && c < |s.cpus| && CpuView(s, c) && Nested(OnCpu(s, c)) && Step(s, c, s')
    requires s.cpus[c].on.Some? && Waits(OnCpu(s, c)) && !s.cpus[c].pc.YieldSwtch?
    ensures Returned(s, c, s') || (c < |s'.cpus| && s'.cpus[c].on == s.cpus[c].on && Waits(OnCpu(s', c)))
  {
    hide Inv, Nested, Waits, OnCpu, CpuView, Timer, Acquire, Release, Scheduling, Leaving, Scanning;
    hide Schedule, Leave, Scan, Choose, Returned;
    var pc := s.cpus[c].pc;
    OffSwitch(s, c);
    if c < |s'.cpus| { NoHalt(s', c); }
    if Timer(s, c, s') { SearchTimer(s, c, s'); }
    else if pc.Acq? { SearchAcquire(s, c); }
    else if pc.Rel? { SearchRelease(s, c); }
    else if Leaving(pc) { SearchLeave(s, c); }
    else if Scanning(pc) { SearchScan(s, c); }
    else { SearchChoose(s, c, s'); }
  }

  /** Over every run: a process in sys_wait's loop is still there, unless since then a step has returned it a child. */
  lemma {:induction false} WaitsUntilReturned(ss: seq<State>, cs: seq<nat>, i: nat, j: nat, p: Slot)
    requires IsRun(ss, cs) && i <= j < |ss| && Alive(ss[i].procs[p]) && Waits(ThreadOf(ss[i], p))
    requires forall k :: i <= k < j ==> !ReturnedAt(ss, cs, k, p)
    ensures Alive(ss[j].procs[p]) && Waits(ThreadOf(ss[j], p))
  {
    hide Step, Inv, ThreadOf, Alive, Waits, AllNested;
    if i < j {
      WaitsUntilReturned(ss, cs, i, j - 1, p);
      RunInv(ss, cs, j - 1);
      RunNested(ss, cs, j - 1);
      assert RunStep(ss, cs, j - 1) && !ReturnedAt(ss, cs, j - 1, p);
      WaitsOn(ss[j - 1], cs[j - 1], ss[j], p);
      StaysAlive(ss[j - 1], cs[j - 1], ss[j], p);
    }
  }

  /** Step k returns a child to the process of slot p. */
  predicate ReturnedAt(ss: seq<State>, cs: seq<nat>, k: nat, p: Slot) {
    && k < |cs| && k + 1 < |ss| && cs[k] < |ss[k].cpus| && ss[k].cpus[cs[k]].on == Some(p)
    && Returned(ss[k], cs[k], ss[k + 1])
  }

  /** A process in the loop does not exit. */
  lemma StaysAlive(s: State, c: nat, s': State, p: Slot)
    requires Inv(s) && AllNested(s) && c < |s.cpus| && Step(s, c, s') && Alive(s.procs[p]) && Waits(ThreadOf(s, p))
    ensures Alive(s'.procs[p])
  {
    if s.cpus[c].on != Some(p) {
      ThreadStays(s, c, s', p);
    } else {
      OnThread(s, c, p);
      InvCpu(s, c);
      NestedOn(s, c);
      SearchPoint(s, c);
      Lifecycle(s, c, s', p);
      hide *;
      AliveMoves(s.cpus[c].pc, p, s.procs[p], s'.procs[p]);
      NotExiting(s, c);
    }
  }

  lemma AliveMoves(pc: Pc, p: Slot, r: Proc, r': Proc)
    requires Alive(r) && (r'.state == r.state || Moves(pc, p, r.state, r'.state))
    ensures Alive(r') || pc.ExitMark?
  {
  }

  lemma NotExiting(s: State, c: nat)
    requires c < |s.cpus| && (Searching(s.cpus[c].pc) || InTrap(s.cpus[c].pc))
    ensures !s.cpus[c].pc.ExitMark?
  {
  }

  /** The lock's push of the interrupt flag is still on record. */
  predicate FlagHeld(u: Cpu, flag: bool) {
    Pushed(u.pc) && u.ncli == 1 && !u.intr && u.intena == flag
  }

  predicate Pops(pc: Pc) {
    pc.Rel? && pc.stage.Pop?
  }

  /** The registers of pushcli and popcli as they were, and not yet the end of the section. */
  predicate FlagSame(u: Cpu, u': Cpu) {
    u'.ncli == u.ncli && u'.intr == u.intr && u'.intena == u.intena && (u'.pc.Halt? || Pushed(u'.pc))
  }

  lemma FlagAcquire(s: State, c: nat)
    requires c < |s.cpus| && s.cpus[c].pc.Acq? && !s.cpus[c].pc.at.Push?
    ensures |Acquire(s, c).cpus| == |s.cpus| && FlagSame(s.cpus[c], Acquire(s, c).cpus[c])
  {
  }

  lemma FlagRelease(s: State, c: nat)
    requires c < |s.cpus| && s.cpus[c].pc.Rel? && !s.cpus[c].pc.stage.Pop?
    ensures |Release(s, c).cpus| == |s.cpus| && FlagSame(s.cpus[c], Release(s, c).cpus[c])
  {
    hide AfterRelease;
  }

  lemma FlagSchedule(s: State, c: nat)
    requires c < |s.cpus| && Scheduling(s.cpus[c].pc) && Pushed(s.cpus[c].pc) && !Switching(s.cpus[c].pc)
    ensures |Schedule(s, c).cpus| == |s.cpus| && FlagSame(s.cpus[c], Schedule(s, c).cpus[c])
  {
  }

  lemma FlagLeave(s: State, c: nat)
    requires c < |s.cpus| && Leaving(s.cpus[c].pc) && !Switching(s.cpus[c].pc)
    ensures |Leave(s, c).cpus| == |s.cpus| && FlagSame(s.cpus[c], Leave(s, c).cpus[c])
  {
  }

  lemma FlagScan(s: State, c: nat)
    requires c < |s.cpus| && Scanning(s.cpus[c].pc)
    ensures |Scan(s, c).cpus| == |s.cpus| && FlagSame(s.cpus[c], Scan(s, c).cpus[c])
  {
  }

  /** Outside the lock nothing is pushed. */
  lemma FlagPoint(pc: Pc)
    requires Pushed(pc) && !Switching(pc) && !Pops(pc)
    ensures pc.Acq? || pc.Rel? || Scheduling(pc) || Leaving(pc) || Scanning(pc)
    ensures pc.Acq? ==> !pc.at.Push?
    ensures pc.Rel? ==> !pc.stage.Pop?
  {
  }

  /** A step inside the section, other than a switch and the closing popcli, leaves the record alone. */
  lemma FlagStep(s: State, c: nat, s': State, flag: bool)
    requires Inv(s) && c < |s.cpus| && FlagHeld(s.cpus[c], flag) && Step(s, c, s')
    requires !Switching(s.cpus[c].pc) && !Pops(s.cpus[c].pc)
    ensures c < |s'.cpus| && FlagHeld(s'.cpus[c], flag)
  {
    hide Inv, Pushed, Scheduling, Leaving, Scanning, Switching, Pops, Acquire, Release, Schedule, Leave, Scan, Choose;
    StepInv(s, c, s');
    SameCpus(s, c, s');
    NoHalt(s', c);
    var pc := s.cpus[c].pc;
    FlagPoint(pc);
    if pc.Acq? { FlagAcquire(s, c); }
    else if pc.Rel? { FlagRelease(s, c); }
    else if Scheduling(pc) { FlagSchedule(s, c); }
    else if Leaving(pc) { FlagLeave(s, c); }
    else { FlagScan(s, c); }
  }

  /** Over every run: between pushcli and popcli of one section with no switch in it the interrupt flag is kept. */
  lemma {:induction false} FlagKept(ss: seq<State>, cs: seq<nat>, i: nat, j: nat, c: nat)
    requires IsRun(ss, cs) && i < j < |ss| && cs[i] == c && c < |ss[i].cpus| && ss[i].cpus[c].pc.Acq?
    requires ss[i].cpus[c].pc.at.Push? && c < |ss[i + 1].cpus| && ss[i + 1].cpus[c].pc.Acq?
    requires ss[i + 1].cpus[c].pc.at.CheckLocked?
    requires forall k :: i < k < j && cs[k] == c ==>
               c < |ss[k].cpus| && !Switching(ss[k].cpus[c].pc) && !Pops(ss[k].cpus[c].pc)
    ensures c < |ss[j].cpus| && FlagHeld(ss[j].cpus[c], ss[i].cpus[c].intr)
  {
    hide Step, Inv, FlagHeld, Pushed;
    if i + 1 == j {
      assert RunStep(ss, cs, i);
      RunInv(ss, cs, i);
      SameCpus(ss[i], c, ss[j]);
      Pushes(ss[i], c, ss[j]);
    } else {
      FlagKept(ss, cs, i, j - 1, c);
      RunInv(ss, cs, j - 1);
      assert RunStep(ss, cs, j - 1);
      if cs[j - 1] == c {
        FlagStep(ss[j - 1], c, ss[j], ss[i].cpus[c].intr);
      } else {
        OtherSteps(ss[j - 1], cs[j - 1], ss[j], c);
      }
    }
  }

  lemma Pushes(s: State, c: nat, s': State)
    requires Inv(s) && c < |s.cpus| == |s'.cpus| && Step(s, c, s') && s.cpus[c].pc.Acq? && s.cpus[c].pc.at.Push?
    requires s'.cpus[c].pc.Acq? && s'.cpus[c].pc.at.CheckLocked?
    ensures FlagHeld(s'.cpus[c], s.cpus[c].intr)
  {
    InvCpu(s, c);
    hide Inv, PcOk, FramesOk, LockView, OwnerView, Quiet, Calm;
  }

  /** popcli at the end of such a section puts the flag back as it was before pushcli. */
  lemma FlagRestored(ss: seq<State>, cs: seq<nat>, i: nat, j: nat, c: nat)
    requires IsRun(ss, cs) && i < j < |cs| && cs[i] == c == cs[j] && c < |ss[i].cpus| && ss[i].cpus[c].pc.Acq?
    requires ss[i].cpus[c].pc.at.Push? && c < |ss[i + 1].cpus| && ss[i + 1].cpus[c].pc.Acq?
    requires ss[i + 1].cpus[c].pc.at.CheckLocked?
    requires forall k :: i < k < j && cs[k] == c ==>
               c < |ss[k].cpus| && !Switching(ss[k].cpus[c].pc) && !Pops(ss[k].cpus[c].pc)
    requires c < |ss[j].cpus| && Pops(ss[j].cpus[c].pc)
    ensures c < |ss[j + 1].cpus| && ss[j + 1].cpus[c].intr == ss[i].cpus[c].intr
    ensures ss[j + 1].cpus[c].ncli == 0 && !Pushed(ss[j + 1].cpus[c].pc)
  {
    hide Step, Inv, FlagHeld, Pushed;
    FlagKept(ss, cs, i, j, c);
    assert RunStep(ss, cs, j);
    RunInv(ss, cs, j);
    PopsFlag(ss[j], c, ss[j + 1], ss[i].cpus[c].intr);
  }

  lemma PopsFlag(s: State, c: nat, s': State, flag: bool)
    requires Inv(s) && c < |s.cpus| && FlagHeld(s.cpus[c], flag) && Step(s, c, s') && Pops(s.cpus[c].pc)
    ensures c < |s'.cpus| && s'.cpus[c].intr == flag && s'.cpus[c].ncli == 0 && !Pushed(s'.cpus[c].pc)
  {
    StepInv(s, c, s');
    SameCpus(s, c, s');
    InvCpu(s', c);
    InvCpu(s, c);
    hide Inv, PcOk, FramesOk, LockView, OwnerView, AfterRelease;
  }

  /** User code, and a scheduler about to look for work. */
  predicate MustListen(pc: Pc) {
    pc.User? || pc == Acq(Push, ForSched)
  }

  /** There the timer can interrupt. */
  predicate Listens(u: Cpu) {
    MustListen(u.pc) ==> u.intr
  }

  lemma TimerListens(s: State, c: nat, s': State)
    requires c < |s.cpus| && Timer(s, c, s') && Listens(s.cpus[c])
    ensures c < |s'.cpus| && Listens(s'.cpus[c])
  {
  }

  lemma LockListens(s: State, c: nat)
    requires c < |s.cpus| && CpuView(s, c)
    ensures s.cpus[c].pc.Acq? && Listens(s.cpus[c]) ==>
              |Acquire(s, c).cpus| == |s.cpus| && Listens(Acquire(s, c).cpus[c])
    ensures s.cpus[c].pc.Rel? ==> |Release(s, c).cpus| == |s.cpus| && Listens(Release(s, c).cpus[c])
  {
    hide CpuView;
  }

  lemma SwitchListens(s: State, c: nat)
    requires c < |s.cpus| && CpuView(s, c)
    ensures Scheduling(s.cpus[c].pc) ==> |Schedule(s, c).cpus| == |s.cpus| && Listens(Schedule(s, c).cpus[c])
    ensures Leaving(s.cpus[c].pc) ==> |Leave(s, c).cpus| == |s.cpus| && Listens(Leave(s, c).cpus[c])
  {
    hide FramesOk, LockView, IntrView, BackOk;
  }

  lemma ScanListens(s: State, c: nat)
    requires c < |s.cpus| && Scanning(s.cpus[c].pc)
    ensures |Scan(s, c).cpus| == |s.cpus| && Listens(Scan(s, c).cpus[c])
  {
  }

  lemma ChooseListens(s: State, c: nat, s': State)
    requires c < |s.cpus| && Choose(s, c, s')
    ensures |s'.cpus| == |s.cpus| && Listens(s'.cpus[c])
  {
  }

  lemma StepListens(s: State, c: nat, s': State)
    requires Inv(s) && c < |s.cpus| && Step(s, c, s') && Listens(s.cpus[c])
    ensures c < |s'.cpus| && Listens(s'.cpus[c])
  {
    InvCpu(s, c);
    hide Inv, CpuView, Listens, Timer, Acquire, Release, Schedule, Leave, Scan, Choose;
    if Timer(s, c, s') { TimerListens(s, c, s'); }
    LockListens(s, c);
    SwitchListens(s, c);
    if Scanning(s.cpus[c].pc) { ScanListens(s, c); }
    if Choose(s, c, s') { ChooseListens(s, c, s'); }
  }

  /** Over every run interrupts are on in user mode and whenever a scheduler goes for the lock. */
  lemma {:induction false} RunListens(ss: seq<State>, cs: seq<nat>, i: nat, c: nat)
    requires IsRun(ss, cs) && i < |ss| && c < |ss[i].cpus|
    ensures ss[i].cpus[c].pc.User? || ss[i].cpus[c].pc == Acq(Push, ForSched) ==> ss[i].cpus[c].intr
  {
    hide Step, Inv, Init;
    if i == 0 {
      InitListens(ss[0], c);
    } else {
      RunInv(ss, cs, i - 1);
      assert RunStep(ss, cs, i - 1);
      SameCpus(ss[i - 1], cs[i - 1], ss[i]);
      RunListens(ss, cs, i - 1, c);
      if cs[i - 1] == c {
        StepListens(ss[i - 1], c, ss[i]);
      } else {
        OtherSteps(ss[i - 1], cs[i - 1], ss[i], c);
      }
    }
  }

  lemma InitListens(s: State, c: nat)
    requires Init(s) && c < |s.cpus|
    ensures !MustListen(s.cpus[c].pc)
  {
    assert FreshCpu(c, s.cpus[c]);
  }
}
