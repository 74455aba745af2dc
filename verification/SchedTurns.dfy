/**
 * Turns: how slots move between states, that a pass of the scheduler looks at every slot, that a
 * process goes on where it stopped, and that acquire and release leave the interrupt flag as it was.
 */
module SchedTurns {
  import opened Sched
  import opened SchedSafety
  import opened SchedRuns

  /** The moves of slot p between states, and the code that makes each. */
  predicate Moves(pc: Pc, p: Slot, a: ProcState, b: ProcState) {
    match a
    case Unused => b == Embryo && pc.AllocScan? && pc.i == p
    case Embryo =>
      if b == Runnable then pc.ReadyMark? && pc.slot == p
      else b == Unused && (pc.BuildStack? || pc.Build?) && pc.slot == p
    case Runnable => b == Running && pc.SchedScan? && pc.i == p
    case Running => if b == Runnable then pc.YieldMark? && pc.p == p else b == Zombie && pc.ExitMark? && pc.p == p
    case Zombie => b == Unused && pc.WaitScan? && pc.i == p
  }

  /** The point always makes the move. */
  predicate AlwaysMoves(pc: Pc, p: Slot) {
    (pc.ReadyMark? && pc.slot == p) || (pc.YieldMark? && pc.p == p) || (pc.ExitMark? && pc.p == p)
  }

  /** Over a step a slot stays in its state or makes one of these moves, which the three marks always make. */
  lemma Lifecycle(s: State, c: nat, s': State, p: Slot)
    requires Inv(s) && c < |s.cpus| && Step(s, c, s')
    ensures s'.procs[p].state == s.procs[p].state || Moves(s.cpus[c].pc, p, s.procs[p].state, s'.procs[p].state)
    ensures AlwaysMoves(s.cpus[c].pc, p) ==> s'.procs[p].state != s.procs[p].state
  {
    InvCpu(s, c);
    hide Inv, CpuView, Moves, AlwaysMoves, Timer, Acquire, Release, Schedule, Leave, Scan, Choose;
    MarksHeld(s, c, p);
    if Timer(s, c, s') { TimerMoves(s, c, s'); }
    LockMoves(s, c);
    if Scheduling(s.cpus[c].pc) { ScheduleMoves(s, c, p); }
    if Leaving(s.cpus[c].pc) { LeaveMoves(s, c, p); }
    if Scanning(s.cpus[c].pc) { ScanMoves(s, c, p); }
    if Choose(s, c, s') { ChooseMoves(s, c, s', p); }
  }

  /** A mark is made under the lock, where no timer interrupts. */
  lemma MarksHeld(s: State, c: nat, p: Slot)
    requires c < |s.cpus| && CpuView(s, c)
    ensures AlwaysMoves(s.cpus[c].pc, p) ==> !s.cpus[c].intr && (Leaving(s.cpus[c].pc) || Scanning(s.cpus[c].pc))
  {
    hide ThreadView, OwnerView, LockView;
  }

  lemma TimerMoves(s: State, c: nat, s': State)
    requires c < |s.cpus| && Timer(s, c, s')
    ensures s'.procs == s.procs && s.cpus[c].intr
  {
  }

  lemma LockMoves(s: State, c: nat)
    requires c < |s.cpus|
    ensures s.cpus[c].pc.Acq? ==> Acquire(s, c).procs == s.procs
    ensures s.cpus[c].pc.Rel? ==> Release(s, c).procs == s.procs
  {
  }

  /** What one kind of step does to the state of slot p. */
  predicate Moved(s: State, c: nat, s': State, p: Slot)
    requires c < |s.cpus|
  {
    && (s'.procs[p].state == s.procs[p].state || Moves(s.cpus[c].pc, p, s.procs[p].state, s'.procs[p].state))
    && (AlwaysMoves(s.cpus[c].pc, p) ==> s'.procs[p].state != s.procs[p].state)
  }

  lemma ScheduleMoves(s: State, c: nat, p: Slot)
    requires c < |s.cpus| && Scheduling(s.cpus[c].pc)
    ensures Moved(s, c, Schedule(s, c), p)
  {
  }

  lemma LeaveMoves(s: State, c: nat, p: Slot)
    requires c < |s.cpus| && CpuView(s, c) && Leaving(s.cpus[c].pc)
    ensures Moved(s, c, Leave(s, c), p)
  {
    hide FramesOk, LockView, IntrView, BackOk;
  }

  lemma ScanMoves(s: State, c: nat, p: Slot)
    requires c < |s.cpus| && CpuView(s, c) && Scanning(s.cpus[c].pc)
    ensures Moved(s, c, Scan(s, c), p)
  {
    hide FramesOk, LockView, IntrView, BackOk;
  }

  lemma ChooseMoves(s: State, c: nat, s': State, p: Slot)
    requires c < |s.cpus| && CpuView(s, c) && Choose(s, c, s')
    ensures Moved(s, c, s', p)
  {
    hide PcOk, FramesOk, LockView, IntrView, BackOk;
  }

  /** The slot a CPU has come to in a pass of its scheduler, -1 outside one; a process runs within the pass. */
  function Position(u: Cpu): int {
    if u.on.Some? then if u.sched.SchedBack? then u.sched.last else -1
    else match u.pc
      case SchedScan(i) => i
      case SchedSet(p) => p
      case SchedSwtch(p) => p
      case SchedBack(p) => p
      case _ => -1
  }

  /** The pass has looked at slot p. */
  predicate Past(u: Cpu, p: Slot) {
    Position(u) > p || (Position(u) == p && !AtSlot(u, p))
  }

  /** The scheduler is about to look at slot p. */
  predicate AtSlot(u: Cpu, p: Slot) {
    u.on.None? && u.pc == SchedScan(p)
  }

  /** At step j CPU c looks at slot p, in the pass it is still in at k. */
  ghost predicate LooksAt(ss: seq<State>, cs: seq<nat>, j: nat, k: nat, c: nat, p: Slot) {
    && j < k < |ss| == |cs| + 1 && cs[j] == c && (forall m :: j <= m <= k ==> c < |ss[m].cpus|)
    && (forall m :: j <= m <= k ==> Position(ss[m].cpus[c]) >= 0)
    && AtSlot(ss[j].cpus[c], p)
  }

  lemma PassBack(s: State, d: nat, s': State, c: nat, p: Slot)
    requires Inv(s) && d < |s.cpus| && Step(s, d, s') && c < |s'.cpus| && Past(s'.cpus[c], p)
    ensures c < |s.cpus| && Position(s.cpus[c]) >= 0
    ensures Past(s.cpus[c], p) || (c == d && AtSlot(s.cpus[c], p))
  {
    SameCpus(s, d, s');
    if c == d {
      hide Inv, Past, Position, CpuView;
      InvCpu(s, c);
      PassOwn(s, c, s', p);
    } else {
      OtherSteps(s, d, s', c);
      hide Inv, Step;
    }
  }

  lemma PassOwn(s: State, c: nat, s': State, p: Slot)
    requires c < |s.cpus| && CpuView(s, c) && Step(s, c, s') && c < |s'.cpus| && Past(s'.cpus[c], p)
    ensures Position(s.cpus[c]) >= 0
    ensures Past(s.cpus[c], p) || AtSlot(s.cpus[c], p)
  {
    hide CpuView, Past, Position, AtSlot, Timer, Acquire, Release, Schedule, Leave, Scan, Choose;
    if Timer(s, c, s') { PassTimer(s, c, s', p); }
    PassLock(s, c, p);
    PassSwitch(s, c, p);
    PassScan(s, c, p);
    if Choose(s, c, s') { PassChoose(s, c, s', p); }
    PastPosition(s.cpus[c], p);
  }

  lemma PassTimer(s: State, c: nat, s': State, p: Slot)
    requires c < |s.cpus| && CpuView(s, c) && Timer(s, c, s')
    ensures c < |s'.cpus| && (Past(s'.cpus[c], p) ==> Past(s.cpus[c], p))
  {
    hide CpuView;
  }

  lemma PassLock(s: State, c: nat, p: Slot)
    requires c < |s.cpus| && CpuView(s, c)
    ensures s.cpus[c].pc.Acq? ==>
              var s' := Acquire(s, c);
              |s'.cpus| == |s.cpus| && (Past(s'.cpus[c], p) ==> Past(s.cpus[c], p))
    ensures s.cpus[c].pc.Rel? ==>
              var s' := Release(s, c);
              |s'.cpus| == |s.cpus| && (Past(s'.cpus[c], p) ==> Past(s.cpus[c], p))
  {
    hide CpuView;
  }

  lemma PassSwitch(s: State, c: nat, p: Slot)
    requires c < |s.cpus| && CpuView(s, c)
    ensures Scheduling(s.cpus[c].pc) ==>
              var s' := Schedule(s, c);
              && |s'.cpus| == |s.cpus|
              && (Past(s'.cpus[c], p) ==> Past(s.cpus[c], p) || AtSlot(s.cpus[c], p))
    ensures Leaving(s.cpus[c].pc) ==>
              var s' := Leave(s, c);
              |s'.cpus| == |s.cpus| && (Past(s'.cpus[c], p) ==> Past(s.cpus[c], p))
  {
    hide FramesOk, LockView, IntrView, OwnerView, BackOk;
  }

  lemma PassScan(s: State, c: nat, p: Slot)
    requires c < |s.cpus| && CpuView(s, c)
    ensures Scanning(s.cpus[c].pc) ==>
              var s' := Scan(s, c);
              |s'.cpus| == |s.cpus| && (Past(s'.cpus[c], p) ==> Past(s.cpus[c], p))
  {
    hide CpuView;
  }

  lemma PassChoose(s: State, c: nat, s': State, p: Slot)
    requires c < |s.cpus| && CpuView(s, c) && Choose(s, c, s')
    ensures c < |s'.cpus| && (Past(s'.cpus[c], p) ==> Past(s.cpus[c], p))
  {
    hide LockView, IntrView, OwnerView, FramesOk;
  }

  /** A pass that is past slot p has looked at it. */
  lemma {:induction false} LookedAt(ss: seq<State>, cs: seq<nat>, k: nat, c: nat, p: Slot) returns (j: nat)
    requires IsRun(ss, cs) && k < |ss| && c < |ss[k].cpus| && Past(ss[k].cpus[c], p)
    ensures LooksAt(ss, cs, j, k, c, p)
  {
    hide Step, Inv, Init, Past;
    PastPosition(ss[k].cpus[c], p);
    if k == 0 {
      InitPosition(ss[0], c, p);
    }
    RunInv(ss, cs, k - 1);
    assert RunStep(ss, cs, k - 1);
    PassBack(ss[k - 1], cs[k - 1], ss[k], c, p);
    if Past(ss[k - 1].cpus[c], p) {
      j := LookedAt(ss, cs, k - 1, c, p);
    } else {
      j := k - 1;
    }
  }

  lemma PastPosition(u: Cpu, p: Slot)
    ensures Past(u, p) || AtSlot(u, p) ==> Position(u) >= 0
  {
  }

  lemma InitPosition(s: State, c: nat, p: Slot)
    requires Init(s) && c < |s.cpus|
    ensures !Past(s.cpus[c], p)
  {
    assert FreshCpu(c, s.cpus[c]);
  }

  /**
   * The scheduler lets go of the lock only at the end of a pass that has looked at each of the 64
   * slots: it claims the process there if it is runnable.
   */
  lemma PassSeesAll(ss: seq<State>, cs: seq<nat>, k: nat, c: nat, p: Slot) returns (j: nat)
    requires IsRun(ss, cs) && k < |cs| && cs[k] == c && c < |ss[k].cpus| && c < |ss[k + 1].cpus|
    requires ss[k + 1].cpus[c].pc == Rel(TestLocked, SchedDone)
    ensures LooksAt(ss, cs, j, k, c, p) && c < |ss[j + 1].cpus|
    ensures ss[j].procs[p].state.Runnable? ==>
              ss[j + 1].procs[p].state.Running? && ss[j + 1].cpus[c].pc == SchedSet(p)
  {
    hide Step, Inv, Init, Past;
    RunInv(ss, cs, k);
    assert RunStep(ss, cs, k);
    EndsPass(ss[k], c, ss[k + 1], p);
    j := LookedAt(ss, cs, k, c, p);
    assert RunStep(ss, cs, j);
    RunInv(ss, cs, j);
    SameCpus(ss[j], c, ss[j + 1]);
    if ss[j].procs[p].state.Runnable? {
      Claims(ss[j], c, ss[j + 1], p);
    }
  }

  lemma EndsPass(s: State, c: nat, s': State, p: Slot)
    requires Inv(s) && c < |s.cpus| && Step(s, c, s') && c < |s'.cpus| && s'.cpus[c].pc == Rel(TestLocked, SchedDone)
    ensures Past(s.cpus[c], p)
  {
    hide Inv, CpuView;
    InvCpu(s, c);
    DoneFrom(s, c, s');
    hide Step;
  }

  lemma DoneFrom(s: State, c: nat, s': State)
    requires c < |s.cpus| && CpuView(s, c) && Step(s, c, s') && c < |s'.cpus|
             && s'.cpus[c].pc == Rel(TestLocked, SchedDone)
    ensures s.cpus[c].on.None? && s.cpus[c].pc.SchedScan? && s.cpus[c].pc.i >= 64
  {
    hide CpuView, Timer, Acquire, Release, Schedule, Leave, Scan, Choose;
    if Timer(s, c, s') { DoneTimer(s, c, s'); }
    DoneLock(s, c);
    DoneSwitch(s, c);
    DoneScan(s, c);
    if Choose(s, c, s') { DoneChoose(s, c, s'); }
  }

  lemma DoneTimer(s: State, c: nat, s': State)
    requires c < |s.cpus| && CpuView(s, c) && Timer(s, c, s')
    ensures c < |s'.cpus| && s'.cpus[c].pc != Rel(TestLocked, SchedDone)
  {
    hide PcOk, LockView, FramesOk, OwnerView, Quiet, Calm;
  }

  lemma DoneLock(s: State, c: nat)
    requires c < |s.cpus| && CpuView(s, c)
    ensures s.cpus[c].pc.Acq? ==>
              |Acquire(s, c).cpus| == |s.cpus| && Acquire(s, c).cpus[c].pc != Rel(TestLocked, SchedDone)
    ensures s.cpus[c].pc.Rel? ==>
              |Release(s, c).cpus| == |s.cpus| && Release(s, c).cpus[c].pc != Rel(TestLocked, SchedDone)
  {
    hide CpuView;
  }

  lemma DoneSwitch(s: State, c: nat)
    requires c < |s.cpus| && CpuView(s, c)
    ensures Scheduling(s.cpus[c].pc) ==>
              var s' := Schedule(s, c);
              && |s'.cpus| == |s.cpus|
              && (s'.cpus[c].pc == Rel(TestLocked, SchedDone) ==>
                    s.cpus[c].on.None? && s.cpus[c].pc.SchedScan? && s.cpus[c].pc.i >= 64)
    ensures Leaving(s.cpus[c].pc) ==>
              |Leave(s, c).cpus| == |s.cpus| && Leave(s, c).cpus[c].pc != Rel(TestLocked, SchedDone)
  {
    hide FramesOk, LockView, IntrView, BackOk;
  }

  lemma DoneScan(s: State, c: nat)
    requires c < |s.cpus| && CpuView(s, c)
    ensures Scanning(s.cpus[c].pc) ==>
              |Scan(s, c).cpus| == |s.cpus| && Scan(s, c).cpus[c].pc != Rel(TestLocked, SchedDone)
  {
    hide CpuView;
  }

  lemma DoneChoose(s: State, c: nat, s': State)
    requires c < |s.cpus| && CpuView(s, c) && Choose(s, c, s')
    ensures c < |s'.cpus| && s'.cpus[c].pc != Rel(TestLocked, SchedDone)
  {
    hide LockView, IntrView, OwnerView, FramesOk;
    if s.cpus[c].pc.IntReturn? {
      FrameParts(s.cpus[c].on, s.cpus[c].frames);
    }
  }

  lemma Claims(s: State, c: nat, s': State, p: Slot)
    requires Inv(s) && c < |s.cpus| && Step(s, c, s') && s.cpus[c].pc == SchedScan(p) && s.procs[p].state.Runnable?
    ensures s'.procs[p].state.Running? && c < |s'.cpus| && s'.cpus[c].pc == SchedSet(p)
  {
    InvCpu(s, c);
    hide Inv, PcOk, FramesOk, LockView, Resumable, OwnerView;
  }
}
