/**
 * What holds over every run: no panic is reached, every context switch happens under the lock and is
 * followed by one release by the same CPU, processes and CPUs match, kernel stacks are never shared.
 */
module SchedRuns {
  import opened Sched
  import opened SchedSafety

  /** A run from start-up: cs[i] is the CPU that takes step i. */
  ghost predicate IsRun(ss: seq<State>, cs: seq<nat>) {
    && |ss| == |cs| + 1 && Init(ss[0])
    && forall i :: 0 <= i < |cs| ==> RunStep(ss, cs, i)
  }

  ghost predicate RunStep(ss: seq<State>, cs: seq<nat>, i: nat)
    requires i < |cs| && |ss| == |cs| + 1
  {
    cs[i] < |ss[i].cpus| && Step(ss[i], cs[i], ss[i + 1])
  }

  lemma {:induction false} RunInv(ss: seq<State>, cs: seq<nat>, i: nat)
    requires IsRun(ss, cs) && i < |ss|
    ensures Inv(ss[i])
  {
    hide Step, Init, Inv;
    if i == 0 {
      InitInv(ss[0]);
    } else {
      RunInv(ss, cs, i - 1);
      assert RunStep(ss, cs, i - 1);
      StepInv(ss[i - 1], cs[i - 1], ss[i]);
    }
  }

  /** The halts of acquire, release and popcli, and the panic after sys_exit's switch, are unreachable. */
  lemma NeverHalts(ss: seq<State>, cs: seq<nat>, i: nat, c: nat)
    requires IsRun(ss, cs) && i < |ss| && c < |ss[i].cpus|
    ensures ss[i].cpus[c].pc != Halt
  {
    RunInv(ss, cs, i);
    hide IsRun;
    assert CpuView(ss[i], c);
  }

  predicate Switching(pc: Pc) {
    pc.SchedSwtch? || pc.YieldSwtch? || pc.ExitSwtch?
  }

  /** CPU c holds proc_lock with interrupts off, one pushcli deep. */
  predicate HasLock(s: State, c: nat)
    requires c < |s.cpus|
  {
    s.lock == Lock(Some(c), Some(c)) && s.cpus[c].ncli == 1 && !s.cpus[c].intr
  }

  /**
   * Every swtch happens with the lock held by that CPU and ncli at 1, and leaves it so on another
   * stack: in the scheduler's loop, or at the start of the release in yield or forkret.
   */
  lemma SwitchUnderLock(s: State, c: nat, s': State)
    requires Inv(s) && c < |s.cpus| && Switching(s.cpus[c].pc) && Step(s, c, s')
    ensures HasLock(s, c) && c < |s'.cpus| && HasLock(s', c) && s'.cpus[c].on != s.cpus[c].on
    ensures var pc := s'.cpus[c].pc;
            pc.SchedBack? || (pc.Rel? && pc.stage.TestLocked? && (pc.d.ForkRet? || pc.d.YieldDone?))
  {
    InvCpu(s, c);
    InvLock(s, c);
    hide Inv;
  }

  lemma InvLock(s: State, c: nat)
    requires Inv(s) && c < |s.cpus| && InSection(s.cpus[c].pc)
    ensures s.lock == Lock(Some(c), Some(c))
  {
    assert CpuView(s, c);
  }

  /** Of all the CPUs a step changes only its own. */
  predicate OwnStep(s: State, c: nat, s': State) {
    |s'.cpus| == |s.cpus| && forall d :: 0 <= d < |s.cpus| && d != c ==> s'.cpus[d] == s.cpus[d]
  }

  lemma LockOwn(s: State, c: nat)
    requires c < |s.cpus|
    ensures s.cpus[c].pc.Acq? ==> OwnStep(s, c, Acquire(s, c))
    ensures s.cpus[c].pc.Rel? ==> OwnStep(s, c, Release(s, c))
  {
  }

  lemma SwitchOwn(s: State, c: nat)
    requires c < |s.cpus|
    ensures Scheduling(s.cpus[c].pc) ==> OwnStep(s, c, Schedule(s, c))
    ensures Leaving(s.cpus[c].pc) ==> OwnStep(s, c, Leave(s, c))
  {
  }

  lemma ScanOwn(s: State, c: nat)
    requires c < |s.cpus|
    ensures Scanning(s.cpus[c].pc) ==> OwnStep(s, c, Scan(s, c))
  {
  }

  lemma ChooseOwn(s: State, c: nat, s': State)
    requires c < |s.cpus|
    ensures Choose(s, c, s') ==> OwnStep(s, c, s')
    ensures Timer(s, c, s') ==> OwnStep(s, c, s')
  {
  }

  lemma StepOwn(s: State, c: nat, s': State)
    requires c < |s.cpus| && Step(s, c, s')
    ensures OwnStep(s, c, s')
  {
    LockOwn(s, c);
    SwitchOwn(s, c);
    ScanOwn(s, c);
    ChooseOwn(s, c, s');
    hide Acquire, Release, Schedule, Leave, Scan, Choose, Timer, OwnStep;
  }

  /** A step by another CPU leaves the holder alone. */
  lemma OtherSteps(s: State, c: nat, s': State, d: nat)
    requires c < |s.cpus| && Step(s, c, s') && d < |s.cpus| && d != c
    ensures |s'.cpus| == |s.cpus| && s'.cpus[d] == s.cpus[d]
  {
    hide Step;
    StepOwn(s, c, s');
  }

  /** The holder keeps the lock until the store in its own release. */
  lemma HolderSteps(s: State, c: nat, s': State)
    requires Inv(s) && c < |s.cpus| && Step(s, c, s') && Holds(s.cpus[c].pc)
    requires !(s.cpus[c].pc.Rel? && s.cpus[c].pc.stage.Unlock?)
    ensures |s'.cpus| == |s.cpus| && Holds(s'.cpus[c].pc)
  {
    hide Inv, Holds, CpuView, Step;
    StepInv(s, c, s');
    HoldsTaker(s, c);
    TakerKept(s, c, s');
    HoldsTaker(s', c);
  }

  lemma HoldsTaker(s: State, c: nat)
    requires Inv(s) && c < |s.cpus|
    ensures Holds(s.cpus[c].pc) <==> s.lock.taker == Some(c)
    ensures Holds(s.cpus[c].pc) && s.cpus[c].pc.Acq? ==> s.cpus[c].pc.at.Own?
  {
    assert CpuView(s, c);
  }

  /** Only the exchange of acquire and the last store of release change who has the lock. */
  lemma TakerKept(s: State, c: nat, s': State)
    requires c < |s.cpus| && Step(s, c, s')
    requires var pc := s.cpus[c].pc; !(pc.Acq? && pc.at.Spin?) && !(pc.Rel? && pc.stage.Unlock?)
    ensures |s'.cpus| == |s.cpus| && s'.lock.taker == s.lock.taker
  {
  }

  /**
   * Whoever holds the lock at i holds it at j, unless in between it has itself executed the store of
   * its release. With SwitchUnderLock: each switch is followed by exactly one release, by the same CPU.
   */
  lemma {:induction false} HeldUntilReleased(ss: seq<State>, cs: seq<nat>, i: nat, j: nat, c: nat)
    requires IsRun(ss, cs) && i <= j < |ss| && c < |ss[i].cpus| && Holds(ss[i].cpus[c].pc)
    requires forall k :: i <= k < j ==> !Unlocks(ss, cs, k, c)
    ensures c < |ss[j].cpus| && Holds(ss[j].cpus[c].pc) && ss[j].lock.taker == Some(c)
  {
    hide Step, Inv, Holds;
    if i < j {
      HeldUntilReleased(ss, cs, i, j - 1, c);
      RunInv(ss, cs, j - 1);
      assert RunStep(ss, cs, j - 1) && !Unlocks(ss, cs, j - 1, c);
      if cs[j - 1] == c {
        HolderSteps(ss[j - 1], c, ss[j]);
      } else {
        OtherSteps(ss[j - 1], cs[j - 1], ss[j], c);
      }
    }
    RunInv(ss, cs, j);
    InvCpu(ss[j], c);
  }

  /** Step k is the store of 0 in a release by CPU c. */
  predicate Unlocks(ss: seq<State>, cs: seq<nat>, k: nat, c: nat) {
    k < |cs| && k < |ss| && cs[k] == c && c < |ss[k].cpus| && ss[k].cpus[c].pc.Rel? && ss[k].cpus[c].pc.stage.Unlock?
  }

  /** Step k is the exchange by which CPU c takes the free lock. */
  predicate Takes(ss: seq<State>, cs: seq<nat>, k: nat, c: nat) {
    && k < |cs| && k < |ss| && cs[k] == c && c < |ss[k].cpus|
    && ss[k].cpus[c].pc.Acq? && ss[k].cpus[c].pc.at.Spin? && ss[k].lock.taker.None?
  }

  /** A CPU that did not hold the lock at i and holds it at j has taken it in between. */
  lemma {:induction false} TakenBetween(ss: seq<State>, cs: seq<nat>, i: nat, j: nat, c: nat) returns (k: nat)
    requires IsRun(ss, cs) && i <= j < |ss| && c < |ss[i].cpus| && !Holds(ss[i].cpus[c].pc)
    requires c < |ss[j].cpus| && Holds(ss[j].cpus[c].pc)
    ensures i <= k < j && Takes(ss, cs, k, c)
  {
    hide Step, Inv, Holds;
    RunInv(ss, cs, j - 1);
    assert RunStep(ss, cs, j - 1);
    var s, s' := ss[j - 1], ss[j];
    SameCpus(s, cs[j - 1], s');
    if Holds(s.cpus[c].pc) {
      k := TakenBetween(ss, cs, i, j - 1, c);
    } else {
      k := j - 1;
      StepInv(s, cs[k], s');
      HoldsTaker(s, c);
      HoldsTaker(s', c);
      TakesLock(s, cs[k], s', c);
    }
  }

  lemma SameCpus(s: State, c: nat, s': State)
    requires c < |s.cpus| && Step(s, c, s')
    ensures |s'.cpus| == |s.cpus|
  {
    hide Step;
    StepOwn(s, c, s');
  }

  /** The taker changes to c only by c's own exchange of a free lock. */
  lemma TakesLock(s: State, c: nat, s': State, d: nat)
    requires c < |s.cpus| && Step(s, c, s') && s.lock.taker != Some(d) && s'.lock.taker == Some(d)
    ensures c == d && s.cpus[c].pc.Acq? && s.cpus[c].pc.at.Spin? && s.lock.taker.None?
  {
  }

  /** Between two releases by a CPU it takes the lock: for each time it holds the lock there is one release. */
  lemma OneReleaseEach(ss: seq<State>, cs: seq<nat>, i: nat, j: nat, c: nat) returns (k: nat)
    requires IsRun(ss, cs) && i < j && Unlocks(ss, cs, i, c) && Unlocks(ss, cs, j, c)
    ensures i < k < j && Takes(ss, cs, k, c)
  {
    hide Step, Inv;
    assert RunStep(ss, cs, i);
    RunInv(ss, cs, i);
    SameCpus(ss[i], c, ss[i + 1]);
    Unlocked(ss[i], c, ss[i + 1]);
    hide *;
    k := TakenBetween(ss, cs, i + 1, j, c);
  }

  lemma Unlocked(s: State, c: nat, s': State)
    requires Inv(s) && c < |s.cpus| == |s'.cpus| && Step(s, c, s') && s.cpus[c].pc.Rel? && s.cpus[c].pc.stage.Unlock?
    ensures !Holds(s'.cpus[c].pc)
  {
    InvCpu(s, c);
    hide Inv;
  }

  /**
   * While the lock is free, the process fields of the CPUs and the Running processes match one to one,
   * and a CPU with a process is on that process's kernel stack.
   */
  lemma FreeLockMatch(s: State)
    requires Inv(s) && s.lock.taker.None?
    ensures forall c :: 0 <= c < |s.cpus| && s.cpus[c].proc.Some? ==>
              s.procs[s.cpus[c].proc.value].state == Running && s.cpus[c].on == s.cpus[c].proc
    ensures forall c, d :: 0 <= c < d < |s.cpus| && s.cpus[c].proc.Some? ==> s.cpus[c].proc != s.cpus[d].proc
    ensures forall p: Slot :: s.procs[p].state == Running ==> exists c :: 0 <= c < |s.cpus| && s.cpus[c].proc == Some(p)
  {
    forall c | 0 <= c < |s.cpus| ensures FreeLockCpu(s, c) {
      FreeLockCpuView(s, c);
    }
    hide CpuView;
    forall p: Slot | s.procs[p].state == Running ensures exists c :: 0 <= c < |s.cpus| && s.cpus[c].proc == Some(p) {
      assert SlotView(s, p);
      var c := s.procs[p].owner.value;
      assert FreeLockCpu(s, c);
      assert s.cpus[c].proc == Some(p);
    }
    forall c, d | 0 <= c < d < |s.cpus| && s.cpus[c].proc.Some? ensures s.cpus[c].proc != s.cpus[d].proc {
      assert FreeLockCpu(s, c) && FreeLockCpu(s, d);
    }
    forall c | 0 <= c < |s.cpus| && s.cpus[c].proc.Some?
      ensures s.procs[s.cpus[c].proc.value].state == Running && s.cpus[c].on == s.cpus[c].proc
    {
      assert FreeLockCpu(s, c);
    }
  }

  predicate FreeLockCpu(s: State, c: nat)
    requires c < |s.cpus|
  {
    var u := s.cpus[c];
    && u.proc == u.on && Uses(u) == u.on
    && (u.on.Some? ==> s.procs[u.on.value].state == Running && s.procs[u.on.value].owner == Some(c))
    && (Builds(u.pc).Some? ==> s.procs[Builds(u.pc).value].state == Embryo)
  }

  lemma FreeLockCpuView(s: State, c: nat)
    requires Inv(s) && s.lock.taker.None? && c < |s.cpus|
    ensures FreeLockCpu(s, c)
  {
    InvCpu(s, c);
    hide Inv, PcOk, FramesOk, Resumable, IntrView;
  }

  /** The kernel stack CPU c is running on. */
  function StackOf(s: State, c: nat): Option<nat>
    requires c < |s.cpus|
  {
    if s.cpus[c].on.Some? then s.procs[s.cpus[c].on.value].kstack else None
  }

  /** A CPU on a process's stack is on an allocated one, and no two CPUs are on the same. */
  lemma StacksInUse(s: State)
    requires Inv(s)
    ensures forall c :: 0 <= c < |s.cpus| && s.cpus[c].on.Some? ==>
            StackOf(s, c).Some? && StackOf(s, c).value in s.stacks
    ensures forall c, d :: 0 <= c < |s.cpus| && 0 <= d < |s.cpus| && c != d && StackOf(s, c).Some? ==>
            StackOf(s, c) != StackOf(s, d)
  {
    forall c | 0 <= c < |s.cpus| && s.cpus[c].on.Some?
      ensures s.procs[s.cpus[c].on.value].owner == Some(c) && StackOf(s, c).Some? && StackOf(s, c).value in s.stacks
    {
      OnOwned(s, c);
    }
    assert StacksApart(s.procs);
    hide Inv;
  }

  lemma OnOwned(s: State, c: nat)
    requires Inv(s) && c < |s.cpus| && s.cpus[c].on.Some?
    ensures var r := s.procs[s.cpus[c].on.value];
            r.owner == Some(c) && r.kstack.Some? && r.kstack.value in s.stacks
  {
    InvCpu(s, c);
    SlotParts(s, s.cpus[c].on.value);
    hide Inv, PcOk, FramesOk, Resumable, IntrView, LockView;
  }

  /** A kernel stack is freed only while no CPU is on it. */
  lemma FreedUnused(s: State, c: nat, s': State, k: nat)
    requires Inv(s) && c < |s.cpus| && Step(s, c, s') && k in s.stacks && k !in s'.stacks
    ensures forall d :: 0 <= d < |s.cpus| ==> StackOf(s, d) != Some(k)
    ensures forall d :: 0 <= d < |s'.cpus| ==> StackOf(s', d) != Some(k)
  {
    StepInv(s, c, s');
    StacksInUse(s');
    FreedZombie(s, c, s', k);
    var i := s.cpus[c].pc.i;
    Unowned(s, c, i);
    SlotParts(s, i);
    forall d | 0 <= d < |s.cpus| ensures StackOf(s, d) != Some(k) {
      if s.cpus[d].on.Some? {
        OnOwned(s, d);
      }
    }
    hide Inv, Step;
  }

  lemma FreedZombie(s: State, c: nat, s': State, k: nat)
    requires c < |s.cpus| && Step(s, c, s') && k in s.stacks && k !in s'.stacks
    ensures s.cpus[c].pc.WaitScan? && s.cpus[c].pc.i < MAX_PROCS
    ensures var r := s.procs[s.cpus[c].pc.i]; r.state.Zombie? && r.kstack == Some(k)
  {
  }
}
