/**
 * What the calls that scan the process table promise over every run: who becomes the parent of a new
 * process, that a scan which finds nothing has looked at every slot, and whom sys_wait returns.
 */
module SchedCalls {
  import opened Sched
  import opened SchedSafety
  import opened SchedRuns
  import opened SchedHistory

  /** The identifier of the process whose kernel stack CPU c is on; 0 on a scheduler's or the boot stack. */
  function PidOn(s: State, c: nat): nat
    requires c < |s.cpus|
  {
    match s.cpus[c].on
    case Some(q) => s.procs[q].pid
    case None => 0
  }

  /** What one step logs: at most one event, and that by the CPU's own code. */
  lemma StepLogs(s: State, c: nat, s': State)
    requires c < |s.cpus| && Step(s, c, s')
    ensures s.log <= s'.log && |s'.log| <= |s.log| + 1
    ensures s'.log != s.log ==>
              var pc, e := s.cpus[c].pc, s'.log[|s.log|];
              && (e.Parented? ==> pc.Build? && s' == Built(s, c, pc.maker, pc.slot))
              && (e.Reaped? ==> pc.WaitScan? && pc.i < 64 && s' == Reap(s, c, pc.parent, pc.i)
                                && s.procs[pc.i].state.Zombie?)
  {
    hide Critical, AfterRelease, AfterYield, Caller, PushCli, PopCli;
  }

  /** The new process is the child of the process that runs on the CPU, or of none on the boot CPU. */
  lemma CreatorIsParent(s: State, c: nat, s': State, pid: nat, ppid: nat)
    requires Inv(s) && c < |s.cpus| && Step(s, c, s') && s'.log == s.log + [Parented(pid, ppid)]
    ensures ppid == PidOn(s, c)
    ensures exists p: Slot :: s'.procs[p].pid == pid && s'.procs[p].ppid == ppid && s'.procs[p].state.Embryo?
  {
    StepLogs(s, c, s');
    assert s'.log[|s.log|] == Parented(pid, ppid);
    InvCpu(s, c);
    BuilderState(s, c);
    hide Inv, Step, LockView, IntrView, OwnerView;
    var p := s.cpus[c].pc.slot;
    assert s'.log[|s.log|] == Parented(s.procs[p].pid, s'.procs[p].ppid);
    assert s'.procs[p].pid == pid && s'.procs[p].ppid == ppid && s'.procs[p].state.Embryo?;
  }

  /**
   * sys_wait returns a zombie to the process that runs on the CPU: with the zombie's identifier and
   * exit code, its slot free again and its kernel stack released.
   */
  lemma WaiterReaps(s: State, c: nat, s': State, parent: nat, pid: nat, code: int)
    requires Inv(s) && c < |s.cpus| && Step(s, c, s') && s'.log == s.log + [Reaped(parent, pid, code)]
    ensures s.cpus[c].on.Some? && parent == PidOn(s, c)
    ensures exists p: Slot ::
              var r := s.procs[p];
              && r.state.Zombie? && r.pid == pid && r.exitCode == code && r.kstack.Some? && r.kstack.value in s.stacks
              && s'.procs[p].state.Unused? && s'.procs[p].kstack.None? && s'.stacks == s.stacks - {r.kstack.value}
  {
    StepLogs(s, c, s');
    assert s'.log[|s.log|] == Reaped(parent, pid, code);
    InvCpu(s, c);
    var p := s.cpus[c].pc.i;
    SlotParts(s, p);
    hide Inv, Step, LockView, IntrView, OwnerView;
    assert s'.log[|s.log|] == Reaped(PidOn(s, c), s.procs[p].pid, s.procs[p].exitCode);
    assert s.procs[p].state.Zombie? && s'.procs[p].state.Unused? && s'.procs[p].kstack.None?;
  }

  /** Step k of the run logs event i of state n. */
  ghost predicate LogsAt(ss: seq<State>, cs: seq<nat>, n: nat, i: nat, k: nat) {
    && k < n < |ss| == |cs| + 1 && cs[k] < |ss[k].cpus| && i < |ss[n].log|
    && i == |ss[k].log| && ss[k + 1].log == ss[k].log + [ss[n].log[i]]
  }

  /** Every event of a run was logged by one of its steps. */
  lemma {:induction false} LoggedAt(ss: seq<State>, cs: seq<nat>, n: nat, i: nat) returns (k: nat)
    requires IsRun(ss, cs) && n < |ss| && i < |ss[n].log|
    ensures LogsAt(ss, cs, n, i, k)
  {
    hide Step;
    assert n > 0;
    assert RunStep(ss, cs, n - 1);
    StepLogs(ss[n - 1], cs[n - 1], ss[n]);
    if i < |ss[n - 1].log| {
      k := LoggedAt(ss, cs, n - 1, i);
      assert ss[n - 1].log[i] == ss[n].log[i];
    } else {
      k := n - 1;
    }
  }

  /** Over every run: the parent on record is the process that ran on the CPU which made the child. */
  lemma CreatedBy(ss: seq<State>, cs: seq<nat>, n: nat, i: nat) returns (k: nat)
    requires IsRun(ss, cs) && n < |ss| && i < |ss[n].log| && ss[n].log[i].Parented?
    ensures LogsAt(ss, cs, n, i, k) && ss[n].log[i].ppid == PidOn(ss[k], cs[k])
  {
    k := LoggedAt(ss, cs, n, i);
    hide Step, Inv, PidOn;
    RunInv(ss, cs, k);
    assert RunStep(ss, cs, k);
    CreatorIsParent(ss[k], cs[k], ss[k + 1], ss[n].log[i].pid, ss[n].log[i].ppid);
  }

  /** A point inside a scan of the table, or at its end without a find. */
  predicate MidScan(pc: Pc) {
    || (pc.WaitScan? && pc.i > 0) || (pc.AllocScan? && pc.i > 0)
    || (pc.Rel? && pc.stage.TestLocked? && (pc.d.WaitNone? || pc.d.AllocNone?))
  }

  lemma TimerNotMid(s: State, c: nat, s': State)
    requires c < |s.cpus| && CpuView(s, c) && Timer(s, c, s')
    ensures c < |s'.cpus| && !MidScan(s'.cpus[c].pc)
  {
    hide PcOk, FramesOk, LockView, OwnerView, Quiet, Calm;
  }

  lemma LockNotMid(s: State, c: nat)
    requires c < |s.cpus|
    ensures s.cpus[c].pc.Acq? ==> |Acquire(s, c).cpus| == |s.cpus| && !MidScan(Acquire(s, c).cpus[c].pc)
    ensures s.cpus[c].pc.Rel? && CpuView(s, c) ==>
              |Release(s, c).cpus| == |s.cpus| && !MidScan(Release(s, c).cpus[c].pc)
  {
    hide CpuView;
  }

  lemma SwitchNotMid(s: State, c: nat)
    requires c < |s.cpus| && CpuView(s, c)
    ensures Scheduling(s.cpus[c].pc) ==> |Schedule(s, c).cpus| == |s.cpus| && !MidScan(Schedule(s, c).cpus[c].pc)
    ensures Leaving(s.cpus[c].pc) ==> |Leave(s, c).cpus| == |s.cpus| && !MidScan(Leave(s, c).cpus[c].pc)
  {
    hide FrameOk, FramesOk, LockView, IntrView, BackOk;
  }

  lemma ChooseNotMid(s: State, c: nat, s': State)
    requires c < |s.cpus| && CpuView(s, c) && Choose(s, c, s')
    ensures c < |s'.cpus| && !MidScan(s'.cpus[c].pc)
  {
    hide LockView, IntrView, OwnerView, FramesOk;
    if s.cpus[c].pc.IntReturn? {
      FrameParts(s.cpus[c].on, s.cpus[c].frames);
    }
  }

  /** Such a point is reached from the one before it, past a slot that was not the one looked for. */
  lemma ScanFrom(s: State, c: nat, s': State)
    requires Inv(s) && c < |s.cpus| && Step(s, c, s') && c < |s'.cpus| && MidScan(s'.cpus[c].pc)
    ensures Scanning(s.cpus[c].pc) && s' == Scan(s, c)
  {
    hide Inv, CpuView, MidScan, Timer, Acquire, Release, Schedule, Leave, Scan, Choose;
    InvCpu(s, c);
    if Timer(s, c, s') {
      TimerNotMid(s, c, s');
    }
    LockNotMid(s, c);
    SwitchNotMid(s, c);
    if Choose(s, c, s') {
      ChooseNotMid(s, c, s');
    }
  }

  /** a and b are points of a scan for the same call of the same process. */
  predicate SameScan(a: Pc, b: Pc) {
    || (a.WaitScan? && b.WaitScan? && a.parent == b.parent)
    || (a.AllocScan? && b.AllocScan? && a.maker == b.maker)
  }

  /** At step j CPU c looks at slot p, in the scan it is still in at k. */
  ghost predicate Looks(ss: seq<State>, cs: seq<nat>, j: nat, k: nat, c: nat, p: Slot) {
    && j < k < |ss| == |cs| + 1 && cs[j] == c && (forall m :: j <= m <= k ==> c < |ss[m].cpus|)
    && (forall m :: j <= m <= k ==> SameScan(ss[m].cpus[c].pc, ss[k].cpus[c].pc))
    && ss[j].cpus[c].pc.i == p
  }

  /** The scan of a CPU before a step that leaves it in the scan. */
  lemma ScanBack(s: State, d: nat, s': State, c: nat)
    requires Inv(s) && d < |s.cpus| && Step(s, d, s') && c < |s'.cpus|
    requires var pc := s'.cpus[c].pc; (pc.WaitScan? || pc.AllocScan?) && pc.i > 0
    ensures c < |s.cpus| && SameScan(s.cpus[c].pc, s'.cpus[c].pc)
    ensures var i, i' := s.cpus[c].pc.i, s'.cpus[c].pc.i;
            if c == d then i + 1 == i' <= 64 && !Hit(s, c, i) else i == i'
  {
    SameCpus(s, d, s');
    if c == d {
      ScanFrom(s, d, s');
    } else {
      OtherSteps(s, d, s', c);
    }
    hide Inv, Step;
  }

  /** A scan that has come to i has looked at each slot below, and found it not to be what it looks for. */
  lemma {:induction false} Looked(ss: seq<State>, cs: seq<nat>, k: nat, c: nat, p: Slot) returns (j: nat)
    requires IsRun(ss, cs) && k < |ss| && c < |ss[k].cpus|
    requires var pc := ss[k].cpus[c].pc; (pc.WaitScan? || pc.AllocScan?) && p < pc.i
    ensures Looks(ss, cs, j, k, c, p) && !Hit(ss[j], c, p)
  {
    hide Step, Inv, Hit, Init;
    if k == 0 {
      InitPc(ss[0], c);
    }
    RunInv(ss, cs, k - 1);
    assert RunStep(ss, cs, k - 1);
    ScanBack(ss[k - 1], cs[k - 1], ss[k], c);
    if cs[k - 1] == c && ss[k - 1].cpus[c].pc.i == p {
      j := k - 1;
    } else {
      j := Looked(ss, cs, k - 1, c, p);
    }
  }

  lemma InitPc(s: State, c: nat)
    requires Init(s) && c < |s.cpus|
    ensures s.cpus[c].pc == if c == 0 then Boot else SchedLoop
  {
    assert FreshCpu(c, s.cpus[c]);
  }

  /** Which process a slot's creator was: the one on record in the slot. */
  lemma CreatorOnRecord(s: State, p: Slot, creator: nat)
    requires History(s) && s.procs[p].state.Zombie? && Parented(s.procs[p].pid, creator) in s.log
    ensures s.procs[p].ppid == creator
  {
    var log, r := s.log, s.procs[p];
    assert SlotHistory(log, s.nextPid, r);
    hide History, SlotHistory;
    var i :| 0 <= i < |log| && log[i] == Parented(r.pid, creator);
    var j :| 0 <= j < |log| && log[j] == Parented(r.pid, r.ppid);
    if i < j {
      OneParent(log, i, j);
    } else if j < i {
      OneParent(log, j, i);
    }
  }

  lemma OneParent(log: seq<Event>, i: nat, j: nat)
    requires WellLogged(log) && i < j < |log| && log[i].Parented? && log[j].Parented?
    ensures log[i].pid != log[j].pid
  {
    assert Follows(log[..j], log[j]) && log[..j][i] == log[i];
  }

  /**
   * sys_wait goes to sleep only after a scan, under the lock throughout, that has looked at each of the
   * 64 slots p and found there no zombie created by the caller.
   */
  lemma WaitSeesAll(ss: seq<State>, cs: seq<nat>, k: nat, c: nat, parent: Slot, p: Slot) returns (j: nat)
    requires IsRun(ss, cs) && k < |cs| && cs[k] == c && c < |ss[k].cpus| && c < |ss[k + 1].cpus|
    requires ss[k + 1].cpus[c].pc == Rel(TestLocked, WaitNone(parent))
    ensures Looks(ss, cs, j, k, c, p) && ss[j].cpus[c].on == Some(parent)
    ensures forall m :: j <= m <= k ==> ss[m].lock.taker == Some(c)
    ensures var r := ss[j].procs[p];
            !(r.state.Zombie? && Parented(r.pid, ss[j].procs[parent].pid) in ss[j].log)
  {
    hide Step, Inv, Init, History;
    RunInv(ss, cs, k);
    assert RunStep(ss, cs, k);
    EndsScan(ss[k], c, ss[k + 1]);
    j := Looked(ss, cs, k, c, p);
    assert SameScan(ss[j].cpus[c].pc, ss[k].cpus[c].pc);
    RunInv(ss, cs, j);
    ScanThread(ss[j], c);
    forall m | j <= m <= k ensures ss[m].lock.taker == Some(c) {
      assert SameScan(ss[m].cpus[c].pc, ss[k].cpus[c].pc);
      RunInv(ss, cs, m);
      ScanThread(ss[m], c);
    }
    RunHistory(ss, cs, j);
    NoChild(ss[j], c, p);
  }

  lemma NoChild(s: State, c: nat, p: Slot)
    requires History(s) && c < |s.cpus| && s.cpus[c].pc.WaitScan? && !Hit(s, c, p)
    ensures var r := s.procs[p];
            !(r.state.Zombie? && Parented(r.pid, s.procs[s.cpus[c].pc.parent].pid) in s.log)
  {
    hide History;
    var r := s.procs[p];
    if r.state.Zombie? && Parented(r.pid, s.procs[s.cpus[c].pc.parent].pid) in s.log {
      CreatorOnRecord(s, p, s.procs[s.cpus[c].pc.parent].pid);
    }
  }

  lemma ScanThread(s: State, c: nat)
    requires Inv(s) && c < |s.cpus|
    ensures s.cpus[c].pc.WaitScan? ==> s.cpus[c].on == Some(s.cpus[c].pc.parent) && s.lock.taker == Some(c)
    ensures s.cpus[c].pc.AllocScan? ==> s.cpus[c].on == s.cpus[c].pc.maker && s.lock.taker == Some(c)
  {
    InvCpu(s, c);
    hide Inv, FramesOk, IntrView, OwnerView;
  }

  /** A scan ends without a find only past the last slot. */
  lemma EndsScan(s: State, c: nat, s': State)
    requires Inv(s) && c < |s.cpus| && Step(s, c, s') && c < |s'.cpus|
    requires s'.cpus[c].pc.Rel? && s'.cpus[c].pc.stage.TestLocked?
    requires s'.cpus[c].pc.d.WaitNone? || s'.cpus[c].pc.d.AllocNone?
    ensures var pc, d := s.cpus[c].pc, s'.cpus[c].pc.d;
            if d.WaitNone? then pc.WaitScan? && pc.i >= 64 && pc.parent == d.parent
            else pc.AllocScan? && pc.i >= 64 && pc.maker == d.maker
  {
    ScanFrom(s, c, s');
    hide Inv, Step;
  }

  /** proc_alloc fails only after a scan, under the lock throughout, that has found each of the 64 slots in use. */
  lemma AllocSeesAll(ss: seq<State>, cs: seq<nat>, k: nat, c: nat, p: Slot) returns (j: nat)
    requires IsRun(ss, cs) && k < |cs| && cs[k] == c && c < |ss[k].cpus| && c < |ss[k + 1].cpus|
    requires var pc := ss[k + 1].cpus[c].pc; pc.Rel? && pc.stage.TestLocked? && pc.d.AllocNone?
    ensures Looks(ss, cs, j, k, c, p) && !ss[j].procs[p].state.Unused?
    ensures forall m :: j <= m <= k ==> ss[m].lock.taker == Some(c)
  {
    hide Step, Inv, Init, History;
    RunInv(ss, cs, k);
    assert RunStep(ss, cs, k);
    EndsScan(ss[k], c, ss[k + 1]);
    j := Looked(ss, cs, k, c, p);
    forall m | j <= m <= k ensures ss[m].lock.taker == Some(c) {
      assert SameScan(ss[m].cpus[c].pc, ss[k].cpus[c].pc);
      RunInv(ss, cs, m);
      ScanThread(ss[m], c);
    }
    assert SameScan(ss[j].cpus[c].pc, ss[k].cpus[c].pc);
  }
}
