/**
 * The history of process identifiers: how they are handed out, and what sys_wait may return.
 */
module SchedHistory {
  import opened Sched
  import opened SchedSafety
  import opened SchedRuns

  ghost predicate ReapedPid(log: seq<Event>, pid: nat) {
    exists i :: 0 <= i < |log| && log[i].Reaped? && log[i].pid == pid
  }

  ghost predicate ExitedPid(log: seq<Event>, pid: nat) {
    exists i :: 0 <= i < |log| && log[i].Exited? && log[i].pid == pid
  }

  ghost predicate ParentedPid(log: seq<Event>, pid: nat) {
    exists i :: 0 <= i < |log| && log[i].Parented? && log[i].pid == pid
  }

  /** What may happen after the events in before. */
  ghost predicate Follows(before: seq<Event>, e: Event) {
    match e
    case Named(pid) => forall i :: 0 <= i < |before| && before[i].Named? ==> before[i].pid < pid
    case Parented(pid, _) => !ParentedPid(before, pid)
    case Exited(pid, _) => !ExitedPid(before, pid)
    case Reaped(parent, pid, code) =>
      !ReapedPid(before, pid) && Exited(pid, code) in before && Parented(pid, parent) in before
  }

  /**
   * Identifiers are handed out in increasing order; a process gets one parent and exits at most once;
   * sys_wait returns a child at most once, to the process whose identifier is the child's ppid, after
   * the child has exited, with the code it exited with.
   */
  ghost predicate WellLogged(log: seq<Event>) {
    forall i :: 0 <= i < |log| ==> Follows(log[..i], log[i])
  }

  /** What the history says of the process in a slot. */
  ghost predicate SlotHistory(log: seq<Event>, nextPid: nat, r: Proc) {
    && (!r.state.Unused? ==> 0 < r.pid < nextPid && !ReapedPid(log, r.pid))
    && (r.state.Runnable? || r.state.Running? || r.state.Zombie? ==> Parented(r.pid, r.ppid) in log)
    && (r.state.Zombie? ==> Exited(r.pid, r.exitCode) in log)
    && (r.state.Embryo? || r.state.Runnable? || r.state.Running? ==> !ExitedPid(log, r.pid))
  }

  /** What it says of the process a CPU is creating. */
  ghost predicate BuildHistory(log: seq<Event>, procs: Table, pc: Pc) {
    Builds(pc).Some? ==>
      var r := procs[Builds(pc).value];
      if Progress(pc) >= 2 then Parented(r.pid, r.ppid) in log else !ParentedPid(log, r.pid)
  }

  /** Live slots have different identifiers. */
  ghost predicate PidsApart(procs: Table) {
    forall p: Slot, q: Slot :: p != q && !procs[p].state.Unused? && !procs[q].state.Unused? ==>
      procs[p].pid != procs[q].pid
  }

  predicate PidsBelow(log: seq<Event>, nextPid: nat) {
    forall i :: 0 <= i < |log| ==> log[i].pid < nextPid
  }

  ghost predicate History(s: State) {
    && WellLogged(s.log) && PidsBelow(s.log, s.nextPid) && 0 < s.nextPid && PidsApart(s.procs)
    && (forall p: Slot :: SlotHistory(s.log, s.nextPid, s.procs[p]))
    && forall c :: 0 <= c < |s.cpus| ==> BuildHistory(s.log, s.procs, s.cpus[c].pc)
  }

  lemma InitHistory(s: State)
    requires Init(s)
    ensures History(s)
  {
    forall c | 0 <= c < |s.cpus| ensures BuildHistory(s.log, s.procs, s.cpus[c].pc) {
      assert FreshCpu(c, s.cpus[c]);
    }
  }

  /** A step that logs nothing: at most one slot, owned by no other CPU, changes state. */
  lemma SilentStep(s: State, c: nat, p: Slot, s': State)
    requires Inv(s) && History(s) && c < |s.cpus| == |s'.cpus| && s'.cpus == s.cpus[c := s'.cpus[c]]
    requires s'.procs == s.procs[p := s'.procs[p]] && s'.log == s.log && s'.nextPid == s.nextPid
    requires s'.procs[p].pid == s.procs[p].pid && s'.procs[p].ppid == s.procs[p].ppid
    requires SlotHistory(s.log, s.nextPid, s'.procs[p]) && (s.procs[p].state.Unused? ==> s'.procs[p].state.Unused?)
    requires BuildHistory(s.log, s'.procs, s'.cpus[c].pc)
    ensures History(s')
  {
    hide Inv, WellLogged, PidsBelow, ParentedPid, Progress, Builds;
    forall q: Slot ensures SlotHistory(s'.log, s'.nextPid, s'.procs[q]) {
      hide SlotHistory;
      assert SlotHistory(s.log, s.nextPid, s.procs[q]);
    }
    forall d | 0 <= d < |s'.cpus| ensures BuildHistory(s'.log, s'.procs, s'.cpus[d].pc) {
      assert BuildHistory(s.log, s.procs, s.cpus[d].pc);
    }
  }

  /** Logging an event that may follow keeps the log in order. */
  lemma LogOne(log: seq<Event>, nextPid: nat, e: Event)
    requires WellLogged(log) && PidsBelow(log, nextPid) && Follows(log, e) && e.pid < nextPid
    ensures WellLogged(log + [e]) && PidsBelow(log + [e], nextPid)
  {
    hide Follows;
    var log' := log + [e];
    forall i | 0 <= i < |log'| ensures Follows(log'[..i], log'[i]) {
      if i < |log| {
        assert log'[..i] == log[..i] && Follows(log[..i], log[i]);
      } else {
        assert log'[..i] == log;
      }
    }
  }

  /** What one more event changes. */
  lemma MorePids(log: seq<Event>, e: Event, pid: nat)
    ensures ReapedPid(log + [e], pid) <==> ReapedPid(log, pid) || (e.Reaped? && e.pid == pid)
    ensures ExitedPid(log + [e], pid) <==> ExitedPid(log, pid) || (e.Exited? && e.pid == pid)
    ensures ParentedPid(log + [e], pid) <==> ParentedPid(log, pid) || (e.Parented? && e.pid == pid)
  {
    var log' := log + [e];
    assert forall i :: 0 <= i < |log| ==> log'[i] == log[i];
    assert log'[|log|] == e;
    if ReapedPid(log, pid) { var i :| 0 <= i < |log| && log[i].Reaped? && log[i].pid == pid; assert log'[i].Reaped?; }
    if ExitedPid(log, pid) { var i :| 0 <= i < |log| && log[i].Exited? && log[i].pid == pid; assert log'[i].Exited?; }
    if ParentedPid(log, pid) {
      var i :| 0 <= i < |log| && log[i].Parented? && log[i].pid == pid;
      assert log'[i].Parented?;
    }
  }

  /** A slot whose identifier is not that of the event is described as before. */
  lemma SlotUnmoved(log: seq<Event>, e: Event, nextPid: nat, r: Proc)
    requires SlotHistory(log, nextPid, r) && (r.state.Unused? || r.pid != e.pid)
    ensures SlotHistory(log + [e], nextPid, r) && SlotHistory(log + [e], nextPid + 1, r)
  {
    MorePids(log, e, r.pid);
    hide ReapedPid, ExitedPid;
  }

  /** So is a creation. */
  lemma BuildUnmoved(log: seq<Event>, e: Event, procs: Table, procs': Table, pc: Pc)
    requires BuildHistory(log, procs, pc)
    requires Builds(pc).Some? ==>
             var p := Builds(pc).value; procs'[p] == procs[p] && (e.Parented? ==> procs[p].pid != e.pid)
    ensures BuildHistory(log + [e], procs', pc)
  {
    if Builds(pc).Some? {
      MorePids(log, e, procs[Builds(pc).value].pid);
    }
    hide ParentedPid, Builds, Progress;
  }

  /** Two CPUs never create in the same slot. */
  lemma BuildersApart(s: State, c: nat, p: Slot)
    requires Inv(s) && c < |s.cpus| && (s.procs[p].owner.None? || s.procs[p].owner == Some(c))
    ensures forall d :: 0 <= d < |s.cpus| && d != c ==> Builds(s.cpus[d].pc) != Some(p)
    ensures forall d :: 0 <= d < |s.cpus| && Builds(s.cpus[d].pc).Some? ==>
            s.procs[Builds(s.cpus[d].pc).value].state.Embryo?
  {
    forall d | 0 <= d < |s.cpus|
      ensures d != c ==> Builds(s.cpus[d].pc) != Some(p)
      ensures Builds(s.cpus[d].pc).Some? ==> s.procs[Builds(s.cpus[d].pc).value].state.Embryo?
    {
      assert CpuView(s, d);
    }
    hide Inv;
  }

  /** A step that logs an event about slot p. */
  lemma LoggedStep(s: State, c: nat, p: Slot, e: Event, s': State)
    requires Inv(s) && History(s) && c < |s.cpus| == |s'.cpus| && s'.cpus == s.cpus[c := s'.cpus[c]]
    requires s'.procs == s.procs[p := s'.procs[p]] && s'.log == s.log + [e]
    requires s.procs[p].owner.None? || s.procs[p].owner == Some(c)
    requires s'.nextPid == s.nextPid || s'.nextPid == s.nextPid + 1
    requires Follows(s.log, e) && e.pid < s'.nextPid && e.pid == s'.procs[p].pid
    requires if e.Named? then e.pid == s.nextPid else !s.procs[p].state.Unused? && s.procs[p].pid == e.pid
    requires SlotHistory(s'.log, s'.nextPid, s'.procs[p]) && BuildHistory(s'.log, s'.procs, s'.cpus[c].pc)
    ensures History(s')
  {
    BuildersApart(s, c, p);
    hide Inv, WellLogged, PidsBelow, Follows, ParentedPid, Progress, Builds, BuildHistory, SlotHistory;
    EventPid(s, p, e);
    LogGrows(s.log, s.nextPid, s'.nextPid, e);
    forall q: Slot ensures SlotHistory(s'.log, s'.nextPid, s'.procs[q]) {
      if q != p {
        assert SlotHistory(s.log, s.nextPid, s.procs[q]);
        SlotUnmoved(s.log, e, s.nextPid, s.procs[q]);
      }
    }
    forall d | 0 <= d < |s'.cpus| ensures BuildHistory(s'.log, s'.procs, s'.cpus[d].pc) {
      if d != c {
        assert BuildHistory(s.log, s.procs, s.cpus[d].pc);
        BuildUnmoved(s.log, e, s.procs, s'.procs, s.cpus[d].pc);
      }
    }
    forall q: Slot, r: Slot | q != r && !s'.procs[q].state.Unused? && !s'.procs[r].state.Unused?
      ensures s'.procs[q].pid != s'.procs[r].pid
    {
    }
  }

  /** No live slot but p has the identifier of the event. */
  lemma EventPid(s: State, p: Slot, e: Event)
    requires History(s) && if e.Named? then e.pid == s.nextPid else !s.procs[p].state.Unused? && s.procs[p].pid == e.pid
    ensures forall q: Slot :: q != p && !s.procs[q].state.Unused? ==> s.procs[q].pid != e.pid
  {
    forall q: Slot | q != p && !s.procs[q].state.Unused? ensures s.procs[q].pid != e.pid {
      assert SlotHistory(s.log, s.nextPid, s.procs[q]);
    }
  }

  lemma LogGrows(log: seq<Event>, nextPid: nat, nextPid': nat, e: Event)
    requires WellLogged(log) && PidsBelow(log, nextPid) && Follows(log, e) && e.pid < nextPid' && nextPid <= nextPid'
    ensures WellLogged(log + [e]) && PidsBelow(log + [e], nextPid')
  {
    assert PidsBelow(log, nextPid');
    LogOne(log, nextPid', e);
  }

  lemma HistoryParts(s: State, c: nat, p: Slot)
    requires History(s) && c < |s.cpus|
    ensures SlotHistory(s.log, s.nextPid, s.procs[p]) && BuildHistory(s.log, s.procs, s.cpus[c].pc)
    ensures WellLogged(s.log) && PidsBelow(s.log, s.nextPid) && 0 < s.nextPid
  {
    hide SlotHistory, BuildHistory;
  }

  /** Nothing but this CPU's program point, registers and lock view changes. */
  predicate SameTable(s: State, c: nat, s': State)
    requires c < |s.cpus|
  {
    |s'.cpus| == |s.cpus| && s'.cpus == s.cpus[c := s'.cpus[c]] && s'.procs == s.procs && s'.log == s.log
      && s'.nextPid == s.nextPid
  }

  lemma SameTableHistory(s: State, c: nat, s': State)
    requires Inv(s) && History(s) && c < |s.cpus| && SameTable(s, c, s')
    requires Builds(s'.cpus[c].pc).Some? ==>
               Builds(s'.cpus[c].pc) == Builds(s.cpus[c].pc)
                 && (Progress(s'.cpus[c].pc) >= 2 <==> Progress(s.cpus[c].pc) >= 2)
    ensures History(s')
  {
    hide Inv, History, Builds, Progress, SlotHistory;
    HistoryParts(s, c, 0);
    assert s.procs[0 := s.procs[0]] == s.procs;
    SilentStep(s, c, 0, s');
  }

  lemma AcquireHistory(s: State, c: nat)
    requires Inv(s) && History(s) && c < |s.cpus| && s.cpus[c].pc.Acq?
    ensures History(Acquire(s, c))
  {
    hide Inv, History;
    assert s.cpus[c := s.cpus[c]] == s.cpus;
    SameTableHistory(s, c, Acquire(s, c));
  }

  lemma ReleaseHistory(s: State, c: nat)
    requires Inv(s) && History(s) && c < |s.cpus| && s.cpus[c].pc.Rel?
    ensures History(Release(s, c))
  {
    hide Inv, History;
    SameTableHistory(s, c, Release(s, c));
  }

  lemma TimerHistory(s: State, c: nat, s': State)
    requires Inv(s) && History(s) && c < |s.cpus| && Timer(s, c, s')
    ensures History(s')
  {
    hide Inv, History;
    if s' != s {
      SameTableHistory(s, c, s');
    }
  }

  lemma ScheduleHistory(s: State, c: nat)
    requires Inv(s) && History(s) && c < |s.cpus| && Scheduling(s.cpus[c].pc)
    ensures History(Schedule(s, c))
  {
    var pc, s' := s.cpus[c].pc, Schedule(s, c);
    if pc.SchedScan? && pc.i < MAX_PROCS && s.procs[pc.i].state.Runnable? {
      hide Inv, History, ReapedPid, ExitedPid;
      HistoryParts(s, c, pc.i);
      SilentStep(s, c, pc.i, s');
    } else {
      ContextBuilds(s, c);
      hide Inv, History;
      SameTableHistory(s, c, s');
    }
  }

  lemma ContextBuilds(s: State, c: nat)
    requires Inv(s) && c < |s.cpus|
    ensures s.cpus[c].pc.SchedSwtch? ==> Builds(s.procs[s.cpus[c].pc.target].ctx).None?
    ensures s.cpus[c].on.Some? ==> Builds(s.cpus[c].sched).None?
  {
    InvCpu(s, c);
    hide Inv, PcOk, FramesOk, LockView, IntrView;
  }

  lemma LeaveHistory(s: State, c: nat)
    requires Inv(s) && History(s) && c < |s.cpus| && Leaving(s.cpus[c].pc)
    ensures History(Leave(s, c))
  {
    var pc, s' := s.cpus[c].pc, Leave(s, c);
    LeaverState(s, c);
    ContextBuilds(s, c);
    hide Inv, History;
    if pc.YieldClear? || pc.ExitClear? {
      SameTableHistory(s, c, s');
    } else {
      HistoryParts(s, c, pc.p);
      if pc.ExitMark? {
        var e := Exited(s.procs[pc.p].pid, pc.code);
        MorePids(s.log, e, e.pid);
        assert e in s'.log;
        hide ReapedPid, ExitedPid, WellLogged, PidsBelow;
        LoggedStep(s, c, pc.p, e, s');
      } else {
        hide ReapedPid, ExitedPid, WellLogged, PidsBelow;
        SilentStep(s, c, pc.p, s');
      }
    }
  }

  lemma LeaverState(s: State, c: nat)
    requires Inv(s) && c < |s.cpus| && Leaving(s.cpus[c].pc)
    ensures s.cpus[c].on == Some(s.cpus[c].pc.p) && s.procs[s.cpus[c].pc.p].state == UseState(s.cpus[c].pc)
    ensures s.procs[s.cpus[c].pc.p].owner == Some(c)
  {
    InvCpu(s, c);
    hide Inv, FramesOk, LockView, IntrView, Resumable;
  }

  lemma ScanHistory(s: State, c: nat)
    requires Inv(s) && History(s) && c < |s.cpus| && Scanning(s.cpus[c].pc)
    ensures History(Scan(s, c))
  {
    var pc, s' := s.cpus[c].pc, Scan(s, c);
    hide Inv, History;
    if pc.ReadyMark? {
      ReadyHistory(s, c);
    } else if pc.i >= MAX_PROCS || !Hit(s, c, pc.i) {
      SameTableHistory(s, c, s');
    } else if pc.WaitScan? {
      ReapHistory(s, c, pc.i);
    } else {
      AllocHistory(s, c, pc.i);
    }
  }

  lemma ReadyHistory(s: State, c: nat)
    requires Inv(s) && History(s) && c < |s.cpus| && s.cpus[c].pc.ReadyMark? && Scanning(s.cpus[c].pc)
    ensures History(Scan(s, c))
  {
    var p := s.cpus[c].pc.slot;
    BuilderState(s, c);
    hide Inv, History, ReapedPid, ExitedPid;
    HistoryParts(s, c, p);
    SilentStep(s, c, p, Scan(s, c));
  }

  lemma BuilderState(s: State, c: nat)
    requires Inv(s) && c < |s.cpus| && Builds(s.cpus[c].pc).Some?
    ensures var r := s.procs[Builds(s.cpus[c].pc).value]; r.owner == Some(c) && r.state.Embryo?
  {
    InvCpu(s, c);
    hide Inv, PcOk, FramesOk, LockView, IntrView, Resumable;
  }

  lemma ReapHistory(s: State, c: nat, i: Slot)
    requires Inv(s) && History(s) && c < |s.cpus| && s.cpus[c].pc.WaitScan? && s.cpus[c].pc.i == i && Hit(s, c, i)
             && Scanning(s.cpus[c].pc)
    ensures History(Scan(s, c))
  {
    var r := s.procs[i];
    Unowned(s, c, i);
    hide Inv, History, ReapedPid, ExitedPid, WellLogged, PidsBelow;
    HistoryParts(s, c, i);
    LoggedStep(s, c, i, Reaped(r.ppid, r.pid, r.exitCode), Scan(s, c));
  }

  lemma AllocHistory(s: State, c: nat, i: Slot)
    requires Inv(s) && History(s) && c < |s.cpus| && s.cpus[c].pc.AllocScan? && s.cpus[c].pc.i == i && Hit(s, c, i)
             && Scanning(s.cpus[c].pc)
    ensures History(Scan(s, c))
  {
    var e, s' := Named(s.nextPid), Scan(s, c);
    Unowned(s, c, i);
    hide Inv, History;
    HistoryParts(s, c, i);
    FreshPid(s.log, s.nextPid);
    MorePids(s.log, e, s.nextPid);
    hide ReapedPid, ExitedPid, ParentedPid, WellLogged, PidsBelow;
    LoggedStep(s, c, i, e, s');
  }

  lemma FreshPid(log: seq<Event>, pid: nat)
    requires PidsBelow(log, pid)
    ensures !ReapedPid(log, pid) && !ExitedPid(log, pid) && !ParentedPid(log, pid) && Follows(log, Named(pid))
  {
  }

  lemma ChooseHistory(s: State, c: nat, s': State)
    requires Inv(s) && History(s) && c < |s.cpus| && Choose(s, c, s')
    ensures History(s')
  {
    var pc := s.cpus[c].pc;
    hide Inv, History;
    if pc.BuildStack? || pc.Build? {
      FillHistory(s, c, s');
    } else {
      PopBuilds(s, c);
      SameTableHistory(s, c, s');
    }
  }

  lemma PopBuilds(s: State, c: nat)
    requires Inv(s) && c < |s.cpus|
    ensures s.cpus[c].pc.IntReturn? && s.cpus[c].frames != [] ==> Builds(s.cpus[c].frames[|s.cpus[c].frames| - 1]).None?
  {
    InvCpu(s, c);
    hide Inv, LockView, IntrView, OwnerView;
    if s.cpus[c].pc.IntReturn? && s.cpus[c].frames != [] {
      FrameParts(s.cpus[c].on, s.cpus[c].frames);
    }
  }

  lemma FillHistory(s: State, c: nat, s': State)
    requires Inv(s) && History(s) && c < |s.cpus| && Choose(s, c, s')
             && (s.cpus[c].pc.BuildStack? || s.cpus[c].pc.Build?)
    ensures History(s')
  {
    var pc := s.cpus[c].pc;
    var p := pc.slot;
    BuilderState(s, c);
    hide Inv, History;
    HistoryParts(s, c, p);
    if s'.log == s.log {
      hide ReapedPid, ExitedPid, ParentedPid, WellLogged, PidsBelow;
      SilentStep(s, c, p, s');
    } else {
      var e := Parented(s.procs[p].pid, s'.procs[p].ppid);
      MorePids(s.log, e, e.pid);
      assert s' == Built(s, c, pc.maker, p) && s'.log == s.log + [e];
      assert e in s'.log;
      hide ReapedPid, ExitedPid, ParentedPid, WellLogged, PidsBelow;
      LoggedStep(s, c, p, e, s');
    }
  }

  lemma StepHistory(s: State, c: nat, s': State)
    requires Inv(s) && History(s) && c < |s.cpus| && Step(s, c, s')
    ensures History(s')
  {
    var pc := s.cpus[c].pc;
    hide Inv, History, Timer, Choose, Acquire, Release, Schedule, Leave, Scan, Goto, SetCpu, SetProc;
    if Timer(s, c, s') { TimerHistory(s, c, s'); }
    else if pc.Acq? { AcquireHistory(s, c); }
    else if pc.Rel? { ReleaseHistory(s, c); }
    else if Scheduling(pc) { ScheduleHistory(s, c); }
    else if Leaving(pc) { LeaveHistory(s, c); }
    else if Scanning(pc) { ScanHistory(s, c); }
    else { ChooseHistory(s, c, s'); }
  }

  /**
   * Over every run identifiers are unique among live slots, and the log of identifiers, parents, exits
   * and waits is in order, as WellLogged says.
   */
  lemma {:induction false} RunHistory(ss: seq<State>, cs: seq<nat>, i: nat)
    requires IsRun(ss, cs) && i < |ss|
    ensures History(ss[i])
  {
    hide Step, Init, Inv, History;
    RunInv(ss, cs, i);
    if i == 0 {
      InitHistory(ss[0]);
    } else {
      RunHistory(ss, cs, i - 1);
      RunInv(ss, cs, i - 1);
      assert RunStep(ss, cs, i - 1);
      StepHistory(ss[i - 1], cs[i - 1], ss[i]);
    }
  }

  /** Spelt out for sys_wait: every wait that returns pid and code does so once and for a child that exited so. */
  lemma WaitedOnce(ss: seq<State>, cs: seq<nat>, n: nat, i: nat)
    requires IsRun(ss, cs) && n < |ss| && i < |ss[n].log| && ss[n].log[i].Reaped?
    ensures var log := ss[n].log;
            && (forall j :: 0 <= j < |log| && log[j].Reaped? && log[j].pid == log[i].pid ==> j == i)
            && (exists j :: 0 <= j < i && log[j] == Exited(log[i].pid, log[i].code))
            && (exists j :: 0 <= j < i && log[j] == Parented(log[i].pid, log[i].parent))
            && (forall j :: 0 <= j < |log| && log[j].Exited? && log[j].pid == log[i].pid ==> log[j].code == log[i].code)
  {
    RunHistory(ss, cs, n);
    var log := ss[n].log;
    hide IsRun, History;
    LogUnique(log, i);
    assert Follows(log[..i], log[i]);
  }

  /** No child is waited for twice, and none exits twice. */
  lemma NoRepeat(log: seq<Event>, a: nat, b: nat)
    requires WellLogged(log) && a < b < |log| && log[a].pid == log[b].pid
    ensures !(log[a].Reaped? && log[b].Reaped?) && !(log[a].Exited? && log[b].Exited?)
  {
    assert Follows(log[..b], log[b]) && log[..b][a] == log[a];
  }

  lemma LogUnique(log: seq<Event>, i: nat)
    requires WellLogged(log) && i < |log| && log[i].Reaped?
    ensures forall j :: 0 <= j < |log| && log[j].Reaped? && log[j].pid == log[i].pid ==> j == i
    ensures forall j :: 0 <= j < |log| && log[j].Exited? && log[j].pid == log[i].pid ==> log[j].code == log[i].code
  {
    assert Follows(log[..i], log[i]);
    var k :| 0 <= k < i && log[..i][k] == Exited(log[i].pid, log[i].code);
    forall j | 0 <= j < |log| && log[j].pid == log[i].pid
      ensures (log[j].Reaped? ==> j == i) && (log[j].Exited? ==> log[j].code == log[i].code)
    {
      if j < i { NoRepeat(log, j, i); } else if i < j { NoRepeat(log, i, j); }
      if j < k { NoRepeat(log, j, k); } else if k < j { NoRepeat(log, k, j); }
    }
  }
}
