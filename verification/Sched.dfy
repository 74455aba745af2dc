/**
 * The process table, its lock and the context switches, as a step relation with one program point
 * per CPU. acquire and release are taken apart into their single reads and writes.
 */
module Sched {
  const MAX_PROCS: nat := 64

  datatype Option<T> = None | Some(value: T)

  type Slot = i: nat | i < 64

  datatype ProcState = Unused | Embryo | Runnable | Running | Zombie

  /** Where yield returns to: the timer's iret, a syscall that waits for something, or sys_wait's loop. */
  datatype Back = Trap | ToKernel | ToWait(parent: Slot)

  /** What proc_lock is being acquired for. A maker of None is the boot code, which runs no process. */
  datatype Want =
    | ForSched | ForYield(p: Slot, to: Back) | ForExit(p: Slot, code: int) | ForWait(parent: Slot)
    | ForAlloc(maker: Option<Slot>) | ForReady(maker: Option<Slot>, slot: Slot)

  /** Which release of proc_lock is under way. */
  datatype Done =
    | SchedDone | YieldDone(to: Back) | ForkRet | WaitNone(parent: Slot) | WaitFound
    | AllocGot(maker: Option<Slot>, slot: Slot) | AllocNone(maker: Option<Slot>) | ReadyDone(maker: Option<Slot>)

  /** The points of acquire: pushcli, the two reads of holding(), the exchange, the store of lk->cpu. */
  datatype AcqAt = Push | CheckLocked | CheckCpu | Spin | Own

  /** The points of release: the two reads of holding(), the two stores, popcli. */
  datatype RelAt = TestLocked | TestCpu | Clear | Unlock | Pop

  datatype Pc =
    | Boot | SchedLoop | User | Syscall | Kernel | YieldStart(to: Back) | IntReturn
    | Acq(at: AcqAt, w: Want)
    | SchedScan(i: nat) | SchedSet(target: Slot) | SchedSwtch(target: Slot) | SchedBack(last: Slot)
    | YieldMark(p: Slot, to: Back) | YieldClear(p: Slot, to: Back) | YieldSwtch(p: Slot, to: Back)
    | ExitMark(p: Slot, code: int) | ExitClear(p: Slot) | ExitSwtch(p: Slot)
    | WaitScan(parent: Slot, i: nat) | AllocScan(maker: Option<Slot>, i: nat)
    | ReadyMark(maker: Option<Slot>, slot: Slot)
    | BuildStack(maker: Option<Slot>, slot: Slot) | Build(maker: Option<Slot>, slot: Slot)
    | Rel(stage: RelAt, d: Done)
    | Halt

  /**
   * A CPU. on is the process whose kernel stack it runs on (None: its own scheduler stack), sched the
   * saved scheduler context, frames the program points the timer interrupted on the current stack.
   */
  datatype Cpu = Cpu(pc: Pc, frames: seq<Pc>, on: Option<Slot>, proc: Option<Slot>, sched: Pc, ncli: nat, intena: bool,
    intr: bool)

  /** A slot. owner is auxiliary: the CPU that runs, switches to or builds this process. No step reads it. */
  datatype Proc = Proc(state: ProcState, pid: nat, ppid: nat, exitCode: int, kstack: Option<nat>, ctx: Pc,
    frames: seq<Pc>, owner: Option<nat>)

  /** taker is the CPU whose exchange set the locked byte (None: the byte is 0), cpu the field of that name. */
  datatype Lock = Lock(taker: Option<nat>, cpu: Option<nat>)

  datatype Event =
    | Named(pid: nat) | Parented(pid: nat, ppid: nat) | Exited(pid: nat, code: int)
    | Reaped(parent: nat, pid: nat, code: int)

  type Table = t: seq<Proc> | |t| == 64 witness seq(64, _ => Proc(Unused, 0, 0, 0, None, Halt, [], None))

  /** stacks are the kernel stacks allocated; log is the history of process events. */
  datatype State = State(cpus: seq<Cpu>, procs: Table, lock: Lock, nextPid: nat, stacks: set<nat>, log: seq<Event>)

  function SetCpu(s: State, c: nat, u: Cpu): State
    requires c < |s.cpus|
  {
    s.(cpus := s.cpus[c := u])
  }

  function Goto(s: State, c: nat, pc: Pc): State
    requires c < |s.cpus|
  {
    SetCpu(s, c, s.cpus[c].(pc := pc))
  }

  function SetProc(s: State, p: Slot, r: Proc): State {
    s.(procs := s.procs[p := r])
  }

  /** Where the caller goes on once yield returns. */
  function AfterYield(to: Back): Pc {
    match to
    case Trap => IntReturn
    case ToKernel => Kernel
    case ToWait(parent) => Acq(Push, ForWait(parent))
  }

  function Caller(maker: Option<Slot>): Pc {
    if maker.None? then Boot else Kernel
  }

  /** The first statement of the critical section. */
  function Critical(w: Want): Pc {
    match w
    case ForSched => SchedScan(0)
    case ForYield(p, to) => YieldMark(p, to)
    case ForExit(p, code) => ExitMark(p, code)
    case ForWait(parent) => WaitScan(parent, 0)
    case ForAlloc(maker) => AllocScan(maker, 0)
    case ForReady(maker, slot) => ReadyMark(maker, slot)
  }

  /** The statement after the release. */
  function AfterRelease(d: Done): Pc {
    match d
    case SchedDone => SchedLoop
    case YieldDone(to) => AfterYield(to)
    case ForkRet => IntReturn
    case WaitNone(parent) => YieldStart(ToWait(parent))
    case WaitFound => Kernel
    case AllocGot(maker, slot) => BuildStack(maker, slot)
    case AllocNone(maker) => Caller(maker)
    case ReadyDone(maker) => Caller(maker)
  }

  /** pushcli */
  function PushCli(u: Cpu): Cpu {
    u.(intena := if u.ncli == 0 then u.intr else u.intena, intr := false, ncli := u.ncli + 1)
  }

  /** popcli, which halts on a misuse. */
  function PopCli(u: Cpu, next: Pc): Cpu {
    if u.intr || u.ncli == 0 then u.(pc := Halt)
    else u.(ncli := u.ncli - 1, intr := u.ncli == 1 && u.intena, pc := next)
  }

  function Acquire(s: State, c: nat): State
    requires c < |s.cpus| && s.cpus[c].pc.Acq?
  {
    var u := s.cpus[c];
    var w := u.pc.w;
    match u.pc.at
    case Push => SetCpu(s, c, PushCli(u).(pc := Acq(CheckLocked, w)))
    case CheckLocked => Goto(s, c, Acq(if s.lock.taker.Some? then CheckCpu else Spin, w))
    case CheckCpu => Goto(s, c, if s.lock.cpu == Some(c) then Halt else Acq(Spin, w))
    case Spin => if s.lock.taker.Some? then s else Goto(s, c, Acq(Own, w)).(lock := s.lock.(taker := Some(c)))
    case Own => Goto(s, c, Critical(w)).(lock := s.lock.(cpu := Some(c)))
  }

  function Release(s: State, c: nat): State
    requires c < |s.cpus| && s.cpus[c].pc.Rel?
  {
    var u := s.cpus[c];
    var d := u.pc.d;
    match u.pc.stage
    case TestLocked => Goto(s, c, if s.lock.taker.Some? then Rel(TestCpu, d) else Halt)
    case TestCpu => Goto(s, c, if s.lock.cpu == Some(c) then Rel(Clear, d) else Halt)
    case Clear => Goto(s, c, Rel(Unlock, d)).(lock := s.lock.(cpu := None))
    case Unlock => Goto(s, c, Rel(Pop, d)).(lock := s.lock.(taker := None))
    case Pop => SetCpu(s, c, PopCli(u, AfterRelease(d)))
  }

  predicate Scheduling(pc: Pc) {
    pc.SchedLoop? || pc.SchedScan? || pc.SchedSet? || pc.SchedSwtch? || pc.SchedBack?
  }

  /** scheduler: sti, then the scan of the table under the lock. */
  function Schedule(s: State, c: nat): State
    requires c < |s.cpus| && Scheduling(s.cpus[c].pc)
  {
    var u := s.cpus[c];
    match u.pc
    case SchedLoop => SetCpu(s, c, u.(intr := true, pc := Acq(Push, ForSched)))
    case SchedScan(i) =>
      if i >= MAX_PROCS then Goto(s, c, Rel(TestLocked, SchedDone))
      else if !s.procs[i].state.Runnable? then Goto(s, c, SchedScan(i + 1))
      else SetProc(Goto(s, c, SchedSet(i)), i, s.procs[i].(state := Running, owner := Some(c)))
    case SchedSet(p) => SetCpu(s, c, u.(proc := Some(p), pc := SchedSwtch(p)))
    case SchedSwtch(p) =>
      SetCpu(s, c, u.(sched := SchedBack(p), on := Some(p), pc := s.procs[p].ctx, frames := s.procs[p].frames))
    case SchedBack(p) => SetCpu(s, c, u.(proc := None, pc := SchedScan(p + 1)))
  }

  predicate Leaving(pc: Pc) {
    pc.YieldMark? || pc.YieldClear? || pc.YieldSwtch? || pc.ExitMark? || pc.ExitClear? || pc.ExitSwtch?
  }

  /** swtch to the scheduler of this CPU, to go on at back when switched to again. */
  function LeaveTo(s: State, c: nat, p: Slot, back: Pc): State
    requires c < |s.cpus|
  {
    var u := s.cpus[c];
    SetProc(SetCpu(s, c, u.(on := None, pc := u.sched, frames := [])), p,
            s.procs[p].(ctx := back, frames := u.frames, owner := None))
  }

  /** The critical sections of yield and sys_exit. */
  function Leave(s: State, c: nat): State
    requires c < |s.cpus| && Leaving(s.cpus[c].pc)
  {
    var u := s.cpus[c];
    match u.pc
    case YieldMark(p, to) => SetProc(Goto(s, c, YieldClear(p, to)), p, s.procs[p].(state := Runnable))
    case YieldClear(p, to) => SetCpu(s, c, u.(proc := None, pc := YieldSwtch(p, to)))
    case YieldSwtch(p, to) => LeaveTo(s, c, p, Rel(TestLocked, YieldDone(to)))
    case ExitMark(p, code) =>
      SetProc(Goto(s, c, ExitClear(p)), p, s.procs[p].(state := Zombie, exitCode := code)).(
        log := s.log + [Exited(s.procs[p].pid, code)])
    case ExitClear(p) => SetCpu(s, c, u.(proc := None, pc := ExitSwtch(p)))
    case ExitSwtch(p) => LeaveTo(s, c, p, Halt)
  }

  /** Free the kernel stack of zombie slot i, make the slot unused and tell the parent. */
  function Reap(s: State, c: nat, parent: Slot, i: Slot): State
    requires c < |s.cpus|
  {
    var r := s.procs[i];
    SetProc(Goto(s, c, Rel(TestLocked, WaitFound)), i, r.(kstack := None, state := Unused)).(
      stacks := s.stacks - (if r.kstack.Some? then {r.kstack.value} else {}),
      log := s.log + [Reaped(s.procs[parent].pid, r.pid, r.exitCode)])
  }

  predicate Scanning(pc: Pc) {
    pc.WaitScan? || pc.AllocScan? || pc.ReadyMark?
  }

  /** The critical sections of sys_wait and proc_alloc, and the one that makes a new process runnable. */
  function Scan(s: State, c: nat): State
    requires c < |s.cpus| && Scanning(s.cpus[c].pc)
  {
    var u := s.cpus[c];
    match u.pc
    case WaitScan(parent, i) =>
      if i >= MAX_PROCS then Goto(s, c, Rel(TestLocked, WaitNone(parent)))
      else if !s.procs[i].state.Zombie? || s.procs[i].ppid != s.procs[parent].pid
      then Goto(s, c, WaitScan(parent, i + 1))
      else Reap(s, c, parent, i)
    case AllocScan(maker, i) =>
      if i >= MAX_PROCS then Goto(s, c, Rel(TestLocked, AllocNone(maker)))
      else if !s.procs[i].state.Unused? then Goto(s, c, AllocScan(maker, i + 1))
      else
        SetProc(Goto(s, c, Rel(TestLocked, AllocGot(maker, i))), i,
          s.procs[i].(pid := s.nextPid, state := Embryo, owner := Some(c))).(
          nextPid := s.nextPid + 1, log := s.log + [Named(s.nextPid)])
    case ReadyMark(maker, p) =>
      SetProc(Goto(s, c, Rel(TestLocked, ReadyDone(maker))), p, s.procs[p].(state := Runnable, owner := None))
  }

  /** A creation that fails gives the slot back without the lock, and leaks the stack if there is one. */
  function GiveUp(s: State, c: nat, maker: Option<Slot>, p: Slot): State
    requires c < |s.cpus|
  {
    SetProc(Goto(s, c, Caller(maker)), p, s.procs[p].(state := Unused, owner := None))
  }

  function GotStack(s: State, c: nat, maker: Option<Slot>, p: Slot, k: nat): State
    requires c < |s.cpus|
  {
    SetProc(Goto(s, c, Build(maker, p)), p, s.procs[p].(kstack := Some(k))).(stacks := s.stacks + {k})
  }

  /** The new process gets its parent and a context that enters forkret. */
  function Built(s: State, c: nat, maker: Option<Slot>, p: Slot): State
    requires c < |s.cpus|
  {
    var parent := if maker.Some? then s.procs[maker.value].pid else 0;
    SetProc(Goto(s, c, Acq(Push, ForReady(maker, p))), p,
      s.procs[p].(ppid := parent, ctx := Rel(TestLocked, ForkRet), frames := [User])).(
      log := s.log + [Parented(s.procs[p].pid, parent)])
  }

  /** The steps outside the lock, where the code has a choice. */
  ghost predicate Choose(s: State, c: nat, s': State)
    requires c < |s.cpus|
  {
    var u := s.cpus[c];
    match u.pc
    case Boot => s' == Goto(s, c, Acq(Push, ForAlloc(None))) || s' == Goto(s, c, SchedLoop)
      || s' == SetCpu(s, c, u.(intr := true))
    case User => s' == SetCpu(s, c, u.(intr := false, pc := Syscall))
    case Syscall =>
      || s' == Goto(s, c, Kernel)
      || (u.proc.Some? && (s' == Goto(s, c, Acq(Push, ForWait(u.proc.value)))
        || s' == Goto(s, c, Acq(Push, ForAlloc(u.proc)))
                           || exists code :: s' == Goto(s, c, Acq(Push, ForExit(u.proc.value, code)))))
    case Kernel => s' == SetCpu(s, c, u.(intr := true, pc := User)) || s' == Goto(s, c, YieldStart(ToKernel))
    case YieldStart(to) =>
      s' == Goto(s, c, if u.proc.Some? then Acq(Push, ForYield(u.proc.value, to)) else AfterYield(to))
    case IntReturn =>
      u.frames != []
      && s' == SetCpu(s, c, u.(intr := true, pc := u.frames[|u.frames| - 1], frames := u.frames[..|u.frames| - 1]))
    case BuildStack(maker, p) =>
      s' == GiveUp(s, c, maker, p) || exists k: nat :: k !in s.stacks && s' == GotStack(s, c, maker, p, k)
    case Build(maker, p) => s' == GiveUp(s, c, maker, p) || s' == Built(s, c, maker, p)
    case _ => false
  }

  /**
   * A timer interrupt. It calls yield, which does nothing on a CPU without a process. None is assumed
   * to land inside yield between reading the CPU and acquiring the lock.
   */
  predicate Timer(s: State, c: nat, s': State)
    requires c < |s.cpus|
  {
    var u := s.cpus[c];
    && u.intr && !(u.pc.Acq? && u.pc.at.Push? && u.pc.w.ForYield?)
    && s' == if u.proc.None? then s
    else SetCpu(s, c, u.(intr := false, frames := u.frames + [u.pc], pc := YieldStart(Trap)))
  }

  ghost predicate Step(s: State, c: nat, s': State)
    requires c < |s.cpus|
  {
    var pc := s.cpus[c].pc;
    || Timer(s, c, s')
    || if pc.Acq? then s' == Acquire(s, c)
       else if pc.Rel? then s' == Release(s, c)
       else if Scheduling(pc) then s' == Schedule(s, c)
       else if Leaving(pc) then s' == Leave(s, c)
       else if Scanning(pc) then s' == Scan(s, c)
       else Choose(s, c, s')
  }
}
