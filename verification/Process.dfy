/** Process life cycle and scheduling: any number of CPUs and process slots, every interleaving of
    `scheduler`, `yield`, `sleep`, `wakeup`, `kill`, `fork`, `exit` and `wait`. A critical section on
    one process lock is one step; locks that stay held across steps are in the state, owned by a CPU. */
module Process {
  import opened Basics

  datatype State = UNUSED | USED | SLEEPING | RUNNABLE | RUNNING | ZOMBIE

  /** Where in the kernel a timer interrupt can find a process that has begun `wait` or `fork`: with no
      lock held, so with interrupts on. */
  datatype Spot = InWait | InFork(np: nat) | InForked(np: nat)

  /** Why a thread gave up its CPU. */
  datatype Why = Yielded | Preempted(at: Spot) | Slept | Waited | Born

  /** Where a process's kernel thread is. */
  datatype Pc =
    | User                                 // in none of the functions below, no lock held
    | Leaving(why: Why)                    // own lock held, state set, about to switch or switched out
    | Resumed(why: Why)                    // switched back in, own lock still held
    | WaitAgain                            // woken in `wait`, about to reacquire `wait_lock`
    | Forking(np: nat)                     // child slot allocated
    | Forked(np: nat)                      // parent link set
    | ExitReparent(k: nat)                 // `wait_lock` held; children below slot k given away
    | ExitWakeInit(k: nat, j: nat)         // child k given away; waking init, at slot j
    | ExitWakeParent(j: nat)               // waking the parent, at slot j
    | ExitLocked                           // zombie, both locks held
    | Exited                               // zombie, own lock held, never returns
    | WaitScan(k: nat, kids: bool)         // `wait_lock` held; scanning for children at slot k, then
                                           // testing `killed`, then going to sleep
    | WaitSleep                            // both locks held, about to sleep

  /** `on` and `forker` are bookkeeping: the CPU that refers to the slot, and who is forking into it. */
  datatype Proc = Proc(state: State, pid: nat, parent: Option<nat>, chan: Option<nat>, killed: bool,
                       lock: Option<nat>, pc: Pc, on: Option<nat>, forker: Option<nat>)

  /** Where a CPU is: in the scheduler loop, holding a picked process's lock, running a process's
      thread, or back in the scheduler with that process's lock still held. */
  datatype Mode = Scheduling | Picked(p: nat) | On(p: nat) | Back(p: nat)

  datatype Cpu = Cpu(mode: Mode, proc: Option<nat>)

  datatype Sys = Sys(procs: seq<Proc>, cpus: seq<Cpu>, init: nat, waitLock: Option<nat>, nextpid: nat,
                     reaped: seq<nat>)     // pids returned by `wait` so far
  {
    /** The process whose thread runs on CPU `c`. */
    predicate Runs(c: nat, p: nat) { c < |cpus| && p < |procs| && cpus[c].mode == On(p) }
    predicate Free(p: nat) { p < |procs| && procs[p].lock == None }
    function Set(p: nat, q: Proc): Sys requires p < |procs| { this.(procs := procs[p := q]) }
    function SetCpu(c: nat, x: Cpu): Sys requires c < |cpus| { this.(cpus := cpus[c := x]) }
  }

  /** What a process at `pc` records when the timer interrupts it; the other places run with interrupts
      off, because they hold a lock. */
  function Interrupted(pc: Pc): Option<Why> {
    match pc {
      case User => Some(Yielded)
      case WaitAgain => Some(Preempted(InWait))
      case Forking(np) => Some(Preempted(InFork(np)))
      case Forked(np) => Some(Preempted(InForked(np)))
      case _ => None
    }
  }

  /** Where a thread that gave up its CPU goes on. */
  function Continuation(why: Why): Pc {
    match why {
      case Waited => WaitAgain
      case Preempted(InWait) => WaitAgain
      case Preempted(InFork(np)) => Forking(np)
      case Preempted(InForked(np)) => Forked(np)
      case _ => User
    }
  }

  datatype Action =
    | Pick(c: nat, p: nat)
    | SwitchIn(c: nat, p: nat)
    | Resume(c: nat, p: nat)
    | Yield(c: nat, p: nat)
    | SleepOn(c: nat, p: nat, chan: nat)
    | SwitchOut(c: nat, p: nat)
    | Retire(c: nat, p: nat)
    | Wake(j: nat, chan: nat)
    | Kill(j: nat)
    | ForkAlloc(c: nat, p: nat, np: nat)
    | ForkFail(c: nat, p: nat)
    | ForkParent(c: nat, p: nat)
    | ForkRun(c: nat, p: nat)
    | ExitStart(c: nat, p: nat)
    | ExitStep(c: nat, p: nat)
    | WaitStart(c: nat, p: nat)
    | WaitStep(c: nat, p: nat, copyFails: bool)

  /** `wakeup`'s treatment of one slot. */
  function Woken(q: Proc, chan: Option<nat>): Proc {
    if q.state == SLEEPING && q.chan == chan then q.(state := RUNNABLE) else q
  }

  function Freed(q: Proc): Proc {
    q.(state := UNUSED, pid := 0, parent := None, chan := None, killed := false, forker := None)
  }

  predicate Enabled(s: Sys, a: Action) {
    match a {
      case Pick(c, p) => c < |s.cpus| && s.cpus[c].mode == Scheduling && s.Free(p) && s.procs[p].state == RUNNABLE
      case SwitchIn(c, p) => c < |s.cpus| && p < |s.procs| && s.cpus[c].mode == Picked(p)
      case Resume(c, p) => s.Runs(c, p) && s.procs[p].pc.Resumed?
      case Yield(c, p) => s.Runs(c, p) && Interrupted(s.procs[p].pc).Some? && s.Free(p)
      case SleepOn(c, p, chan) => s.Runs(c, p) && s.procs[p].pc == User && s.Free(p) && chan >= |s.procs|
      case SwitchOut(c, p) => s.Runs(c, p) && (s.procs[p].pc.Leaving? || s.procs[p].pc == Exited)
      case Retire(c, p) => c < |s.cpus| && p < |s.procs| && s.cpus[c].mode == Back(p)
      case Wake(j, chan) => s.Free(j) && chan >= |s.procs|
      case Kill(j) => s.Free(j)
      case ForkAlloc(c, p, np) => s.Runs(c, p) && s.procs[p].pc == User && s.Free(np) && s.procs[np].state == UNUSED
      case ForkFail(c, p) => s.Runs(c, p) && s.procs[p].pc.Forking? && s.Free(s.procs[p].pc.np)
      case ForkParent(c, p) => s.Runs(c, p) && s.procs[p].pc.Forking? && s.procs[p].pc.np < |s.procs|
          && s.waitLock == None
      case ForkRun(c, p) => s.Runs(c, p) && s.procs[p].pc.Forked? && s.Free(s.procs[p].pc.np)
      case ExitStart(c, p) => s.Runs(c, p) && s.procs[p].pc == User && p != s.init && s.waitLock == None
      case ExitStep(c, p) => s.Runs(c, p) && ExitReady(s, p)
      case WaitStart(c, p) => s.Runs(c, p) && (s.procs[p].pc == User || s.procs[p].pc == WaitAgain)
          && s.waitLock == None
      case WaitStep(c, p, _) => s.Runs(c, p) && WaitReady(s, p)
    }
  }

  /** `acquire` spins until the lock it needs is free. */
  predicate ExitReady(s: Sys, p: nat)
    requires p < |s.procs|
  {
    match s.procs[p].pc {
      case ExitReparent(_) => s.init < |s.procs|
      case ExitWakeInit(_, j) => j < |s.procs| && j != p ==> s.Free(j)
      case ExitWakeParent(j) => if j < |s.procs| then j != p ==> s.Free(j) else s.Free(p)
      case ExitLocked => true
      case _ => false
    }
  }

  predicate WaitReady(s: Sys, p: nat)
    requires p < |s.procs|
  {
    match s.procs[p].pc {
      case WaitScan(k, kids) =>
        if k < |s.procs| then s.procs[k].parent == Some(p) ==> s.Free(k)
        else kids ==> s.Free(p)
      case WaitSleep => true
      case _ => false
    }
  }

  function ExitDo(s: Sys, c: nat, p: nat): Sys
    requires s.Runs(c, p) && ExitReady(s, p)
  {
    var me := s.procs[p];
    match me.pc {
      case ExitReparent(k) =>
        if k >= |s.procs| then s.Set(p, me.(pc := ExitWakeParent(0)))
        else if s.procs[k].parent == Some(p) then
          var s1 := s.Set(k, s.procs[k].(parent := Some(s.init)));
          s1.Set(p, s1.procs[p].(pc := ExitWakeInit(k, 0)))
        else s.Set(p, me.(pc := ExitReparent(k + 1)))
      case ExitWakeInit(k, j) =>
        if j >= |s.procs| then s.Set(p, me.(pc := ExitReparent(k + 1)))
        else
          var s1 := if j == p then s else s.Set(j, Woken(s.procs[j], Some(s.init)));
          s1.Set(p, s1.procs[p].(pc := ExitWakeInit(k, j + 1)))
      case ExitWakeParent(j) =>
        if j >= |s.procs| then s.Set(p, me.(state := ZOMBIE, lock := Some(c), pc := ExitLocked))
        else
          var s1 := if j == p then s else s.Set(j, Woken(s.procs[j], me.parent));
          s1.Set(p, s1.procs[p].(pc := ExitWakeParent(j + 1)))
      case ExitLocked => s.Set(p, me.(pc := Exited)).(waitLock := None)
    }
  }

  function WaitDo(s: Sys, c: nat, p: nat, copyFails: bool): Sys
    requires s.Runs(c, p) && WaitReady(s, p)
  {
    var me := s.procs[p];
    match me.pc {
      case WaitScan(k, kids) =>
        if k < |s.procs| then
          if s.procs[k].parent == Some(p) then
            if s.procs[k].state == ZOMBIE then
              if copyFails then s.Set(p, me.(pc := User)).(waitLock := None)
              else
                var s1 := s.Set(k, Freed(s.procs[k])).(waitLock := None, reaped := s.reaped + [s.procs[k].pid]);
                s1.Set(p, s1.procs[p].(pc := User))
            else s.Set(p, me.(pc := WaitScan(k + 1, true)))
          else s.Set(p, me.(pc := WaitScan(k + 1, kids)))
        else if k > |s.procs| && kids then s.Set(p, me.(lock := Some(c), pc := WaitSleep))
        else if kids && !me.killed then s.Set(p, me.(pc := WaitScan(|s.procs| + 1, true)))
        else s.Set(p, me.(pc := User)).(waitLock := None)
      case WaitSleep =>
        s.Set(p, me.(state := SLEEPING, chan := Some(p), pc := Leaving(Waited))).(waitLock := None)
    }
  }

  function Do(s: Sys, a: Action): Sys
    requires Enabled(s, a)
  {
    match a {
      case Pick(c, p) =>
        s.Set(p, s.procs[p].(state := RUNNING, lock := Some(c), on := Some(c))).SetCpu(c, Cpu(Picked(p), Some(p)))
      case SwitchIn(c, p) =>
        var q := s.procs[p];
        s.Set(p, q.(pc := if q.pc.Leaving? then Resumed(q.pc.why) else q.pc)).SetCpu(c, s.cpus[c].(mode := On(p)))
      case Resume(c, p) =>
        var q := s.procs[p];
        var chan := if q.pc.why == Slept || q.pc.why == Waited then None else q.chan;
        s.Set(p, q.(lock := None, chan := chan, pc := Continuation(q.pc.why)))
      case Yield(c, p) =>
        var why := Interrupted(s.procs[p].pc).value;
        s.Set(p, s.procs[p].(state := RUNNABLE, lock := Some(c), pc := Leaving(why)))
      case SleepOn(c, p, chan) =>
        s.Set(p, s.procs[p].(state := SLEEPING, chan := Some(chan), lock := Some(c), pc := Leaving(Slept)))
      case SwitchOut(c, p) => s.SetCpu(c, s.cpus[c].(mode := Back(p)))
      case Retire(c, p) => s.Set(p, s.procs[p].(lock := None, on := None)).SetCpu(c, Cpu(Scheduling, None))
      case Wake(j, chan) => s.Set(j, Woken(s.procs[j], Some(chan)))
      case Kill(j) =>
        var q := s.procs[j].(killed := true);
        s.Set(j, if q.state == SLEEPING then q.(state := RUNNABLE) else q)
      case ForkAlloc(c, p, np) =>
        var s1 := s.Set(np, s.procs[np].(state := USED, pid := s.nextpid, forker := Some(p)));
        s1.Set(p, s1.procs[p].(pc := Forking(np))).(nextpid := s.nextpid + 1)
      case ForkFail(c, p) =>
        var np := s.procs[p].pc.np;
        var s1 := s.Set(np, Freed(s.procs[np]));
        s1.Set(p, s1.procs[p].(pc := User))
      case ForkParent(c, p) =>
        var np := s.procs[p].pc.np;
        var s1 := s.Set(np, s.procs[np].(parent := Some(p)));
        s1.Set(p, s1.procs[p].(pc := Forked(np)))
      case ForkRun(c, p) =>
        var np := s.procs[p].pc.np;
        var s1 := s.Set(np, s.procs[np].(state := RUNNABLE, pc := Leaving(Born), forker := None));
        s1.Set(p, s1.procs[p].(pc := User))
      case ExitStart(c, p) => s.Set(p, s.procs[p].(pc := ExitReparent(0))).(waitLock := Some(c))
      case ExitStep(c, p) => ExitDo(s, c, p)
      case WaitStart(c, p) => s.Set(p, s.procs[p].(pc := WaitScan(0, false))).(waitLock := Some(c))
      case WaitStep(c, p, copyFails) => WaitDo(s, c, p, copyFails)
    }
  }
}
