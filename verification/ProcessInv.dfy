/** What every step of the process protocol keeps. */
module ProcessInv {
  import opened Basics
  import opened Process

  predicate HoldsWait(pc: Pc) {
    pc.ExitReparent? || pc.ExitWakeInit? || pc.ExitWakeParent? || pc.ExitLocked? || pc.WaitScan? || pc.WaitSleep?
  }

  predicate HoldsOwn(pc: Pc) { pc.Leaving? || pc.Resumed? || pc.ExitLocked? || pc.Exited? || pc.WaitSleep? }

  predicate Alive(q: Proc) { q.state == SLEEPING || q.state == RUNNABLE || q.state == RUNNING }

  /** Asleep in `wait`. */
  predicate WaitAsleep(q: Proc, p: nat) { q.state == SLEEPING && q.chan == Some(p) }

  /** The state a thread has set before it leaves its CPU. */
  predicate LeftAs(q: Proc, p: nat, n: nat) {
    match q.pc {
      case Leaving(why) =>
        && (q.state == RUNNABLE || q.state == SLEEPING)
        && (q.state == SLEEPING ==> why == Slept || why == Waited)
        && (why == Waited ==> q.chan == Some(p))
        && (q.state == SLEEPING && why == Slept ==> q.chan.Some? && q.chan.value >= n)
      case Exited => q.state == ZOMBIE
      case _ => false
    }
  }

  /** The child slot a process is forking into, be it running or interrupted. */
  function ForksInto(pc: Pc): Option<nat> {
    match pc {
      case Forking(np) => Some(np)
      case Forked(np) => Some(np)
      case Leaving(Preempted(InFork(np))) => Some(np)
      case Leaving(Preempted(InForked(np))) => Some(np)
      case Resumed(Preempted(InFork(np))) => Some(np)
      case Resumed(Preempted(InForked(np))) => Some(np)
      case _ => None
    }
  }

  /** A slot no CPU refers to. */
  predicate OffOk(q: Proc, p: nat, n: nat) {
    && q.lock == None && q.state != RUNNING
    && (Alive(q) || q.state == ZOMBIE ==> LeftAs(q, p, n))
    && (q.state == UNUSED || q.state == USED ==> q.chan == None && !HoldsWait(q.pc) && ForksInto(q.pc) == None)
  }

  /** A slot the CPU in mode `m` refers to. */
  predicate OnOk(q: Proc, p: nat, n: nat, c: nat, m: Mode) {
    match m {
      case Picked(_) => q.lock == Some(c) && q.state == RUNNING && q.pc.Leaving?
          && (q.pc.why == Waited ==> q.chan == Some(p))
      case Back(_) => q.lock == Some(c) && LeftAs(q, p, n)
      case On(_) =>
        && q.lock == (if HoldsOwn(q.pc) then Some(c) else None)
        && (match q.pc {
              case Leaving(_) => LeftAs(q, p, n)
              case Exited => q.state == ZOMBIE
              case ExitLocked => q.state == ZOMBIE
              case _ => q.state == RUNNING
            })
      case Scheduling => false
    }
  }

  predicate Refers(m: Mode, p: nat) { m == Picked(p) || m == On(p) || m == Back(p) }

  ghost predicate ProcOk(s: Sys, p: nat)
    requires p < |s.procs|
  {
    var q := s.procs[p];
    match q.on {
      case None => OffOk(q, p, |s.procs|)
      case Some(c) => c < |s.cpus| && Refers(s.cpus[c].mode, p) && OnOk(q, p, |s.procs|, c, s.cpus[c].mode)
    }
  }

  /** Each slot being forked into belongs to one forking process. */
  ghost predicate ForkOk(s: Sys, p: nat)
    requires p < |s.procs|
  {
    match ForksInto(s.procs[p].pc) {
      case None => true
      case Some(np) =>
        np < |s.procs| && s.procs[np].state == USED && s.procs[np].forker == Some(p) && s.procs[np].on == None
    }
  }

  ghost predicate CpuOk(s: Sys, c: nat)
    requires c < |s.cpus|
  {
    match s.cpus[c].mode {
      case Scheduling => s.cpus[c].proc == None
      case Picked(p) => p < |s.procs| && s.procs[p].on == Some(c) && s.cpus[c].proc == Some(p)
      case On(p) => p < |s.procs| && s.procs[p].on == Some(c) && s.cpus[c].proc == Some(p)
      case Back(p) => p < |s.procs| && s.procs[p].on == Some(c) && s.cpus[c].proc == Some(p)
    }
  }

  /** Scheduling: CPUs and processes agree on who runs where and who holds which process lock. */
  ghost predicate SchedOk(s: Sys) {
    && (forall p: nat :: p < |s.procs| ==> ProcOk(s, p) && ForkOk(s, p))
    && (forall c: nat :: c < |s.cpus| ==> CpuOk(s, c))
  }

  /** At most slots `x` and `y` and CPU `c` changed. */
  ghost predicate Touches(s: Sys, s': Sys, x: nat, y: nat, c: nat) {
    && |s'.procs| == |s.procs| && |s'.cpus| == |s.cpus| && x < |s.procs| && y < |s.procs|
    && (forall p: nat :: p < |s.procs| && p != x && p != y ==> s'.procs[p] == s.procs[p])
    && (forall d: nat :: d < |s.cpus| && d != c ==> s'.cpus[d] == s.cpus[d])
  }

  lemma SchedFrame(s: Sys, s': Sys, x: nat, y: nat, c: nat)
    requires SchedOk(s) && Touches(s, s', x, y, c)
    requires ProcOk(s', x) && ForkOk(s', x) && ProcOk(s', y) && ForkOk(s', y)
    requires c < |s.cpus| ==> CpuOk(s', c)
    requires forall p :: (p == x || p == y) && s'.procs[p].on != s.procs[p].on ==>
               (s.procs[p].on == None || s.procs[p].on == Some(c))
                   && (s'.procs[p].on == None || s'.procs[p].on == Some(c))
    requires forall p :: (p == x || p == y) && s.procs[p].state == USED ==>
               || (s'.procs[p].state == USED && s'.procs[p].forker == s.procs[p].forker
                   && s'.procs[p].on == s.procs[p].on)
               || s.procs[p].forker == Some(x) || s.procs[p].forker == Some(y)
    requires c < |s.cpus| && s'.cpus[c] != s.cpus[c] ==>
               forall p: nat :: Refers(s.cpus[c].mode, p) && p < |s.procs| ==> p == x || p == y
    ensures SchedOk(s')
  {
    forall p: nat | p < |s'.procs|
      ensures ProcOk(s', p) && ForkOk(s', p)
    {
      assert ProcOk(s, p) && ForkOk(s, p);
    }
    forall d: nat | d < |s'.cpus|
      ensures CpuOk(s', d)
    {
      assert CpuOk(s, d);
    }
  }

  /** Steps of one CPU's scheduler that touch only the process they name. */
  lemma SchedOne(s: Sys, a: Action)
    requires SchedOk(s) && Enabled(s, a) && (a.Pick? || a.SwitchOut? || a.Retire?)
    ensures SchedOk(Do(s, a))
  {
    hide ForksInto;
    assert ProcOk(s, a.p) && ForkOk(s, a.p) && CpuOk(s, a.c);
    hide SchedOk;
    SchedFrame(s, Do(s, a), a.p, a.p, a.c);
  }

  /** A thread that was interrupted while forking goes on forking into the same slot. */
  lemma SchedBack(s: Sys, a: Action)
    requires SchedOk(s) && Enabled(s, a) && (a.SwitchIn? || a.Resume?)
    ensures SchedOk(Do(s, a))
  {
    var s' := Do(s, a);
    assert ProcOk(s, a.p) && ForkOk(s, a.p) && CpuOk(s, a.c);
    assert ForksInto(s'.procs[a.p].pc) == ForksInto(s.procs[a.p].pc);
    hide SchedOk, ForksInto;
    SchedFrame(s, s', a.p, a.p, a.c);
  }

  lemma SchedYield(s: Sys, a: Action)
    requires SchedOk(s) && Enabled(s, a) && a.Yield?
    ensures SchedOk(Do(s, a))
  {
    var s' := Do(s, a);
    assert ProcOk(s, a.p) && ForkOk(s, a.p) && CpuOk(s, a.c);
    assert ForksInto(s'.procs[a.p].pc) == ForksInto(s.procs[a.p].pc);
    hide SchedOk, ForksInto;
    SchedFrame(s, s', a.p, a.p, a.c);
  }

  lemma SchedSelf(s: Sys, a: Action)
    requires SchedOk(s) && Enabled(s, a) && (a.SleepOn? || a.ExitStart? || a.WaitStart?)
    ensures SchedOk(Do(s, a))
  {
    var s' := Do(s, a);
    assert ProcOk(s, a.p) && ForkOk(s, a.p) && CpuOk(s, a.c);
    assert ForksInto(s'.procs[a.p].pc) == None;
    hide SchedOk, ForksInto;
    SchedFrame(s, s', a.p, a.p, a.c);
  }

  lemma SchedWake(s: Sys, a: Action)
    requires SchedOk(s) && Enabled(s, a) && (a.Wake? || a.Kill?)
    ensures SchedOk(Do(s, a))
  {
    assert ProcOk(s, a.j) && ForkOk(s, a.j);
    SchedFrame(s, Do(s, a), a.j, a.j, |s.cpus|);
  }

  lemma SchedAlloc(s: Sys, a: Action)
    requires SchedOk(s) && Enabled(s, a) && (a.ForkAlloc?)
    ensures SchedOk(Do(s, a))
  {
    var np := a.np;
    assert ProcOk(s, a.p) && ForkOk(s, a.p) && CpuOk(s, a.c);
    assert ProcOk(s, np) && ForkOk(s, np);
    SchedFrame(s, Do(s, a), a.p, np, a.c);
  }

  /** A slot being forked into is freed, linked or started by the process forking into it. */
  lemma SchedChild(s: Sys, s': Sys, p: nat, np: nat, child: Proc, pc: Pc)
    requires SchedOk(s) && p < |s.procs| && np < |s.procs|
    requires (s.procs[p].pc == Forking(np) || s.procs[p].pc == Forked(np))
    requires s' == s.Set(np, child).Set(p, s.procs[p].(pc := pc)) && p != np && s.procs[p].on.Some?
    requires OffOk(child, np, |s.procs|) && child.on == None && ForksInto(child.pc) == None
    requires pc == User || (pc == Forked(np) && child.state == USED && child.forker == Some(p))
    ensures SchedOk(s')
  {
    assert ProcOk(s, p) && ForkOk(s, p) && CpuOk(s, s.procs[p].on.value);
    assert ProcOk(s, np) && ForkOk(s, np);
    SchedFrame(s, s', p, np, s.procs[p].on.value);
  }

  lemma SchedFork(s: Sys, a: Action)
    requires SchedOk(s) && Enabled(s, a) && (a.ForkFail? || a.ForkParent? || a.ForkRun?)
    ensures SchedOk(Do(s, a))
  {
    var np, s' := s.procs[a.p].pc.np, Do(s, a);
    assert ProcOk(s, a.p) && ForkOk(s, a.p) && CpuOk(s, a.c) && ProcOk(s, np);
    hide SchedOk;
    SchedChild(s, s', a.p, np, s'.procs[np], s'.procs[a.p].pc);
  }

  /** One step of `exit` under the wait lock, with another slot whose link or sleep it changes. */
  lemma SchedOther(s: Sys, s': Sys, p: nat, k: nat, other: Proc, pc: Pc)
    requires SchedOk(s) && p < |s.procs| && k < |s.procs| && p != k && s.procs[p].on.Some?
    requires s.procs[p].pc.ExitReparent? || s.procs[p].pc.ExitWakeInit? || s.procs[p].pc.ExitWakeParent?
    requires pc.ExitReparent? || pc.ExitWakeInit? || pc.ExitWakeParent?
    requires s' == s.Set(k, other).Set(p, s.procs[p].(pc := pc))
    requires other == s.procs[k].(parent := other.parent, state := other.state)
    requires other.state == s.procs[k].state
        || (s.procs[k].state == SLEEPING && s.procs[k].lock == None && other.state == RUNNABLE)
    ensures SchedOk(s')
  {
    assert ProcOk(s, p) && ForkOk(s, p) && CpuOk(s, s.procs[p].on.value);
    assert ProcOk(s, k) && ForkOk(s, k) && ForksInto(pc) == None;
    assert ProcOk(s', p) && ProcOk(s', k) && ForkOk(s', p) && ForkOk(s', k);
    hide SchedOk, ForksInto, ProcOk, ForkOk;
    SchedFrame(s, s', p, k, s.procs[p].on.value);
  }

  /** The steps of `exit` that change only the exiting process. */
  lemma SchedExitSelf(s: Sys, s': Sys, c: nat, p: nat, me: Proc)
    requires SchedOk(s) && s.Runs(c, p) && s'.procs == s.procs[p := me] && s'.cpus == s.cpus
    requires s.procs[p].on == Some(c) && me.on == Some(c) && OnOk(me, p, |s.procs|, c, On(p)) && Exiting(me.pc)
    ensures SchedOk(s')
  {
    assert ProcOk(s, p) && ForkOk(s, p) && CpuOk(s, c);
    SchedFrame(s, s', p, p, c);
  }

  lemma SchedExit(s: Sys, c: nat, p: nat)
    requires SchedOk(s) && Enabled(s, ExitStep(c, p))
    ensures SchedOk(ExitDo(s, c, p))
  {
    var s', pc := ExitDo(s, c, p), s.procs[p].pc;
    assert ProcOk(s, p) && CpuOk(s, c);
    hide SchedOk;
    var k := if pc.ExitReparent? then pc.k else if pc.ExitWakeInit? || pc.ExitWakeParent? then pc.j else p;
    if k < |s.procs| && k != p {
      SchedOther(s, s', p, k, s'.procs[k], s'.procs[p].pc);
    } else {
      SchedExitSelf(s, s', c, p, s'.procs[p]);
    }
  }

  lemma SchedReap(s: Sys, c: nat, p: nat, copyFails: bool)
    requires SchedOk(s) && Enabled(s, WaitStep(c, p, copyFails)) && s.procs[p].pc.WaitScan?
    requires s.procs[p].pc.k < |s.procs|
    ensures SchedOk(WaitDo(s, c, p, copyFails))
  {
    var k := s.procs[p].pc.k;
    assert ProcOk(s, p) && ForkOk(s, p) && CpuOk(s, c);
    assert ProcOk(s, k) && ForkOk(s, k);
    hide SchedOk;
    if s.procs[k].parent == Some(p) && s.procs[k].state == ZOMBIE && !copyFails {
      SchedFreed(s, c, p, k);
    } else {
      SchedFrame(s, WaitDo(s, c, p, copyFails), p, p, c);
    }
  }

  lemma SchedFreed(s: Sys, c: nat, p: nat, k: nat)
    requires SchedOk(s) && s.Runs(c, p) && s.Free(k) && s.procs[k].state == ZOMBIE && s.procs[p].pc.WaitScan? && p != k
    ensures var s1 := s.Set(k, Freed(s.procs[k])).(waitLock := None, reaped := s.reaped + [s.procs[k].pid]);
            SchedOk(s1.Set(p, s.procs[p].(pc := User)))
  {
    var s1 := s.Set(k, Freed(s.procs[k])).(waitLock := None, reaped := s.reaped + [s.procs[k].pid]);
    assert ProcOk(s, p) && ForkOk(s, p) && CpuOk(s, c);
    assert ProcOk(s, k) && ForkOk(s, k);
    SchedFrame(s, s1.Set(p, s.procs[p].(pc := User)), p, k, c);
  }

  lemma SchedWait(s: Sys, c: nat, p: nat, copyFails: bool)
    requires SchedOk(s) && Enabled(s, WaitStep(c, p, copyFails))
    requires !(s.procs[p].pc.WaitScan? && s.procs[p].pc.k < |s.procs|)
    ensures SchedOk(WaitDo(s, c, p, copyFails))
  {
    assert ProcOk(s, p) && ForkOk(s, p) && CpuOk(s, c);
    SchedFrame(s, WaitDo(s, c, p, copyFails), p, p, c);
  }

  lemma SchedStep(s: Sys, a: Action)
    requires SchedOk(s) && Enabled(s, a)
    ensures SchedOk(Do(s, a))
  {
    hide SchedOk;
    match a {
      case Wake(_, _) => SchedWake(s, a);
      case Kill(_) => SchedWake(s, a);
      case ForkAlloc(_, _, _) => SchedAlloc(s, a);
      case ForkFail(_, _) => SchedFork(s, a);
      case ForkParent(_, _) => SchedFork(s, a);
      case ForkRun(_, _) => SchedFork(s, a);
      case ExitStep(c, p) => SchedExit(s, c, p);
      case WaitStep(c, p, f) =>
        if s.procs[p].pc.WaitScan?
            && s.procs[p].pc.k < |s.procs| { SchedReap(s, c, p, f); } else { SchedWait(s, c, p, f); }
      case SwitchIn(_, _) => SchedBack(s, a);
      case Resume(_, _) => SchedBack(s, a);
      case Yield(_, _) => SchedYield(s, a);
      case SleepOn(_, _, _) => SchedSelf(s, a);
      case ExitStart(_, _) => SchedSelf(s, a);
      case WaitStart(_, _) => SchedSelf(s, a);
      case _ => SchedOne(s, a);
    }
  }

  // --- The wait lock ------------------------------------------------------------------------------

  ghost predicate WaitOk(s: Sys) {
    && (forall p: nat :: p < |s.procs| && HoldsWait(s.procs[p].pc) ==>
        s.procs[p].on.Some? && s.waitLock == s.procs[p].on)
    && (s.waitLock.Some? ==>
          && s.waitLock.value < |s.cpus| && s.cpus[s.waitLock.value].mode.On?
          && s.cpus[s.waitLock.value].mode.p < |s.procs| && HoldsWait(s.procs[s.cpus[s.waitLock.value].mode.p].pc))
  }

  /** At most one process is between acquiring and releasing `wait_lock`. */
  lemma OneHolder(s: Sys, p: nat, q: nat)
    requires SchedOk(s) && WaitOk(s) && p < |s.procs| && q < |s.procs|
    requires HoldsWait(s.procs[p].pc) && HoldsWait(s.procs[q].pc)
    ensures p == q
  {
    assert ProcOk(s, p) && ProcOk(s, q);
  }

  /** Nobody acquires or releases the wait lock. */
  lemma WaitSame(s: Sys, s': Sys)
    requires WaitOk(s) && |s'.procs| == |s.procs| && |s'.cpus| == |s.cpus| && s'.waitLock == s.waitLock
    requires s.waitLock.Some? ==> s'.cpus[s.waitLock.value].mode == s.cpus[s.waitLock.value].mode
    requires forall q: nat :: q < |s.procs| ==>
               && (HoldsWait(s'.procs[q].pc) <==> HoldsWait(s.procs[q].pc))
               && (HoldsWait(s.procs[q].pc) ==> s'.procs[q].on == s.procs[q].on)
    ensures WaitOk(s')
  {
  }

  /** Two slots change, without entering or leaving the wait lock. */
  lemma WaitTwo(s: Sys, s': Sys, x: nat, y: nat)
    requires WaitOk(s) && |s'.procs| == |s.procs| && x < |s.procs| && y < |s.procs| && s'.waitLock == s.waitLock
    requires s'.cpus == s.cpus
    requires forall q: nat :: q < |s.procs| && q != x && q != y ==> s'.procs[q] == s.procs[q]
    requires !HoldsWait(s.procs[x].pc) && !HoldsWait(s'.procs[x].pc) && !HoldsWait(s.procs[y].pc)
    requires !HoldsWait(s'.procs[y].pc)
    ensures WaitOk(s')
  {
    WaitSame(s, s');
  }

  lemma WaitDrop(s: Sys, s': Sys, p: nat)
    requires SchedOk(s) && WaitOk(s) && |s'.procs| == |s.procs| && p < |s.procs| && HoldsWait(s.procs[p].pc)
    requires s'.waitLock == None && !HoldsWait(s'.procs[p].pc)
    requires forall q: nat :: q < |s.procs| && q != p && HoldsWait(s'.procs[q].pc) ==> HoldsWait(s.procs[q].pc)
    ensures WaitOk(s')
  {
    forall q: nat | q < |s.procs| && q != p
      ensures !HoldsWait(s'.procs[q].pc)
    {
      if HoldsWait(s.procs[q].pc) {
        OneHolder(s, p, q);
      }
    }
  }

  /** The steps that change where a CPU is. */
  lemma WaitSwitch(s: Sys, a: Action)
    requires SchedOk(s) && WaitOk(s) && Enabled(s, a) && (a.Pick? || a.SwitchIn? || a.SwitchOut? || a.Retire?)
    ensures WaitOk(Do(s, a))
  {
    assert ProcOk(s, a.p) && CpuOk(s, a.c);
    hide SchedOk;
    WaitSame(s, Do(s, a));
  }

  lemma WaitSelf(s: Sys, a: Action)
    requires SchedOk(s) && WaitOk(s) && Enabled(s, a) && (a.Resume? || a.Yield? || a.SleepOn?)
    ensures WaitOk(Do(s, a))
  {
    hide WaitOk;
    assert ProcOk(s, a.p) && CpuOk(s, a.c);
    hide SchedOk;
    WaitTwo(s, Do(s, a), a.p, a.p);
  }

  lemma WaitSched(s: Sys, a: Action)
    requires SchedOk(s) && WaitOk(s) && Enabled(s, a)
    requires a.Pick? || a.SwitchIn? || a.Resume? || a.Yield? || a.SleepOn? || a.SwitchOut? || a.Retire?
    ensures WaitOk(Do(s, a))
  {
    hide SchedOk, WaitOk, Do, Enabled;
    if a.Resume? || a.Yield? || a.SleepOn? {
      WaitSelf(s, a);
    } else {
      WaitSwitch(s, a);
    }
  }

  lemma WaitWake(s: Sys, a: Action)
    requires WaitOk(s) && Enabled(s, a) && (a.Wake? || a.Kill?)
    ensures WaitOk(Do(s, a))
  {
    WaitSame(s, Do(s, a));
  }

  lemma WaitFork(s: Sys, a: Action)
    requires SchedOk(s) && WaitOk(s) && Enabled(s, a) && (a.ForkAlloc? || a.ForkFail? || a.ForkParent? || a.ForkRun?)
    ensures WaitOk(Do(s, a))
  {
    hide WaitOk, Do;
    var np := if a.ForkAlloc? then a.np else s.procs[a.p].pc.np;
    if a.ForkParent? {
      WaitLink(s, a.c, a.p);
    } else {
      ForkSlots(s, a, np);
      ForkTouches(s, a, np);
      WaitTwo(s, Do(s, a), a.p, np);
    }
  }

  lemma WaitLink(s: Sys, c: nat, p: nat)
    requires SchedOk(s) && WaitOk(s) && Enabled(s, ForkParent(c, p))
    ensures WaitOk(Do(s, ForkParent(c, p)))
  {
    hide WaitOk;
    var np := s.procs[p].pc.np;
    assert ForkOk(s, p) && ProcOk(s, np);
    hide SchedOk;
    WaitTwo(s, Do(s, ForkParent(c, p)), p, np);
  }

  lemma WaitEnter(s: Sys, a: Action)
    requires SchedOk(s) && WaitOk(s) && Enabled(s, a) && (a.ExitStart? || a.WaitStart?)
    ensures WaitOk(Do(s, a))
  {
    assert ProcOk(s, a.p) && CpuOk(s, a.c);
  }

  lemma WaitExit(s: Sys, c: nat, p: nat)
    requires SchedOk(s) && WaitOk(s) && Enabled(s, ExitStep(c, p))
    ensures WaitOk(ExitDo(s, c, p))
  {
    var s' := ExitDo(s, c, p);
    assert ProcOk(s, p) && CpuOk(s, c);
    hide SchedOk;
    if s.procs[p].pc.ExitLocked? {
      WaitDrop(s, s', p);
    } else {
      WaitSame(s, s');
    }
  }

  lemma WaitWait(s: Sys, c: nat, p: nat, copyFails: bool)
    requires SchedOk(s) && WaitOk(s) && Enabled(s, WaitStep(c, p, copyFails))
    ensures WaitOk(WaitDo(s, c, p, copyFails))
  {
    var s' := WaitDo(s, c, p, copyFails);
    assert ProcOk(s, p) && CpuOk(s, c);
    hide SchedOk;
    if s'.waitLock == None {
      WaitDrop(s, s', p);
    } else {
      WaitSame(s, s');
    }
  }

  lemma WaitStepOk(s: Sys, a: Action)
    requires SchedOk(s) && WaitOk(s) && Enabled(s, a)
    ensures WaitOk(Do(s, a))
  {
    hide SchedOk, WaitOk, ExitReady, WaitReady, ExitDo, WaitDo;
    if a.ExitStart? || a.WaitStart? {
      WaitEnter(s, a);
    } else if a.ExitStep? {
      WaitExit(s, a.c, a.p);
    } else if a.WaitStep? {
      WaitWait(s, a.c, a.p, a.copyFails);
    } else if a.Wake? || a.Kill? {
      WaitWake(s, a);
    } else if a.ForkAlloc? || a.ForkFail? || a.ForkParent? || a.ForkRun? {
      WaitFork(s, a);
    } else {
      WaitSched(s, a);
    }
  }

  // --- Parents, children and zombies --------------------------------------------------------------

  predicate Proto(pc: Pc) { HoldsWait(pc) || pc == Exited }

  /** Living parents: everyone's parent is alive, and whoever exits has no children left behind the
      point its `reparent` has reached. */
  ghost predicate FamilyOk(s: Sys) {
    && s.init < |s.procs| && Alive(s.procs[s.init]) && s.procs[s.init].parent == None
    && (forall k: nat :: k < |s.procs| ==> ParentOk(s, k))
    && (forall p: nat, k: nat :: p < |s.procs| && k < |s.procs| && Gone(s.procs[p].pc, k) ==>
        s.procs[k].parent != Some(p))
    && (forall p: nat :: p < |s.procs| && (Exiting(s.procs[p].pc) || s.procs[p].state == ZOMBIE) ==> p != s.init)
  }

  ghost predicate ParentOk(s: Sys, k: nat)
    requires k < |s.procs|
  {
    s.procs[k].parent.Some? ==>
      && s.procs[k].parent.value < |s.procs| && s.procs[k].parent.value != k
      && Alive(s.procs[s.procs[k].parent.value])
  }

  predicate Exiting(pc: Pc) { pc.ExitReparent? || pc.ExitWakeInit? || pc.ExitWakeParent? || pc.ExitLocked?
      || pc.Exited? }

  /** Slot `k` is no child any more of a process exiting at `pc`. */
  predicate Gone(pc: Pc, k: nat) {
    match pc {
      case ExitReparent(n) => k < n
      case ExitWakeInit(n, _) => k <= n
      case ExitWakeParent(_) => true
      case ExitLocked => true
      case Exited => true
      case _ => false
    }
  }

  /** No lost wakeups: a process asleep in `wait` has no zombie child, except while somebody who has
      just given init a child has still to come to init's slot in `wakeup`. */
  ghost predicate ZombieOk(s: Sys) {
    && (forall k: nat :: k < |s.procs| && ZombieChildOfSleeper(s, k) ==> s.procs[k].parent == Some(s.init) && Waking(s))
    && (forall p: nat, k: nat ::
        p < |s.procs| && k < |s.procs| && Scanned(s.procs[p].pc, k) && s.procs[k].parent == Some(p) ==>
          s.procs[k].state != ZOMBIE)
    && (forall p: nat :: p < |s.procs| && s.procs[p].pc.ExitWakeParent? ==> ParentAwake(s, p, s.procs[p].pc.j))
  }

  /** If `wakeup` has passed the parent's slot, the parent is not asleep in `wait`. */
  ghost predicate ParentAwake(s: Sys, p: nat, j: nat)
    requires p < |s.procs|
  {
    s.procs[p].parent.Some? && s.procs[p].parent.value < |s.procs| && s.procs[p].parent.value < j ==>
      !WaitAsleep(s.procs[s.procs[p].parent.value], s.procs[p].parent.value)
  }

  ghost predicate ZombieChildOfSleeper(s: Sys, k: nat)
    requires k < |s.procs|
  {
    && s.procs[k].state == ZOMBIE && s.procs[k].parent.Some? && s.procs[k].parent.value < |s.procs|
    && WaitAsleep(s.procs[s.procs[k].parent.value], s.procs[k].parent.value)
  }

  ghost predicate Waking(s: Sys) {
    exists p: nat :: p < |s.procs| && s.procs[p].pc.ExitWakeInit? && s.procs[p].pc.j <= s.init
  }

  /** A process in `wait` has seen slot `k` in this scan. */
  predicate Scanned(pc: Pc, k: nat) {
    match pc {
      case WaitScan(n, _) => k < n
      case WaitSleep => true
      case _ => false
    }
  }

  /** A change to a slot that cannot disturb families. */
  predicate Quiet(q: Proc, q': Proc, p: nat, init: nat) {
    && (q'.parent == q.parent || q'.parent == None)
    && (Alive(q) ==> Alive(q'))
    && (q'.state == ZOMBIE ==> q.state == ZOMBIE)
    && (WaitAsleep(q', p) ==> WaitAsleep(q, p))
    && (q.pc.ExitWakeInit? ==> q'.pc == q.pc)
    && (q'.pc == q.pc || !Proto(q'.pc) || (q'.pc.WaitScan? && q'.pc.k == 0)
        || (q'.pc.ExitReparent? && q'.pc.k == 0 && p != init))
  }

  ghost predicate AllQuiet(s: Sys, s': Sys) {
    && |s'.procs| == |s.procs| && s'.init == s.init
    && forall p: nat :: p < |s.procs| ==> Quiet(s.procs[p], s'.procs[p], p, s.init)
  }

  lemma QuietKeeps(s: Sys, s': Sys)
    requires FamilyOk(s) && ZombieOk(s) && AllQuiet(s, s')
    ensures FamilyOk(s') && ZombieOk(s')
  {
    QuietFamily(s, s');
    QuietZombie(s, s');
  }

  lemma QuietFamily(s: Sys, s': Sys)
    requires FamilyOk(s) && AllQuiet(s, s')
    ensures FamilyOk(s')
  {
    forall k: nat | k < |s'.procs|
      ensures ParentOk(s', k)
    {
      assert ParentOk(s, k);
    }
    forall p: nat, k: nat | p < |s'.procs| && k < |s'.procs| && Gone(s'.procs[p].pc, k)
      ensures s'.procs[k].parent != Some(p)
    {
      assert Quiet(s.procs[p], s'.procs[p], p, s.init) && Quiet(s.procs[k], s'.procs[k], k, s.init);
    }
  }

  lemma QuietZombie(s: Sys, s': Sys)
    requires FamilyOk(s) && ZombieOk(s) && AllQuiet(s, s')
    ensures ZombieOk(s')
  {
    forall p: nat | p < |s'.procs| && s'.procs[p].pc.ExitWakeParent?
      ensures ParentAwake(s', p, s'.procs[p].pc.j)
    {
      assert ParentAwake(s, p, s.procs[p].pc.j);
    }
  }

  lemma QuietSwitch(s: Sys, a: Action)
    requires SchedOk(s) && Enabled(s, a)
    requires a.Pick? || a.SwitchIn? || a.Resume? || a.SwitchOut? || a.Retire?
    ensures AllQuiet(s, Do(s, a))
  {
    hide AllQuiet;
    assert ProcOk(s, a.p) && CpuOk(s, a.c);
    hide SchedOk;
    TwoQuiet(s, Do(s, a), a.p, a.p);
  }

  lemma QuietSelf(s: Sys, a: Action)
    requires SchedOk(s) && Enabled(s, a) && (a.Yield? || a.SleepOn? || a.ExitStart? || a.WaitStart?)
    ensures AllQuiet(s, Do(s, a))
  {
    hide AllQuiet;
    assert ProcOk(s, a.p) && CpuOk(s, a.c);
    hide SchedOk;
    TwoQuiet(s, Do(s, a), a.p, a.p);
  }

  lemma QuietWake(s: Sys, a: Action)
    requires SchedOk(s) && Enabled(s, a) && (a.Wake? || a.Kill?)
    ensures AllQuiet(s, Do(s, a))
  {
  }

  /** Two slots change quietly, the rest not at all. */
  lemma TwoQuiet(s: Sys, s': Sys, x: nat, y: nat)
    requires |s'.procs| == |s.procs| && s'.init == s.init && x < |s.procs| && y < |s.procs|
    requires Quiet(s.procs[x], s'.procs[x], x, s.init) && Quiet(s.procs[y], s'.procs[y], y, s.init)
    requires forall p: nat :: p < |s.procs| && p != x && p != y ==> s'.procs[p] == s.procs[p]
    ensures AllQuiet(s, s')
  {
  }

  /** A step of `fork` touches the forking process and the new slot. */
  lemma ForkTouches(s: Sys, a: Action, np: nat)
    requires Enabled(s, a) && (a.ForkAlloc? || a.ForkFail? || a.ForkRun?)
    requires np == if a.ForkAlloc? then a.np else s.procs[a.p].pc.np
    requires a.p != np && np < |s.procs|
    ensures var s' := Do(s, a);
            && |s'.procs| == |s.procs| && s'.init == s.init && s'.cpus == s.cpus && s'.waitLock == s.waitLock
            && (forall p: nat :: p < |s.procs| && p != a.p && p != np ==> s'.procs[p] == s.procs[p])
            && s'.procs[a.p] == s.procs[a.p].(pc := if a.ForkAlloc? then Forking(np) else User)
            && s'.procs[np] == match a {
                 case ForkAlloc(_, p, _) => s.procs[np].(state := USED, pid := s.nextpid, forker := Some(p))
                 case ForkFail(_, _) => Freed(s.procs[np])
                 case _ => s.procs[np].(state := RUNNABLE, pc := Leaving(Born), forker := None)
               }
  {
  }

  /** The new slot is not the forking process, and not alive yet. */
  lemma ForkSlots(s: Sys, a: Action, np: nat)
    requires SchedOk(s) && Enabled(s, a) && (a.ForkAlloc? || a.ForkFail? || a.ForkRun?)
    requires np == if a.ForkAlloc? then a.np else s.procs[a.p].pc.np
    ensures a.p < |s.procs| && np < |s.procs| && a.p != np && !s.procs[a.p].pc.ExitWakeInit?
    ensures !Alive(s.procs[np]) && !HoldsWait(s.procs[np].pc) && s.procs[np].chan == None
    ensures !HoldsWait(s.procs[a.p].pc) && !Proto(Forking(np)) && !Proto(User) && !Proto(Leaving(Born))
  {
    hide Do;
    assert CpuOk(s, a.c) && ProcOk(s, a.p) && ForkOk(s, a.p);
    assert ProcOk(s, np);
  }

  lemma QuietFork(s: Sys, a: Action)
    requires SchedOk(s) && Enabled(s, a) && (a.ForkAlloc? || a.ForkFail? || a.ForkRun?)
    ensures AllQuiet(s, Do(s, a))
  {
    hide AllQuiet, Do, SchedOk, Quiet, Proto, Alive, HoldsWait;
    var np := if a.ForkAlloc? then a.np else s.procs[a.p].pc.np;
    ForkSlots(s, a, np);
    ForkTouches(s, a, np);
    var s' := Do(s, a);
    assert Quiet(s.procs[a.p], s'.procs[a.p], a.p, s.init) by {
      ForkerQuiet(s.procs[a.p], s'.procs[a.p].pc, a.p, s.init);
    }
    assert Quiet(s.procs[np], s'.procs[np], np, s.init) by {
      SlotQuiet(s.procs[np], s'.procs[np], np, s.init);
    }
    TwoQuiet(s, s', a.p, np);
  }

  lemma ForkerQuiet(q: Proc, pc: Pc, p: nat, init: nat)
    requires !q.pc.ExitWakeInit? && !Proto(pc)
    ensures Quiet(q, q.(pc := pc), p, init)
  {
  }

  lemma SlotQuiet(q: Proc, q': Proc, p: nat, init: nat)
    requires !Alive(q) && !HoldsWait(q.pc) && (q'.parent == q.parent || q'.parent == None)
    requires q'.state != ZOMBIE && !WaitAsleep(q', p) && (q'.pc == q.pc || !Proto(q'.pc))
    ensures Quiet(q, q', p, init)
  {
  }

  /** The part of `wait` that disturbs nobody: every way of returning. */
  lemma QuietWait(s: Sys, c: nat, p: nat, copyFails: bool)
    requires SchedOk(s) && Enabled(s, WaitStep(c, p, copyFails)) && WaitDo(s, c, p, copyFails).procs[p].pc == User
    ensures AllQuiet(s, WaitDo(s, c, p, copyFails))
  {
    hide AllQuiet;
    assert ProcOk(s, p) && CpuOk(s, c);
    var k := if s.procs[p].pc.WaitScan? && s.procs[p].pc.k < |s.procs| then s.procs[p].pc.k else p;
    TwoQuiet(s, WaitDo(s, c, p, copyFails), p, k);
  }

  /** A new child is not yet alive, so it is no zombie, and its parent is running. */
  lemma FamilyLink(s: Sys, s': Sys, p: nat, np: nat)
    requires FamilyOk(s) && p < |s.procs| && np < |s.procs| && p != np && np != s.init
    requires s.procs[p].state == RUNNING && s.procs[p].pc == Forking(np)
    requires s' == s.Set(np, s.procs[np].(parent := Some(p))).Set(p, s.procs[p].(pc := Forked(np)))
    ensures FamilyOk(s')
  {
    forall k: nat | k < |s'.procs|
      ensures ParentOk(s', k)
    {
      assert ParentOk(s, k);
    }
    forall q: nat, k: nat | q < |s'.procs| && k < |s'.procs| && Gone(s'.procs[q].pc, k)
      ensures s'.procs[k].parent != Some(q)
    {
      assert Gone(s.procs[q].pc, k);
    }
  }

  lemma ZombieLink(s: Sys, s': Sys, p: nat, np: nat)
    requires ZombieOk(s) && WaitOk(s) && s.waitLock == None && p < |s.procs| && np < |s.procs| && p != np
    requires s.procs[np].state == USED && s.procs[p].pc == Forking(np)
    requires s' == s.Set(np, s.procs[np].(parent := Some(p))).Set(p, s.procs[p].(pc := Forked(np)))
    ensures ZombieOk(s')
  {
    assert !Waking(s);
    forall k: nat | k < |s'.procs|
      ensures !ZombieChildOfSleeper(s', k)
    {
      assert !ZombieChildOfSleeper(s, k);
    }
    forall q: nat | q < |s'.procs|
      ensures !HoldsWait(s'.procs[q].pc)
    {
    }
  }

  lemma FamilyForkParent(s: Sys, c: nat, p: nat)
    requires SchedOk(s) && WaitOk(s) && FamilyOk(s) && ZombieOk(s) && Enabled(s, ForkParent(c, p))
    ensures FamilyOk(Do(s, ForkParent(c, p))) && ZombieOk(Do(s, ForkParent(c, p)))
  {
    hide ZombieOk, WaitOk;
    var s', np := Do(s, ForkParent(c, p)), s.procs[p].pc.np;
    assert ProcOk(s, p) && ForkOk(s, p) && ProcOk(s, np) && CpuOk(s, c);
    FamilyLink(s, s', p, np);
    ZombieLink(s, s', p, np);
  }

  /** Only `p` is inside the wait lock, so nobody else is scanning or exiting under it. */
  ghost predicate Alone(s: Sys, p: nat) {
    p < |s.procs| && forall q: nat :: q < |s.procs| && q != p ==> !HoldsWait(s.procs[q].pc)
  }

  /** Parents stay, nobody dies, and progress in `exit` only passes slots that are no children. */
  ghost predicate Progress(s: Sys, s': Sys) {
    && |s'.procs| == |s.procs| && s'.init == s.init
    && forall p: nat :: p < |s.procs| ==>
         && s'.procs[p].parent == s.procs[p].parent && (Alive(s.procs[p]) ==> Alive(s'.procs[p]))
         && (s'.procs[p].state == ZOMBIE ==> s.procs[p].state == ZOMBIE)
         && (Exiting(s'.procs[p].pc) ==> Exiting(s.procs[p].pc))
         && (s'.procs[p].pc != s.procs[p].pc ==> Passed(s, s'.procs[p].pc, p))
  }

  ghost predicate Passed(s: Sys, pc: Pc, p: nat) {
    forall k: nat :: k < |s.procs| && Gone(pc, k) ==> s.procs[k].parent != Some(p)
  }

  lemma FamilyProgress(s: Sys, s': Sys)
    requires FamilyOk(s) && Progress(s, s')
    ensures FamilyOk(s')
  {
    forall k: nat | k < |s'.procs|
      ensures ParentOk(s', k)
    {
      assert ParentOk(s, k);
    }
    forall p: nat, k: nat | p < |s'.procs| && k < |s'.procs| && Gone(s'.procs[p].pc, k)
      ensures s'.procs[k].parent != Some(p)
    {
      assert s'.procs[p].pc != s.procs[p].pc ==> Passed(s, s'.procs[p].pc, p);
    }
  }

  lemma FamilyGive(s: Sys, s': Sys, p: nat, k: nat)
    requires FamilyOk(s) && p < |s.procs| && k < |s.procs| && p != k && s.procs[p].pc == ExitReparent(k)
    requires s.procs[k].parent == Some(p)
    requires s' == s.Set(k, s.procs[k].(parent := Some(s.init))).Set(p, s.procs[p].(pc := ExitWakeInit(k, 0)))
    ensures FamilyOk(s')
  {
    forall j: nat | j < |s'.procs|
      ensures ParentOk(s', j)
    {
      assert ParentOk(s, j);
    }
    forall q: nat, j: nat | q < |s'.procs| && j < |s'.procs| && Gone(s'.procs[q].pc, j)
      ensures s'.procs[j].parent != Some(q)
    {
      assert q != p ==> Gone(s.procs[q].pc, j);
    }
  }

  lemma FamilyDie(s: Sys, c: nat, p: nat)
    requires FamilyOk(s) && p < |s.procs| && s.procs[p].pc.ExitWakeParent?
    ensures FamilyOk(s.Set(p, s.procs[p].(state := ZOMBIE, lock := Some(c), pc := ExitLocked)))
  {
    var s' := s.Set(p, s.procs[p].(state := ZOMBIE, lock := Some(c), pc := ExitLocked));
    forall j: nat | j < |s'.procs|
      ensures ParentOk(s', j)
    {
      assert ParentOk(s, j) && Gone(s.procs[p].pc, j);
    }
    forall q: nat, j: nat | q < |s'.procs| && j < |s'.procs| && Gone(s'.procs[q].pc, j)
      ensures s'.procs[j].parent != Some(q)
    {
      assert Gone(s.procs[q].pc, j);
    }
  }

  lemma FamilyExit(s: Sys, c: nat, p: nat)
    requires SchedOk(s) && FamilyOk(s) && Enabled(s, ExitStep(c, p))
    ensures FamilyOk(ExitDo(s, c, p))
  {
    var s', pc := ExitDo(s, c, p), s.procs[p].pc;
    assert ProcOk(s, p) && CpuOk(s, c) && ParentOk(s, p);
    if pc.ExitReparent? && pc.k < |s.procs| && s.procs[pc.k].parent == Some(p) {
      FamilyGive(s, s', p, pc.k);
    } else if pc.ExitWakeParent? && pc.j >= |s.procs| {
      FamilyDie(s, c, p);
    } else {
      FamilyExitOn(s, c, p);
    }
  }

  lemma StillPassed(s: Sys, p: nat, pc: Pc)
    requires FamilyOk(s) && p < |s.procs|
    requires forall k: nat :: k < |s.procs| && Gone(pc, k) ==> Gone(s.procs[p].pc, k) || s.procs[k].parent != Some(p)
    ensures Passed(s, pc, p)
  {
  }

  lemma FamilyExitOn(s: Sys, c: nat, p: nat)
    requires SchedOk(s) && FamilyOk(s) && Enabled(s, ExitStep(c, p))
    requires var pc := s.procs[p].pc;
             && !(pc.ExitReparent? && pc.k < |s.procs| && s.procs[pc.k].parent == Some(p))
             && !(pc.ExitWakeParent? && pc.j >= |s.procs|)
    ensures FamilyOk(ExitDo(s, c, p))
  {
    hide SchedOk, FamilyOk;
    var s' := ExitDo(s, c, p);
    assert Passed(s, s'.procs[p].pc, p) by {
      StillPassed(s, p, s'.procs[p].pc);
    }
    hide Passed;
    FamilyProgress(s, s');
  }

  /** A step of `wait` that does not return changes nobody else. */
  lemma WaitTouches(s: Sys, c: nat, p: nat, copyFails: bool)
    requires Enabled(s, WaitStep(c, p, copyFails)) && WaitDo(s, c, p, copyFails).procs[p].pc != User
    ensures var s' := WaitDo(s, c, p, copyFails); var q, q' := s.procs[p], s'.procs[p];
            && |s'.procs| == |s.procs| && s'.init == s.init && s'.procs == s.procs[p := q']
            && q'.parent == q.parent && (q'.state == q.state || q'.state == SLEEPING)
            && (q'.pc.WaitScan? || q'.pc.WaitSleep? || q'.pc.Leaving?)
  {
  }

  lemma FamilyWait(s: Sys, c: nat, p: nat, copyFails: bool)
    requires FamilyOk(s) && Enabled(s, WaitStep(c, p, copyFails))
    requires s.procs[p].state == RUNNING && WaitDo(s, c, p, copyFails).procs[p].pc != User
    ensures FamilyOk(WaitDo(s, c, p, copyFails))
  {
    hide FamilyOk, WaitDo, WaitReady;
    var s' := WaitDo(s, c, p, copyFails);
    WaitTouches(s, c, p, copyFails);
    assert Progress(s, s');
    FamilyProgress(s, s');
  }

  // Zombies.

  /** Nobody has just given init a child, so no sleeper has a zombie child. */
  ghost predicate NoneWaits(s: Sys) {
    forall k: nat :: k < |s.procs| ==> !ZombieChildOfSleeper(s, k)
  }

  lemma NoneWaking(s: Sys, p: nat)
    requires ZombieOk(s) && Alone(s, p) && !(s.procs[p].pc.ExitWakeInit? && s.procs[p].pc.j <= s.init)
    ensures NoneWaits(s)
  {
    assert !Waking(s);
  }

  lemma ZombieGive(s: Sys, s': Sys, p: nat, k: nat)
    requires FamilyOk(s) && ZombieOk(s) && Alone(s, p) && k < |s.procs| && p != k && s.procs[p].pc == ExitReparent(k)
    requires s' == s.Set(k, s.procs[k].(parent := Some(s.init))).Set(p, s.procs[p].(pc := ExitWakeInit(k, 0)))
    ensures ZombieOk(s')
  {
    NoneWaking(s, p);
    assert s'.procs[p].pc.ExitWakeInit? && s'.procs[p].pc.j <= s'.init;
    assert Waking(s');
    forall j: nat | j < |s'.procs| && ZombieChildOfSleeper(s', j)
      ensures s'.procs[j].parent == Some(s'.init)
    {
      assert !ZombieChildOfSleeper(s, j);
    }
  }

  /** Sleepers may wake, and the one process inside the wait lock may move on. */
  ghost predicate Calmer(s: Sys, s': Sys, p: nat) {
    && |s'.procs| == |s.procs| && s'.init == s.init
    && forall q: nat :: q < |s.procs| ==>
         && s'.procs[q].parent == s.procs[q].parent
         && (s'.procs[q].state == ZOMBIE ==> s.procs[q].state == ZOMBIE)
         && (WaitAsleep(s'.procs[q], q) ==> WaitAsleep(s.procs[q], q))
         && (q != p ==> s'.procs[q].pc == s.procs[q].pc)
  }

  lemma ZombieCalmer(s: Sys, s': Sys, p: nat)
    requires ZombieOk(s) && Alone(s, p) && Calmer(s, s', p) && NoneWaits(s')
    requires s'.procs[p].pc.ExitWakeParent? ==> ParentAwake(s', p, s'.procs[p].pc.j)
    requires forall k: nat :: k < |s.procs| && Scanned(s'.procs[p].pc, k) && s.procs[k].parent == Some(p) ==>
        s.procs[k].state != ZOMBIE
    ensures ZombieOk(s')
  {
  }

  lemma StillNone(s: Sys, s': Sys, p: nat)
    requires NoneWaits(s) && Calmer(s, s', p)
    ensures NoneWaits(s')
  {
    forall k: nat | k < |s'.procs|
      ensures !ZombieChildOfSleeper(s', k)
    {
      assert !ZombieChildOfSleeper(s, k);
    }
  }

  /** `exit` going on past a slot, or from one loop to the next. */
  lemma ZombieExitOn(s: Sys, s': Sys, p: nat)
    requires ZombieOk(s) && Alone(s, p) && Calmer(s, s', p) && Exiting(s'.procs[p].pc)
    requires !(s.procs[p].pc.ExitWakeInit? && s.procs[p].pc.j <= s.init)
    requires s'.procs[p].pc.ExitWakeParent? ==> ParentAwake(s', p, s'.procs[p].pc.j)
    ensures ZombieOk(s')
  {
    NoneWaking(s, p);
    StillNone(s, s', p);
    ZombieCalmer(s, s', p);
  }

  /** `wakeup(init)` at a slot up to init's own. */
  lemma ZombieWakeInit(s: Sys, s': Sys, p: nat, k: nat, j: nat)
    requires FamilyOk(s) && ZombieOk(s) && Alone(s, p) && Calmer(s, s', p) && s.procs[p].pc == ExitWakeInit(k, j)
    requires j <= s.init
    requires s'.procs[p].pc == ExitWakeInit(k, j + 1) && (j == s.init ==> !WaitAsleep(s'.procs[j], j))
    ensures ZombieOk(s')
  {
    if j < s.init {
      assert Waking(s') by {
        assert s'.procs[p].pc.ExitWakeInit? && s'.procs[p].pc.j <= s'.init;
      }
    }
    forall i: nat | i < |s'.procs| && ZombieChildOfSleeper(s', i)
      ensures s'.procs[i].parent == Some(s'.init) && Waking(s')
    {
      assert ZombieChildOfSleeper(s, i);
    }
  }

  lemma ZombieDie(s: Sys, c: nat, p: nat)
    requires FamilyOk(s) && ZombieOk(s) && Alone(s, p) && s.procs[p].pc.ExitWakeParent? && s.procs[p].pc.j >= |s.procs|
    ensures ZombieOk(s.Set(p, s.procs[p].(state := ZOMBIE, lock := Some(c), pc := ExitLocked)))
  {
    var s' := s.Set(p, s.procs[p].(state := ZOMBIE, lock := Some(c), pc := ExitLocked));
    NoneWaking(s, p);
    assert ParentAwake(s, p, s.procs[p].pc.j) && ParentOk(s, p);
    forall k: nat | k < |s'.procs|
      ensures !ZombieChildOfSleeper(s', k)
    {
      assert !ZombieChildOfSleeper(s, k);
    }
  }

  lemma ZombieReparent(s: Sys, c: nat, p: nat)
    requires FamilyOk(s) && ZombieOk(s) && Alone(s, p) && Enabled(s, ExitStep(c, p)) && s.procs[p].pc.ExitReparent?
    ensures ZombieOk(ExitDo(s, c, p))
  {
    hide ZombieOk, ZombieChildOfSleeper, NoneWaits;
    var s', k := ExitDo(s, c, p), s.procs[p].pc.k;
    assert ParentOk(s, p);
    if k < |s.procs| && s.procs[k].parent == Some(p) {
      ZombieGive(s, s', p, k);
    } else {
      ZombieExitOn(s, s', p);
    }
  }

  lemma ZombieExitInit(s: Sys, c: nat, p: nat)
    requires FamilyOk(s) && ZombieOk(s) && Alone(s, p) && Enabled(s, ExitStep(c, p)) && s.procs[p].pc.ExitWakeInit?
    ensures ZombieOk(ExitDo(s, c, p))
  {
    hide ZombieOk, ZombieChildOfSleeper, NoneWaits;
    var s', k, j := ExitDo(s, c, p), s.procs[p].pc.k, s.procs[p].pc.j;
    if j <= s.init {
      ZombieWakeInit(s, s', p, k, j);
    } else {
      ZombieExitOn(s, s', p);
    }
  }

  lemma ZombieExit(s: Sys, c: nat, p: nat)
    requires FamilyOk(s) && ZombieOk(s) && Alone(s, p) && Enabled(s, ExitStep(c, p))
    ensures ZombieOk(ExitDo(s, c, p))
  {
    hide FamilyOk, ZombieOk, NoneWaits;
    match s.procs[p].pc {
      case ExitReparent(_) => ZombieReparent(s, c, p);
      case ExitWakeInit(_, _) => ZombieExitInit(s, c, p);
      case ExitWakeParent(_) => ZombieExitParent(s, c, p);
      case ExitLocked => ZombieExitOn(s, ExitDo(s, c, p), p);
    }
  }

  lemma ZombieExitParent(s: Sys, c: nat, p: nat)
    requires FamilyOk(s) && ZombieOk(s) && Alone(s, p) && Enabled(s, ExitStep(c, p)) && s.procs[p].pc.ExitWakeParent?
    ensures ZombieOk(ExitDo(s, c, p))
  {
    var s', j := ExitDo(s, c, p), s.procs[p].pc.j;
    if j >= |s.procs| {
      ZombieDie(s, c, p);
    } else {
      assert ParentAwake(s, p, j) && ParentOk(s, p);
      ZombieExitOn(s, s', p);
    }
  }

  /** Going to sleep after a scan that found no zombie. */
  lemma ZombieSleep(s: Sys, p: nat, s': Sys)
    requires ZombieOk(s) && Alone(s, p) && s.procs[p].pc == WaitSleep
    requires s' == s.Set(p, s.procs[p].(state := SLEEPING, chan := Some(p), pc := Leaving(Waited))).(waitLock := None)
    ensures ZombieOk(s')
  {
    NoneWaking(s, p);
    forall k: nat | k < |s'.procs|
      ensures !ZombieChildOfSleeper(s', k)
    {
      assert !ZombieChildOfSleeper(s, k);
      assert Scanned(s.procs[p].pc, k);
    }
  }

  /** A scan going on past a slot that is no zombie child. */
  lemma ZombieScan(s: Sys, s': Sys, p: nat, me: Proc)
    requires ZombieOk(s) && Alone(s, p) && s.procs[p].pc.WaitScan? && (me.pc.WaitScan? || me.pc.WaitSleep?)
    requires s' == s.Set(p, me) && me == s.procs[p].(pc := me.pc, lock := me.lock)
    requires forall k: nat :: k < |s.procs| && Scanned(me.pc, k) ==>
               Scanned(s.procs[p].pc, k) || (s.procs[k].parent == Some(p) ==> s.procs[k].state != ZOMBIE)
    ensures ZombieOk(s')
  {
    NoneWaking(s, p);
    StillNone(s, s', p);
    ZombieCalmer(s, s', p);
  }

  lemma ZombieWait(s: Sys, c: nat, p: nat, copyFails: bool)
    requires ZombieOk(s) && Alone(s, p) && Enabled(s, WaitStep(c, p, copyFails))
    requires WaitDo(s, c, p, copyFails).procs[p].pc != User
    ensures ZombieOk(WaitDo(s, c, p, copyFails))
  {
    hide ZombieOk, Alone;
    var s' := WaitDo(s, c, p, copyFails);
    if s.procs[p].pc.WaitSleep? {
      ZombieSleep(s, p, s');
    } else {
      ZombieScan(s, s', p, s'.procs[p]);
    }
  }

  lemma FamilyStep(s: Sys, a: Action)
    requires SchedOk(s) && WaitOk(s) && FamilyOk(s) && ZombieOk(s) && Enabled(s, a)
    ensures FamilyOk(Do(s, a)) && ZombieOk(Do(s, a))
  {
    hide WaitOk, FamilyOk, ZombieOk, AllQuiet, Alone;
    match a {
      case ForkParent(c, p) => FamilyForkParent(s, c, p);
      case ExitStep(c, p) =>
        NoOthers(s, p);
        FamilyExit(s, c, p);
        ZombieExit(s, c, p);
      case WaitStep(c, p, f) =>
        if WaitDo(s, c, p, f).procs[p].pc == User {
          QuietWait(s, c, p, f);
          QuietKeeps(s, Do(s, a));
        } else {
          NoOthers(s, p);
          assert ProcOk(s, p) && CpuOk(s, c);
          FamilyWait(s, c, p, f);
          ZombieWait(s, c, p, f);
        }
      case Wake(_, _) => QuietWake(s, a); QuietKeeps(s, Do(s, a));
      case Kill(_) => QuietWake(s, a); QuietKeeps(s, Do(s, a));
      case ForkAlloc(_, _, _) => QuietFork(s, a); QuietKeeps(s, Do(s, a));
      case ForkFail(_, _) => QuietFork(s, a); QuietKeeps(s, Do(s, a));
      case ForkRun(_, _) => QuietFork(s, a); QuietKeeps(s, Do(s, a));
      case Yield(_, _) => QuietSelf(s, a); QuietKeeps(s, Do(s, a));
      case SleepOn(_, _, _) => QuietSelf(s, a); QuietKeeps(s, Do(s, a));
      case ExitStart(_, _) => QuietSelf(s, a); QuietKeeps(s, Do(s, a));
      case WaitStart(_, _) => QuietSelf(s, a); QuietKeeps(s, Do(s, a));
      case _ => QuietSwitch(s, a); QuietKeeps(s, Do(s, a));
    }
  }

  lemma NoOthers(s: Sys, p: nat)
    requires SchedOk(s) && WaitOk(s) && p < |s.procs| && HoldsWait(s.procs[p].pc)
    ensures Alone(s, p)
  {
    forall q: nat | q < |s.procs| && q != p
      ensures !HoldsWait(s.procs[q].pc)
    {
      if HoldsWait(s.procs[q].pc) {
        OneHolder(s, p, q);
      }
    }
  }

  // --- Process ids --------------------------------------------------------------------------------

  /** Live pids are distinct, and none of them has been returned by `wait`. */
  ghost predicate PidOk(s: Sys) {
    && (forall p: nat :: p < |s.procs| && s.procs[p].state != UNUSED ==>
        s.procs[p].pid < s.nextpid && s.procs[p].pid !in s.reaped)
    && (forall p: nat, q: nat :: p < q < |s.procs| && s.procs[p].state != UNUSED && s.procs[q].state != UNUSED ==>
          s.procs[p].pid != s.procs[q].pid)
    && (forall i :: 0 <= i < |s.reaped| ==> s.reaped[i] < s.nextpid)
    && (forall i, j :: 0 <= i < j < |s.reaped| ==> s.reaped[i] != s.reaped[j])
  }

  ghost predicate NoNewPids(s: Sys, s': Sys) {
    && |s'.procs| == |s.procs| && s'.nextpid == s.nextpid && s'.reaped == s.reaped
    && forall p: nat :: p < |s.procs| && s'.procs[p].state != UNUSED ==>
        s.procs[p].state != UNUSED && s'.procs[p].pid == s.procs[p].pid
  }

  lemma PidFrame(s: Sys, s': Sys)
    requires PidOk(s) && NoNewPids(s, s')
    ensures PidOk(s')
  {
  }

  lemma PidSched(s: Sys, a: Action)
    requires SchedOk(s) && Enabled(s, a)
    requires a.Pick? || a.SwitchIn? || a.Resume? || a.Yield? || a.SleepOn? || a.SwitchOut? || a.Retire?
        || a.ExitStart? || a.WaitStart?
    ensures NoNewPids(s, Do(s, a))
  {
    assert ProcOk(s, a.p) && CpuOk(s, a.c);
  }

  lemma PidOthers(s: Sys, a: Action)
    requires SchedOk(s) && Enabled(s, a) && (a.Wake? || a.Kill? || a.ForkFail? || a.ForkParent? || a.ForkRun?)
    ensures NoNewPids(s, Do(s, a))
  {
    if !a.Wake? && !a.Kill? {
      assert ForkOk(s, a.p);
    }
  }

  lemma PidExit(s: Sys, c: nat, p: nat)
    requires SchedOk(s) && Enabled(s, ExitStep(c, p))
    ensures NoNewPids(s, ExitDo(s, c, p))
  {
    assert ProcOk(s, p) && CpuOk(s, c);
  }

  lemma PidWait(s: Sys, c: nat, p: nat, copyFails: bool)
    requires PidOk(s) && SchedOk(s) && Enabled(s, WaitStep(c, p, copyFails))
    ensures PidOk(WaitDo(s, c, p, copyFails))
  {
    var s' := WaitDo(s, c, p, copyFails);
    assert ProcOk(s, p) && CpuOk(s, c);
    if s'.reaped == s.reaped {
      PidFrame(s, s');
    } else {
      PidReap(s, s', p, s.procs[p].pc.k);
    }
  }

  /** `wait` moves one pid from the live ones to the returned ones. */
  lemma PidReap(s: Sys, s': Sys, p: nat, k: nat)
    requires PidOk(s) && p < |s.procs| && k < |s.procs| && s.procs[k].state == ZOMBIE && |s'.procs| == |s.procs|
    requires s'.procs[k].state == UNUSED && s'.reaped == s.reaped + [s.procs[k].pid] && s'.nextpid == s.nextpid
    requires forall q: nat :: q < |s.procs| && q != k ==>
        s'.procs[q].state == s.procs[q].state && s'.procs[q].pid == s.procs[q].pid
    ensures PidOk(s')
  {
  }

  lemma PidAlloc(s: Sys, a: Action)
    requires PidOk(s) && SchedOk(s) && Enabled(s, a) && a.ForkAlloc?
    ensures PidOk(Do(s, a))
  {
    var s' := Do(s, a);
    assert forall q: nat :: q < |s.procs| && q != a.np ==>
        s'.procs[q].state == s.procs[q].state && s'.procs[q].pid == s.procs[q].pid;
  }

  lemma PidStep(s: Sys, a: Action)
    requires PidOk(s) && SchedOk(s) && Enabled(s, a)
    ensures PidOk(Do(s, a))
  {
    hide PidOk, SchedOk, NoNewPids;
    if a.ForkAlloc? {
      PidAlloc(s, a);
    } else if a.WaitStep? {
      PidWait(s, a.c, a.p, a.copyFails);
    } else {
      if a.ExitStep? {
        PidExit(s, a.c, a.p);
      } else if a.Wake? || a.Kill? || a.ForkFail? || a.ForkParent? || a.ForkRun? {
        PidOthers(s, a);
      } else {
        PidSched(s, a);
      }
      PidFrame(s, Do(s, a));
    }
  }
}

