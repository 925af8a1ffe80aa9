/** What the process protocol guarantees in every interleaving. */
module ProcessTheorems {
  import opened Basics
  import opened Process
  import opened ProcessInv

  /** Nobody but init is without a parent, so every zombie has somebody to wait for it. */
  ghost predicate NoOrphans(s: Sys) {
    forall p: nat :: p < |s.procs| ==> HasParent(s, p) && LinkSet(s, p)
  }

  ghost predicate HasParent(s: Sys, p: nat)
    requires p < |s.procs|
  {
    p != s.init && (Alive(s.procs[p]) || s.procs[p].state == ZOMBIE) ==> s.procs[p].parent.Some?
  }

  /** The parent link of the slot being forked into is set, the process forking running or interrupted. */
  predicate Linked(pc: Pc) {
    match pc {
      case Forked(_) => true
      case Leaving(Preempted(InForked(_))) => true
      case Resumed(Preempted(InForked(_))) => true
      case _ => false
    }
  }

  ghost predicate LinkSet(s: Sys, p: nat)
    requires p < |s.procs|
  {
    Linked(s.procs[p].pc) ==>
      var np := ForksInto(s.procs[p].pc);
      np.Some? && (np.value < |s.procs| ==> s.procs[np.value].parent.Some?)
  }

  ghost predicate Inv(s: Sys) {
    SchedOk(s) && WaitOk(s) && FamilyOk(s) && ZombieOk(s) && PidOk(s) && NoOrphans(s)
  }

  /** One runnable process, the first; every other slot is unused and every CPU is in its scheduler. */
  ghost predicate Init(s: Sys) {
    && s.init < |s.procs| && s.waitLock == None && s.reaped == [] && s.nextpid >= 1
    && (forall c :: 0 <= c < |s.cpus| ==> s.cpus[c] == Cpu(Scheduling, None))
    && s.procs[s.init].pid < s.nextpid
    && (forall p :: 0 <= p < |s.procs| ==>
          s.procs[p] == if p == s.init then Proc(RUNNABLE, s.procs[p].pid, None, None, false, None, Leaving(Born),
              None, None)
                        else Proc(UNUSED, 0, None, None, false, None, User, None, None))
  }

  ghost predicate IsRun(run: seq<Sys>, acts: seq<Action>) {
    && |run| == |acts| + 1 && Init(run[0])
    && forall i :: 0 <= i < |acts| ==> Enabled(run[i], acts[i]) && run[i + 1] == Do(run[i], acts[i])
  }

  lemma InitInv(s: Sys)
    requires Init(s)
    ensures Inv(s)
  {
    assert forall p: nat :: p < |s.procs| ==> ProcOk(s, p) && ForkOk(s, p);
    assert forall k: nat :: k < |s.procs| ==> ParentOk(s, k);
  }

  lemma OrphanSched(s: Sys, a: Action)
    requires SchedOk(s) && NoOrphans(s) && Enabled(s, a)
    requires a.Pick? || a.SwitchIn? || a.Resume? || a.Yield? || a.SleepOn? || a.SwitchOut? || a.Retire?
        || a.ExitStart? || a.WaitStart?
    ensures NoOrphans(Do(s, a))
  {
    assert ProcOk(s, a.p) && CpuOk(s, a.c);
    var s' := Do(s, a);
    forall p: nat | p < |s'.procs|
      ensures HasParent(s', p) && LinkSet(s', p)
    {
      assert HasParent(s, p) && LinkSet(s, p) && ForkOk(s, p);
    }
  }

  lemma OrphanWake(s: Sys, a: Action)
    requires SchedOk(s) && NoOrphans(s) && Enabled(s, a) && (a.Wake? || a.Kill?)
    ensures NoOrphans(Do(s, a))
  {
    var s' := Do(s, a);
    forall p: nat | p < |s'.procs|
      ensures HasParent(s', p) && LinkSet(s', p)
    {
      assert HasParent(s, p) && LinkSet(s, p) && ForkOk(s, p);
    }
  }

  lemma OrphanFork(s: Sys, a: Action)
    requires SchedOk(s) && NoOrphans(s) && Enabled(s, a) && (a.ForkAlloc? || a.ForkFail? || a.ForkParent? || a.ForkRun?)
    ensures NoOrphans(Do(s, a))
  {
    hide SchedOk, NoOrphans, Do;
    if a.ForkParent? {
      OrphanLink(s, a.c, a.p);
    } else {
      OrphanChild(s, a, if a.ForkAlloc? then a.np else s.procs[a.p].pc.np);
    }
  }

  lemma OrphanLink(s: Sys, c: nat, p: nat)
    requires SchedOk(s) && NoOrphans(s) && Enabled(s, ForkParent(c, p))
    ensures NoOrphans(Do(s, ForkParent(c, p)))
  {
    var s' := Do(s, ForkParent(c, p));
    forall q: nat | q < |s'.procs|
      ensures HasParent(s', q) && LinkSet(s', q)
    {
      assert HasParent(s, q) && LinkSet(s, q);
    }
  }

  lemma OrphanChild(s: Sys, a: Action, np: nat)
    requires SchedOk(s) && NoOrphans(s) && Enabled(s, a) && (a.ForkAlloc? || a.ForkFail? || a.ForkRun?)
    requires np == if a.ForkAlloc? then a.np else s.procs[a.p].pc.np
    ensures NoOrphans(Do(s, a))
  {
    hide Do;
    ForkSlots(s, a, np);
    ForkTouches(s, a, np);
    var s' := Do(s, a);
    assert ForkOk(s, a.p) && LinkSet(s, a.p);
    forall q: nat | q < |s'.procs|
      ensures HasParent(s', q) && LinkSet(s', q)
    {
      assert HasParent(s, q) && LinkSet(s, q) && ForkOk(s, q);
    }
  }

  /** Links may be redirected and slots woken, but nothing is freed or revived. */
  lemma OrphanKept(s: Sys, s': Sys, p: nat)
    requires NoOrphans(s) && |s'.procs| == |s.procs| && s'.init == s.init && p < |s.procs| && !Linked(s'.procs[p].pc)
    requires forall q: nat :: q < |s.procs| ==>
               && (s.procs[q].parent.Some? ==> s'.procs[q].parent.Some?)
               && (Alive(s'.procs[q]) || s'.procs[q].state == ZOMBIE ==>
                   Alive(s.procs[q]) || s.procs[q].state == ZOMBIE)
               && (q != p ==> s'.procs[q].pc == s.procs[q].pc)
    ensures NoOrphans(s')
  {
    forall q: nat | q < |s'.procs|
      ensures HasParent(s', q) && LinkSet(s', q)
    {
      assert HasParent(s, q) && LinkSet(s, q);
    }
  }

  lemma OrphanExit(s: Sys, c: nat, p: nat)
    requires SchedOk(s) && NoOrphans(s) && Enabled(s, ExitStep(c, p))
    ensures NoOrphans(ExitDo(s, c, p))
  {
    hide NoOrphans;
    assert ProcOk(s, p) && CpuOk(s, c);
    OrphanKept(s, ExitDo(s, c, p), p);
  }

  lemma OrphanWait(s: Sys, c: nat, p: nat, copyFails: bool)
    requires SchedOk(s) && NoOrphans(s) && Enabled(s, WaitStep(c, p, copyFails))
    ensures NoOrphans(WaitDo(s, c, p, copyFails))
  {
    assert ProcOk(s, p) && CpuOk(s, c);
    var s' := WaitDo(s, c, p, copyFails);
    forall q: nat | q < |s'.procs|
      ensures HasParent(s', q) && LinkSet(s', q)
    {
      assert HasParent(s, q) && LinkSet(s, q) && ForkOk(s, q);
    }
  }

  lemma StepInv(s: Sys, a: Action)
    requires Inv(s) && Enabled(s, a)
    ensures Inv(Do(s, a))
  {
    hide SchedOk, WaitOk, FamilyOk, ZombieOk, PidOk, NoOrphans, ExitReady, WaitReady, ExitDo, WaitDo;
    SchedStep(s, a);
    WaitStepOk(s, a);
    FamilyStep(s, a);
    PidStep(s, a);
    if a.ExitStep? {
      OrphanExit(s, a.c, a.p);
    } else if a.WaitStep? {
      OrphanWait(s, a.c, a.p, a.copyFails);
    } else if a.Wake? || a.Kill? {
      OrphanWake(s, a);
    } else if a.ForkAlloc? || a.ForkFail? || a.ForkParent? || a.ForkRun? {
      OrphanFork(s, a);
    } else {
      OrphanSched(s, a);
    }
  }

  lemma {:induction false} RunInv(run: seq<Sys>, acts: seq<Action>, i: nat)
    requires IsRun(run, acts) && i < |run|
    ensures Inv(run[i])
  {
    hide Inv, Init, Enabled, Do;
    if i == 0 {
      InitInv(run[0]);
    } else {
      RunInv(run, acts, i - 1);
      StepInv(run[i - 1], acts[i - 1]);
    }
  }

  /** Exit and wait: when `wait_lock` is free, no process asleep in `wait` has a zombie child. */
  lemma NoLostWakeup(run: seq<Sys>, acts: seq<Action>, i: nat, p: nat, k: nat)
    requires IsRun(run, acts) && i < |run| && run[i].waitLock == None
    requires p < |run[i].procs| && k < |run[i].procs| && run[i].procs[k].parent == Some(p)
    ensures WaitAsleep(run[i].procs[p], p) ==> run[i].procs[k].state != ZOMBIE
  {
    hide Init, Enabled, Do, SchedOk, FamilyOk;
    RunInv(run, acts, i);
    assert forall q: nat :: q < |run[i].procs| ==> !HoldsWait(run[i].procs[q].pc);
    assert !Waking(run[i]);
    assert !ZombieChildOfSleeper(run[i], k);
  }

  /** Nobody's parent has exited, and everybody but init has one. */
  lemma ParentsAreAlive(run: seq<Sys>, acts: seq<Action>, i: nat, k: nat)
    requires IsRun(run, acts) && i < |run| && k < |run[i].procs| && k != run[i].init
    requires Alive(run[i].procs[k]) || run[i].procs[k].state == ZOMBIE
    ensures var q := run[i].procs[k].parent; q.Some? && q.value < |run[i].procs| && Alive(run[i].procs[q.value])
  {
    hide Init, Enabled, Do, SchedOk, ZombieOk;
    RunInv(run, acts, i);
    assert ParentOk(run[i], k) && HasParent(run[i], k);
  }

  /** `wait` returns each pid at most once. */
  lemma PidReturnedOnce(run: seq<Sys>, acts: seq<Action>, i: nat, x: nat, y: nat)
    requires IsRun(run, acts) && i < |run| && x < y < |run[i].reaped|
    ensures run[i].reaped[x] != run[i].reaped[y]
  {
    hide Init, Enabled, Do, SchedOk, ZombieOk, FamilyOk;
    RunInv(run, acts, i);
  }

  /** Scheduler handoff: a process whose lock is free is RUNNING exactly when a CPU's `proc` points to
      it, and never do two point to it. */
  lemma RunningMeansOnOneCpu(run: seq<Sys>, acts: seq<Action>, i: nat, p: nat)
    requires IsRun(run, acts) && i < |run| && p < |run[i].procs|
    ensures run[i].procs[p].lock == None ==>
              (run[i].procs[p].state == RUNNING <==>
                  exists c: nat :: c < |run[i].cpus| && run[i].cpus[c].proc == Some(p))
    ensures forall c: nat, d: nat ::
        c < |run[i].cpus| && d < |run[i].cpus| && run[i].cpus[c].proc == Some(p) && run[i].cpus[d].proc == Some(p) ==>
              c == d
  {
    hide Init, Enabled, Do, ZombieOk, FamilyOk;
    RunInv(run, acts, i);
    var s := run[i];
    assert ProcOk(s, p);
    PointsBack(s, p);
  }

  /** A CPU's `proc` points to the process that names it. */
  lemma PointsBack(s: Sys, p: nat)
    requires SchedOk(s) && p < |s.procs|
    ensures forall c: nat :: c < |s.cpus| ==> (s.cpus[c].proc == Some(p) <==> s.procs[p].on == Some(c))
    ensures forall c: nat :: c < |s.cpus| && Refers(s.cpus[c].mode, p) ==> s.procs[p].on == Some(c)
    ensures s.procs[p].on.Some? ==> s.procs[p].on.value < |s.cpus| && s.cpus[s.procs[p].on.value].proc == Some(p)
  {
    assert ProcOk(s, p);
    forall c: nat | c < |s.cpus|
      ensures s.cpus[c].proc == Some(p) <==> s.procs[p].on == Some(c)
      ensures Refers(s.cpus[c].mode, p) ==> s.procs[p].on == Some(c)
    {
      assert CpuOk(s, c);
    }
  }

  /** `wait` frees a slot only when no CPU is on its kernel stack or in a switch to or from it. */
  lemma ReapedStackIsIdle(run: seq<Sys>, acts: seq<Action>, i: nat, c: nat, p: nat)
    requires IsRun(run, acts) && i < |acts| && acts[i] == WaitStep(c, p, false) && run[i + 1].reaped != run[i].reaped
    ensures p < |run[i].procs| && run[i].procs[p].pc.WaitScan? && run[i].procs[p].pc.k < |run[i].procs|
    ensures var s, k := run[i], run[i].procs[p].pc.k;
            && s.procs[k].state == ZOMBIE && s.procs[k].parent == Some(p)
            && run[i + 1].reaped == s.reaped + [s.procs[k].pid]
            && forall d: nat :: d < |s.cpus| ==> !Refers(s.cpus[d].mode, k) && s.cpus[d].proc != Some(k)
  {
    hide Init, WaitOk, ZombieOk, FamilyOk, PidOk, NoOrphans;
    RunInv(run, acts, i);
    var s, k := run[i], run[i].procs[p].pc.k;
    assert ProcOk(s, k);
    PointsBack(s, k);
  }

  /** Whoever calls `sched` holds its own lock and no other, and is not RUNNING: its checks never
      fail. */
  lemma SchedIsCalledRight(run: seq<Sys>, acts: seq<Action>, i: nat, c: nat, p: nat)
    requires IsRun(run, acts) && i < |acts| && acts[i] == SwitchOut(c, p)
    ensures var s := run[i];
            && p < |s.procs| && s.procs[p].lock == Some(c) && s.procs[p].state != RUNNING && s.waitLock != Some(c)
            && forall q: nat :: q < |s.procs| && s.procs[q].lock == Some(c) ==> q == p
  {
    hide Init, ZombieOk, FamilyOk, Do;
    RunInv(run, acts, i);
    var s := run[i];
    assert ProcOk(s, p) && CpuOk(s, c);
    forall q: nat | q < |s.procs| && s.procs[q].lock == Some(c)
      ensures q == p
    {
      assert ProcOk(s, q);
    }
  }
}
