/** Parents and children across whole runs: what `fork` links, what `wait` answers, and how states, parent
    links and pids can change. */
module ProcessLinks {
  import opened Basics
  import opened Process
  import opened ProcessInv
  import opened ProcessTheorems

  /** An unused slot has no parent. */
  ghost predicate Unlinked(s: Sys, k: nat)
    requires k < |s.procs|
  {
    s.procs[k].state == UNUSED ==> s.procs[k].parent == None
  }

  /** The slot being forked into is linked to the forking process from `ForkParent` on, and to nobody before. */
  ghost predicate ForkLink(s: Sys, p: nat)
    requires p < |s.procs|
  {
    match ForksInto(s.procs[p].pc) {
      case None => true
      case Some(np) =>
        np < |s.procs| ==> s.procs[np].parent == if Linked(s.procs[p].pc) then Some(p) else None
    }
  }

  /** One of the slots below `m` is a child of `p`. */
  ghost predicate HasKid(s: Sys, p: nat, m: nat) {
    exists k: nat :: k < m && k < |s.procs| && s.procs[k].parent == Some(p)
  }

  /** What the scan of `wait` remembers: whether it has come past a child. */
  ghost predicate KidsOk(s: Sys, p: nat)
    requires p < |s.procs|
  {
    match s.procs[p].pc {
      case WaitScan(m, kids) => m <= |s.procs| + 1 && (kids <==> HasKid(s, p, m))
      case _ => true
    }
  }

  /** A slot that is taken but not started belongs to the process that is forking into it. */
  ghost predicate Claimed(s: Sys, k: nat)
    requires k < |s.procs|
  {
    s.procs[k].state == USED ==>
      && s.procs[k].forker.Some? && s.procs[k].forker.value < |s.procs|
      && ForksInto(s.procs[s.procs[k].forker.value].pc) == Some(k)
  }

  ghost predicate LinksOk(s: Sys) {
    forall p: nat :: p < |s.procs| ==> Unlinked(s, p) && ForkLink(s, p) && KidsOk(s, p) && Claimed(s, p)
  }

  /** `x` and `y` fork as before, or one of them was forking into the other. */
  predicate ForksOn(pc: Pc, pc': Pc, x: nat, y: nat) {
    ForksInto(pc') == ForksInto(pc) || ForksInto(pc) == None || ForksInto(pc) == Some(x) || ForksInto(pc) == Some(y)
  }

  /** Slots `x` and `y` changed, but no parent link did. */
  lemma LinksFrame(s: Sys, s': Sys, x: nat, y: nat)
    requires LinksOk(s) && |s'.procs| == |s.procs| && x < |s.procs| && y < |s.procs|
    requires forall p: nat :: p < |s.procs| && p != x && p != y ==> s'.procs[p] == s.procs[p]
    requires s'.procs[x].parent == s.procs[x].parent && s'.procs[y].parent == s.procs[y].parent
    requires Unlinked(s', x) && ForkLink(s', x) && KidsOk(s', x) && Unlinked(s', y) && ForkLink(s', y) && KidsOk(s', y)
    requires Claimed(s', x) && Claimed(s', y)
    requires ForksOn(s.procs[x].pc, s'.procs[x].pc, x, y) && ForksOn(s.procs[y].pc, s'.procs[y].pc, x, y)
    ensures LinksOk(s')
  {
    hide ForksInto, Linked;
    forall p: nat | p < |s'.procs|
      ensures Unlinked(s', p) && ForkLink(s', p) && KidsOk(s', p) && Claimed(s', p)
    {
      assert Unlinked(s, p) && ForkLink(s, p) && KidsOk(s, p) && Claimed(s, p);
      if p != x && p != y {
        SameKids(s, s', p);
      }
    }
  }

  lemma SameKids(s: Sys, s': Sys, p: nat)
    requires |s'.procs| == |s.procs|
    requires forall k: nat :: k < |s.procs| ==> s'.procs[k].parent == s.procs[k].parent
    ensures forall m: nat :: HasKid(s', p, m) <==> HasKid(s, p, m)
  {
  }

  /** Nobody scans, and the links that changed are not those of a slot being forked into. */
  lemma LinksMoved(s: Sys, s': Sys, p: nat)
    requires LinksOk(s) && SchedOk(s) && |s'.procs| == |s.procs| && p < |s.procs|
    requires forall q: nat :: q < |s.procs| && q != p ==> s'.procs[q].pc == s.procs[q].pc && !HoldsWait(s.procs[q].pc)
    requires forall k: nat :: k < |s.procs| ==> Unlinked(s', k)
    requires forall q: nat, k: nat ::
        q < |s.procs| && k < |s.procs| && q != p && ForksInto(s.procs[q].pc) == Some(k) ==>
               s'.procs[k].parent == s.procs[k].parent
    requires ForkLink(s', p) && KidsOk(s', p) && ForksInto(s'.procs[p].pc) == ForksInto(s.procs[p].pc)
    requires forall k: nat :: k < |s.procs| && s'.procs[k].state == USED ==>
               s.procs[k].state == USED && s'.procs[k].forker == s.procs[k].forker
    ensures LinksOk(s')
  {
    hide ForksInto, Linked;
    forall q: nat | q < |s'.procs|
      ensures Unlinked(s', q) && ForkLink(s', q) && KidsOk(s', q) && Claimed(s', q)
    {
      assert Unlinked(s, q) && ForkLink(s, q) && KidsOk(s, q) && Claimed(s, q);
    }
  }

  lemma LinksSwitch(s: Sys, a: Action)
    requires LinksOk(s) && SchedOk(s) && Enabled(s, a)
    requires a.Pick? || a.SwitchIn? || a.Resume? || a.Yield? || a.SleepOn? || a.SwitchOut? || a.Retire?
    ensures LinksOk(Do(s, a))
  {
    var s' := Do(s, a);
    assert ProcOk(s, a.p) && ForkOk(s, a.p) && CpuOk(s, a.c);
    assert Unlinked(s, a.p) && ForkLink(s, a.p) && KidsOk(s, a.p) && Claimed(s, a.p);
    assert ForksInto(s'.procs[a.p].pc) == ForksInto(s.procs[a.p].pc);
    assert ForksInto(s'.procs[a.p].pc).Some? ==> Linked(s'.procs[a.p].pc) == Linked(s.procs[a.p].pc);
    SameKids(s, s', a.p);
    hide LinksOk, SchedOk, HasKid;
    LinksFrame(s, s', a.p, a.p);
  }

  lemma LinksStart(s: Sys, a: Action)
    requires LinksOk(s) && SchedOk(s) && Enabled(s, a) && (a.ExitStart? || a.WaitStart?)
    ensures LinksOk(Do(s, a))
  {
    var s' := Do(s, a);
    assert ProcOk(s, a.p) && CpuOk(s, a.c) && Unlinked(s, a.p);
    assert !HasKid(s', a.p, 0);
    hide LinksOk, SchedOk, HasKid;
    LinksFrame(s, s', a.p, a.p);
  }

  lemma LinksWake(s: Sys, a: Action)
    requires LinksOk(s) && Enabled(s, a) && (a.Wake? || a.Kill?)
    ensures LinksOk(Do(s, a))
  {
    var s' := Do(s, a);
    assert Unlinked(s, a.j) && ForkLink(s, a.j) && KidsOk(s, a.j) && Claimed(s, a.j);
    SameKids(s, s', a.j);
    hide LinksOk, HasKid, ForksInto, Linked;
    LinksFrame(s, s', a.j, a.j);
  }

  lemma LinksFork(s: Sys, a: Action)
    requires LinksOk(s) && SchedOk(s) && Enabled(s, a) && (a.ForkAlloc? || a.ForkFail? || a.ForkRun?)
    ensures LinksOk(Do(s, a))
  {
    var s', p := Do(s, a), a.p;
    var np := if a.ForkAlloc? then a.np else s.procs[p].pc.np;
    assert ProcOk(s, p) && ForkOk(s, p) && CpuOk(s, a.c) && ProcOk(s, np);
    assert Unlinked(s, p) && ForkLink(s, p) && Unlinked(s, np);
    hide LinksOk, SchedOk;
    LinksFrame(s, s', p, np);
  }

  lemma LinksForkParent(s: Sys, c: nat, p: nat)
    requires LinksOk(s) && SchedOk(s) && WaitOk(s) && Enabled(s, ForkParent(c, p))
    ensures LinksOk(Do(s, ForkParent(c, p)))
  {
    var s', np := Do(s, ForkParent(c, p)), s.procs[p].pc.np;
    assert ProcOk(s, p) && ForkOk(s, p) && CpuOk(s, c) && ProcOk(s, np);
    forall k: nat | k < |s.procs|
      ensures Unlinked(s', k)
    {
      assert Unlinked(s, k);
    }
    forall q: nat, k: nat | q < |s.procs| && k < |s.procs| && q != p && ForksInto(s.procs[q].pc) == Some(k)
      ensures s'.procs[k].parent == s.procs[k].parent
    {
      assert ForkOk(s, q);
    }
    LinksMoved(s, s', p);
  }

  /** A step of `exit` gives away children of the exiting process only. */
  lemma ExitMoves(s: Sys, c: nat, p: nat)
    requires s.Runs(c, p) && ExitReady(s, p)
    ensures var s' := ExitDo(s, c, p);
            && |s'.procs| == |s.procs|
            && (forall q: nat :: q < |s.procs| && q != p ==> s'.procs[q].pc == s.procs[q].pc)
            && (forall k: nat :: k < |s.procs| ==>
                  s'.procs[k].parent == s.procs[k].parent
                  || (s.procs[k].parent == Some(p) && s'.procs[k].parent == Some(s.init)))
            && (forall k: nat :: k < |s.procs| && s'.procs[k].state == UNUSED ==> s.procs[k].state == UNUSED)
            && (Exiting(s'.procs[p].pc) && ForksInto(s'.procs[p].pc) == None == ForksInto(s.procs[p].pc))
            && (forall k: nat :: k < |s.procs| && s'.procs[k].state == USED ==>
                  s.procs[k].state == USED && s'.procs[k].forker == s.procs[k].forker)
  {
  }

  lemma LinksExit(s: Sys, c: nat, p: nat)
    requires LinksOk(s) && SchedOk(s) && WaitOk(s) && Enabled(s, ExitStep(c, p))
    ensures LinksOk(Do(s, ExitStep(c, p)))
  {
    var s' := Do(s, ExitStep(c, p));
    assert ProcOk(s, p);
    NoOthers(s, p);
    ExitMoves(s, c, p);
    hide ExitDo, ExitReady;
    forall k: nat | k < |s.procs|
      ensures Unlinked(s', k)
    {
      assert Unlinked(s, k);
    }
    forall q: nat, k: nat | q < |s.procs| && k < |s.procs| && q != p && ForksInto(s.procs[q].pc) == Some(k)
      ensures s'.procs[k].parent == s.procs[k].parent
    {
      assert ForkLink(s, q);
    }
    LinksMoved(s, s', p);
  }

  /** The scan moves past slot `m`. */
  lemma NextKid(s: Sys, p: nat, m: nat)
    requires m < |s.procs|
    ensures HasKid(s, p, m + 1) <==> HasKid(s, p, m) || s.procs[m].parent == Some(p)
  {
  }

  lemma AllKids(s: Sys, p: nat, m: nat)
    requires m >= |s.procs|
    ensures HasKid(s, p, m) <==> HasKid(s, p, |s.procs|)
  {
  }

  /** `wait` at a zombie child, with the status copied out. */
  ghost predicate Reaps(s: Sys, p: nat) {
    && p < |s.procs| && s.procs[p].pc.WaitScan? && s.procs[p].pc.k < |s.procs|
    && s.procs[s.procs[p].pc.k].parent == Some(p) && s.procs[s.procs[p].pc.k].state == ZOMBIE
  }

  lemma LinksWait(s: Sys, c: nat, p: nat, copyFails: bool)
    requires LinksOk(s) && SchedOk(s) && WaitOk(s) && Enabled(s, WaitStep(c, p, copyFails))
    ensures LinksOk(Do(s, WaitStep(c, p, copyFails)))
  {
    var s' := Do(s, WaitStep(c, p, copyFails));
    assert ProcOk(s, p) && CpuOk(s, c) && Unlinked(s, p) && KidsOk(s, p);
    if Reaps(s, p) && !copyFails {
      LinksReap(s, c, p);
    } else {
      ScanMoves(s, c, p, copyFails);
      hide LinksOk, SchedOk, HasKid, WaitDo, WaitReady;
      LinksFrame(s, s', p, p);
    }
  }

  /** A step of `wait` that reaps nobody changes its own process only, and counts children right. */
  lemma ScanMoves(s: Sys, c: nat, p: nat, copyFails: bool)
    requires s.Runs(c, p) && WaitReady(s, p) && KidsOk(s, p) && (copyFails || !Reaps(s, p))
    ensures var s' := WaitDo(s, c, p, copyFails);
            && |s'.procs| == |s.procs| && KidsOk(s', p) && s'.procs[p].parent == s.procs[p].parent
            && (forall q: nat :: q < |s.procs| && q != p ==> s'.procs[q] == s.procs[q])
            && ForksInto(s'.procs[p].pc) == None
            && (s'.procs[p].state == s.procs[p].state || s'.procs[p].state == SLEEPING)
  {
    var s' := WaitDo(s, c, p, copyFails);
    if s.procs[p].pc.WaitScan? {
      if s.procs[p].pc.k < |s.procs| {
        NextKid(s, p, s.procs[p].pc.k);
      }
      AllKids(s, p, |s.procs| + 1);
    }
    SameKids(s, s', p);
    hide HasKid;
  }

  lemma LinksReap(s: Sys, c: nat, p: nat)
    requires LinksOk(s) && SchedOk(s) && WaitOk(s) && Enabled(s, WaitStep(c, p, false)) && Reaps(s, p)
    ensures LinksOk(Do(s, WaitStep(c, p, false)))
  {
    var s', k := Do(s, WaitStep(c, p, false)), s.procs[p].pc.k;
    NoOthers(s, p);
    forall x: nat | x < |s.procs|
      ensures Unlinked(s', x)
    {
      assert Unlinked(s, x);
    }
    forall q: nat, x: nat | q < |s.procs| && x < |s.procs| && q != p && ForksInto(s.procs[q].pc) == Some(x)
      ensures s'.procs[x].parent == s.procs[x].parent
    {
      assert ForkOk(s, q);
    }
    LinksMoved(s, s', p);
  }

  lemma LinksStep(s: Sys, a: Action)
    requires LinksOk(s) && SchedOk(s) && WaitOk(s) && Enabled(s, a)
    ensures LinksOk(Do(s, a))
  {
    hide LinksOk, SchedOk, WaitOk, Do, Enabled;
    match a {
      case Wake(_, _) => LinksWake(s, a);
      case Kill(_) => LinksWake(s, a);
      case ForkAlloc(_, _, _) => LinksFork(s, a);
      case ForkFail(_, _) => LinksFork(s, a);
      case ForkRun(_, _) => LinksFork(s, a);
      case ForkParent(c, p) => LinksForkParent(s, c, p);
      case ExitStart(_, _) => LinksStart(s, a);
      case WaitStart(_, _) => LinksStart(s, a);
      case ExitStep(c, p) => LinksExit(s, c, p);
      case WaitStep(c, p, f) => LinksWait(s, c, p, f);
      case _ => LinksSwitch(s, a);
    }
  }

  lemma {:induction false} RunLinks(run: seq<Sys>, acts: seq<Action>, i: nat)
    requires IsRun(run, acts) && i < |run|
    ensures Inv(run[i]) && LinksOk(run[i])
  {
    hide Inv, LinksOk, Enabled, Do;
    RunInv(run, acts, i);
    if i == 0 {
      InitLinks(run[0]);
    } else {
      RunLinks(run, acts, i - 1);
      InvParts(run[i - 1]);
      LinksStep(run[i - 1], acts[i - 1]);
    }
  }

  lemma InitLinks(s: Sys)
    requires Init(s)
    ensures LinksOk(s)
  {
  }

  lemma InvParts(s: Sys)
    requires Inv(s)
    ensures SchedOk(s) && WaitOk(s) && FamilyOk(s) && ZombieOk(s) && PidOk(s) && NoOrphans(s)
  {
  }

  // --- What `wait` answers --------------------------------------------------------------------------

  /** At a zombie child `wait` returns its pid: the slot is free, the lock released and the caller back. */
  lemma WaitReturnsZombie(run: seq<Sys>, acts: seq<Action>, i: nat, c: nat, p: nat)
    requires IsRun(run, acts) && i < |acts| && acts[i] == WaitStep(c, p, false) && Reaps(run[i], p)
    ensures var s, s', k := run[i], run[i + 1], run[i].procs[p].pc.k;
            && s'.reaped == s.reaped + [s.procs[k].pid] && s.procs[k].pid !in s.reaped
            && s'.procs[k].state == UNUSED && s'.procs[k].pid == 0 && s'.procs[k].parent == None
            && !s'.procs[k].killed && s'.procs[k].chan == None
            && s'.waitLock == None && s'.procs[p].pc == User && k != p
            && forall q: nat :: q < |s.procs| && q != p && q != k ==> s'.procs[q] == s.procs[q]
  {
    hide Init, SchedOk, WaitOk, ZombieOk, NoOrphans, LinksOk;
    RunLinks(run, acts, i);
    var k := run[i].procs[p].pc.k;
    assert ParentOk(run[i], k);
  }

  /** Nothing else ever adds to the pids returned. */
  lemma OnlyWaitReaps(run: seq<Sys>, acts: seq<Action>, i: nat)
    requires IsRun(run, acts) && i < |acts|
    ensures run[i + 1].reaped != run[i].reaped <==>
      acts[i].WaitStep? && !acts[i].copyFails && Reaps(run[i], acts[i].p)
  {
    hide Init, Woken, Freed;
    assert Enabled(run[i], acts[i]);
    if acts[i].ExitStep? {
      ExitKeepsReaped(run[i], acts[i].c, acts[i].p);
      hide ExitDo, ExitReady;
    }
  }

  lemma ExitKeepsReaped(s: Sys, c: nat, p: nat)
    requires s.Runs(c, p) && ExitReady(s, p)
    ensures ExitDo(s, c, p).reaped == s.reaped
  {
  }

  /** `wait` comes back without a pid only if there is no child at all, or the caller was killed and none of
      its children has exited. */
  lemma WaitFailsOnlyWithoutZombie(run: seq<Sys>, acts: seq<Action>, i: nat, c: nat, p: nat)
    requires IsRun(run, acts) && i < |acts| && acts[i] == WaitStep(c, p, false)
    requires run[i + 1].reaped == run[i].reaped && run[i + 1].procs[p].pc == User
    ensures p < |run[i].procs| && (run[i].procs[p].killed || !HasKid(run[i], p, |run[i].procs|))
    ensures forall k: nat :: k < |run[i].procs| && run[i].procs[k].parent == Some(p) ==> run[i].procs[k].state != ZOMBIE
  {
    hide Init, SchedOk, FamilyOk, PidOk, NoOrphans;
    RunLinks(run, acts, i);
    var s := run[i];
    assert Enabled(s, acts[i]) && KidsOk(s, p);
    hide LinksOk;
    AllKids(s, p, s.procs[p].pc.k);
  }

  /** `wait` goes to sleep only with a child, and none that has exited. */
  lemma WaitSleepsWithLiveChild(run: seq<Sys>, acts: seq<Action>, i: nat, c: nat, p: nat)
    requires IsRun(run, acts) && i < |acts| && acts[i] == WaitStep(c, p, false)
    requires p < |run[i].procs| && run[i].procs[p].pc.WaitScan? && run[i + 1].procs[p].pc == WaitSleep
    ensures HasKid(run[i], p, |run[i].procs|)
    ensures forall k: nat :: k < |run[i].procs| && run[i].procs[k].parent == Some(p) ==> run[i].procs[k].state != ZOMBIE
  {
    hide Init, SchedOk, FamilyOk, PidOk, NoOrphans;
    RunLinks(run, acts, i);
    var s := run[i];
    assert Enabled(s, acts[i]) && KidsOk(s, p);
    hide LinksOk;
    AllKids(s, p, s.procs[p].pc.k);
  }

  /** Having scanned all slots, `wait` of a killed process, or of one without children, returns; otherwise it
      goes on to sleep. */
  lemma WaitHeedsKill(run: seq<Sys>, acts: seq<Action>, i: nat, c: nat, p: nat)
    requires IsRun(run, acts) && i < |acts| && acts[i] == WaitStep(c, p, false)
    requires p < |run[i].procs| == |run[i + 1].procs| && run[i].procs[p].pc.WaitScan?
    requires run[i].procs[p].pc.k == |run[i].procs|
    ensures run[i + 1].procs[p].pc == User <==> run[i].procs[p].killed || !HasKid(run[i], p, |run[i].procs|)
    ensures run[i + 1].waitLock == None <==> run[i + 1].procs[p].pc == User
  {
    hide Init, FamilyOk, PidOk, NoOrphans, HasKid;
    RunLinks(run, acts, i);
    var s := run[i];
    assert Enabled(s, acts[i]) && KidsOk(s, p) && ProcOk(s, p) && CpuOk(s, c);
    hide LinksOk, SchedOk;
  }

  // --- How a slot can change ------------------------------------------------------------------------

  /** Each change of state has its one cause. */
  ghost predicate StateChange(s: Sys, a: Action, k: nat, s': Sys)
    requires k < |s.procs| == |s'.procs|
  {
    var q, q' := s.procs[k], s'.procs[k];
    match q.state {
      case UNUSED => q'.state == USED && a.ForkAlloc? && a.np == k && q'.pid == s.nextpid && q'.forker == Some(a.p)
      case USED =>
        && ((q'.state == UNUSED && a.ForkFail?) || (q'.state == RUNNABLE && a.ForkRun? && q'.parent == Some(a.p)))
        && q.forker == Some(a.p)
      case RUNNABLE => q'.state == RUNNING && a.Pick? && a.p == k
      case RUNNING =>
        || (q'.state == RUNNABLE && a.Yield? && a.p == k)
        || (q'.state == SLEEPING && (a.SleepOn? || a.WaitStep?) && a.p == k)
        || (q'.state == ZOMBIE && a.ExitStep? && a.p == k && k != s.init)
      case SLEEPING =>
        && q'.state == RUNNABLE
        && ((a.Wake? && a.j == k && q.chan == Some(a.chan)) || (a.Kill? && a.j == k && q'.killed)
            || (a.ExitStep? && a.p < |s.procs| && (q.chan == Some(s.init) || q.chan == s.procs[a.p].parent)))
      case ZOMBIE => q'.state == UNUSED && a.WaitStep? && q.parent == Some(a.p) && s'.reaped == s.reaped + [q.pid]
    }
  }

  lemma StateChangesSched(s: Sys, a: Action, k: nat)
    requires SchedOk(s) && Enabled(s, a) && k < |s.procs| && Do(s, a).procs[k].state != s.procs[k].state
    requires !a.ExitStep? && !a.WaitStep? && !a.ForkAlloc? && !a.ForkFail? && !a.ForkParent? && !a.ForkRun?
    ensures StateChange(s, a, k, Do(s, a))
  {
    if !a.Wake? && !a.Kill? {
      assert ProcOk(s, a.p) && CpuOk(s, a.c);
    }
  }

  lemma StateChangesFork(s: Sys, a: Action, k: nat)
    requires SchedOk(s) && LinksOk(s) && Enabled(s, a) && k < |s.procs| && Do(s, a).procs[k].state != s.procs[k].state
    requires a.ForkAlloc? || a.ForkFail? || a.ForkParent? || a.ForkRun?
    ensures StateChange(s, a, k, Do(s, a))
  {
    assert ProcOk(s, a.p) && ForkOk(s, a.p) && CpuOk(s, a.c) && ForkLink(s, a.p);
    hide SchedOk, LinksOk;
  }

  lemma ExitStates(s: Sys, c: nat, p: nat, k: nat)
    requires s.Runs(c, p) && ExitReady(s, p) && k < |s.procs|
    ensures |ExitDo(s, c, p).procs| == |s.procs|
    ensures var q, q' := s.procs[k], ExitDo(s, c, p).procs[k];
            q'.state != q.state ==>
              || (k == p && s.procs[p].pc.ExitWakeParent? && q'.state == ZOMBIE)
              || (q.state == SLEEPING && q'.state == RUNNABLE
                  && (q.chan == Some(s.init) || q.chan == s.procs[p].parent))
  {
  }

  lemma StateChangesExit(s: Sys, c: nat, p: nat, k: nat)
    requires SchedOk(s) && FamilyOk(s) && Enabled(s, ExitStep(c, p)) && k < |s.procs|
    requires ExitDo(s, c, p).procs[k].state != s.procs[k].state
    ensures StateChange(s, ExitStep(c, p), k, ExitDo(s, c, p))
  {
    ExitStates(s, c, p, k);
    hide ExitDo, ExitReady;
    assert ProcOk(s, p) && CpuOk(s, c);
    hide SchedOk;
  }

  lemma StateChangesWait(s: Sys, c: nat, p: nat, copyFails: bool, k: nat)
    requires SchedOk(s) && Enabled(s, WaitStep(c, p, copyFails)) && k < |s.procs|
    requires WaitDo(s, c, p, copyFails).procs[k].state != s.procs[k].state
    ensures StateChange(s, WaitStep(c, p, copyFails), k, WaitDo(s, c, p, copyFails))
  {
    assert ProcOk(s, p) && CpuOk(s, c);
    hide SchedOk;
  }

  /** The life cycle: in every run a slot's state changes only so. */
  lemma StatesChangeOnlySo(run: seq<Sys>, acts: seq<Action>, i: nat, k: nat)
    requires IsRun(run, acts) && i < |acts| && k < |run[i].procs| == |run[i + 1].procs|
    requires run[i + 1].procs[k].state != run[i].procs[k].state
    ensures StateChange(run[i], acts[i], k, run[i + 1])
  {
    hide Init, LinksOk, SchedOk, FamilyOk, ExitDo, WaitDo, ExitReady, WaitReady, StateChange, Inv;
    RunLinks(run, acts, i);
    var s, a := run[i], acts[i];
    InvParts(s);
    assert Enabled(s, a) && run[i + 1] == Do(s, a);
    if a.ExitStep? {
      StateChangesExit(s, a.c, a.p, k);
    } else if a.WaitStep? {
      StateChangesWait(s, a.c, a.p, a.copyFails, k);
    } else if a.ForkAlloc? || a.ForkFail? || a.ForkParent? || a.ForkRun? {
      StateChangesFork(s, a, k);
    } else {
      StateChangesSched(s, a, k);
    }
  }

  /** A parent link is set by `fork` to the forking process, moved by `exit` to init, and removed by the
      parent's `wait`, and changes in no other way. */
  ghost predicate LinkChange(s: Sys, a: Action, k: nat, s': Sys)
    requires k < |s.procs| == |s'.procs|
  {
    var q, q' := s.procs[k].parent, s'.procs[k].parent;
    || (a.ForkParent? && q == None && q' == Some(a.p))
    || (a.ExitStep? && q == Some(a.p) && q' == Some(s.init))
    || (a.WaitStep? && q == Some(a.p) && q' == None && s.procs[k].state == ZOMBIE)
  }

  lemma LinkChangesFork(s: Sys, a: Action, k: nat)
    requires SchedOk(s) && LinksOk(s) && Enabled(s, a) && k < |s.procs| && Do(s, a).procs[k].parent != s.procs[k].parent
    requires a.ForkAlloc? || a.ForkFail? || a.ForkParent? || a.ForkRun?
    ensures LinkChange(s, a, k, Do(s, a))
  {
    assert ProcOk(s, a.p) && ForkOk(s, a.p) && CpuOk(s, a.c) && ForkLink(s, a.p);
    hide SchedOk, LinksOk;
  }

  lemma LinkChangesWait(s: Sys, c: nat, p: nat, copyFails: bool, k: nat)
    requires Enabled(s, WaitStep(c, p, copyFails)) && k < |s.procs|
    requires WaitDo(s, c, p, copyFails).procs[k].parent != s.procs[k].parent
    ensures LinkChange(s, WaitStep(c, p, copyFails), k, WaitDo(s, c, p, copyFails))
  {
  }

  lemma LinksStay(s: Sys, a: Action, k: nat)
    requires Enabled(s, a) && k < |s.procs|
    requires !a.ExitStep? && !a.WaitStep? && !a.ForkAlloc? && !a.ForkFail? && !a.ForkParent? && !a.ForkRun?
    ensures |Do(s, a).procs| == |s.procs| && Do(s, a).procs[k].parent == s.procs[k].parent
  {
    hide ExitDo, WaitDo, ExitReady, WaitReady;
  }

  lemma LinksChangeOnlySo(run: seq<Sys>, acts: seq<Action>, i: nat, k: nat)
    requires IsRun(run, acts) && i < |acts| && k < |run[i].procs| == |run[i + 1].procs|
    requires run[i + 1].procs[k].parent != run[i].procs[k].parent
    ensures LinkChange(run[i], acts[i], k, run[i + 1])
  {
    hide Init, LinksOk, SchedOk, FamilyOk, ExitReady, WaitReady, ExitDo, WaitDo, Inv;
    RunLinks(run, acts, i);
    var s, a := run[i], acts[i];
    InvParts(s);
    assert Enabled(s, a) && run[i + 1] == Do(s, a);
    if a.ExitStep? {
      ExitMoves(s, a.c, a.p);
    } else if a.WaitStep? {
      LinkChangesWait(s, a.c, a.p, a.copyFails, k);
    } else if a.ForkAlloc? || a.ForkFail? || a.ForkParent? || a.ForkRun? {
      LinkChangesFork(s, a, k);
    } else {
      LinksStay(s, a, k);
    }
  }

  /** `fork` starts a child of the caller, under a pid that is nobody else's and was never returned. */
  lemma ForkStartsChild(run: seq<Sys>, acts: seq<Action>, i: nat, c: nat, p: nat)
    requires IsRun(run, acts) && i < |acts| && acts[i] == ForkRun(c, p)
    ensures p < |run[i].procs| && run[i].procs[p].pc.Forked? && run[i].procs[p].pc.np < |run[i].procs|
    ensures var s, s', np := run[i], run[i + 1], run[i].procs[p].pc.np;
            && s'.procs[np].state == RUNNABLE && s'.procs[np].parent == Some(p) && s'.procs[np].pid !in s'.reaped
            && s'.procs[p].pc == User && np != p && s'.waitLock == s.waitLock
            && (forall q: nat :: q < |s.procs| && q != np && s'.procs[q].state != UNUSED ==>
                  s'.procs[q].pid != s'.procs[np].pid)
            && forall q: nat :: q < |s.procs| && q != np && q != p ==> s'.procs[q] == s.procs[q]
  {
    hide Init, WaitOk, FamilyOk, ZombieOk, NoOrphans;
    RunLinks(run, acts, i);
    assert Enabled(run[i], acts[i]) && ForkOk(run[i], p) && ProcOk(run[i], p) && CpuOk(run[i], c);
    assert ForkLink(run[i], p);
    hide SchedOk, LinksOk;
  }

  /** A killed process is marked and does not stay asleep; nobody else changes. */
  lemma KillRousesTarget(run: seq<Sys>, acts: seq<Action>, i: nat, j: nat)
    requires IsRun(run, acts) && i < |acts| && acts[i] == Kill(j)
    ensures j < |run[i].procs| == |run[i + 1].procs| && run[i + 1].procs[j].killed
    ensures run[i + 1].procs[j].state == if run[i].procs[j].state == SLEEPING then RUNNABLE else run[i].procs[j].state
    ensures forall q: nat :: q < |run[i].procs| && q != j ==> run[i + 1].procs[q] == run[i].procs[q]
  {
    hide Init;
    assert Enabled(run[i], acts[i]);
  }

  /** `sleep` waits on the channel it names, and `wakeup` of that channel makes the sleeper runnable. */
  lemma SleepUntilWoken(run: seq<Sys>, acts: seq<Action>, i: nat)
    requires IsRun(run, acts) && i < |acts|
    ensures acts[i].SleepOn? ==>
      && acts[i].p < |run[i].procs| == |run[i + 1].procs|
      && run[i + 1].procs[acts[i].p].state == SLEEPING && run[i + 1].procs[acts[i].p].chan == Some(acts[i].chan)
    ensures acts[i].Wake? ==>
      && acts[i].j < |run[i].procs| == |run[i + 1].procs|
      && var q, q' := run[i].procs[acts[i].j], run[i + 1].procs[acts[i].j];
         q' == if q.state == SLEEPING && q.chan == Some(acts[i].chan) then q.(state := RUNNABLE) else q
  {
    hide Init;
    assert Enabled(run[i], acts[i]);
  }

  // --- Switching is invisible -----------------------------------------------------------------------

  /** Where a process stands in the kernel, or will stand once it is switched back in. */
  function Where(pc: Pc): Pc {
    match pc {
      case Leaving(Preempted(InWait)) => WaitAgain
      case Leaving(Preempted(InFork(np))) => Forking(np)
      case Leaving(Preempted(InForked(np))) => Forked(np)
      case Leaving(Waited) => WaitAgain
      case Leaving(_) => User
      case Resumed(Preempted(InWait)) => WaitAgain
      case Resumed(Preempted(InFork(np))) => Forking(np)
      case Resumed(Preempted(InForked(np))) => Forked(np)
      case Resumed(Waited) => WaitAgain
      case Resumed(_) => User
      case _ => pc
    }
  }

  predicate Switching(a: Action) {
    a.Pick? || a.SwitchIn? || a.Resume? || a.Yield? || a.SleepOn? || a.SwitchOut? || a.Retire?
  }

  /** However a process is interrupted, switched out and switched back in, it goes on where it was, with the
      same pid, parent and kill mark. */
  lemma SwitchingIsInvisible(run: seq<Sys>, acts: seq<Action>, i: nat, q: nat)
    requires IsRun(run, acts) && i < |acts| && Switching(acts[i]) && q < |run[i].procs|
    ensures |run[i + 1].procs| == |run[i].procs|
    ensures var x, y := run[i].procs[q], run[i + 1].procs[q];
            Where(y.pc) == Where(x.pc) && y.pid == x.pid && y.parent == x.parent && y.killed == x.killed
    ensures run[i + 1].waitLock == run[i].waitLock && run[i + 1].reaped == run[i].reaped
  {
    hide Init, WaitOk, FamilyOk, ZombieOk, PidOk, NoOrphans;
    RunInv(run, acts, i);
    var s, a := run[i], acts[i];
    assert Enabled(s, a) && ProcOk(s, a.p) && CpuOk(s, a.c);
    hide SchedOk;
  }

  /** The timer can take the CPU from a process exactly while that CPU holds no lock. */
  lemma TimerTakesUnlockedCpu(run: seq<Sys>, acts: seq<Action>, i: nat, c: nat, p: nat)
    requires IsRun(run, acts) && i < |run| && run[i].Runs(c, p)
    ensures Enabled(run[i], Yield(c, p)) <==>
      run[i].waitLock != Some(c) && forall q: nat :: q < |run[i].procs| ==> run[i].procs[q].lock != Some(c)
  {
    hide Init, FamilyOk, ZombieOk, PidOk, NoOrphans, Do;
    RunInv(run, acts, i);
    var s := run[i];
    assert ProcOk(s, p) && CpuOk(s, c);
    forall q: nat | q < |s.procs| && s.procs[q].lock == Some(c)
      ensures q == p
    {
      assert ProcOk(s, q);
    }
  }

  /** No slot leaks: one that is taken has a live process forking into it, and one that has exited a live
      parent to wait for it. */
  lemma NoSlotLeaks(run: seq<Sys>, acts: seq<Action>, i: nat, k: nat)
    requires IsRun(run, acts) && i < |run| && k < |run[i].procs|
    ensures var s, q := run[i], run[i].procs[k];
            && (q.state == USED ==>
                  && q.forker.Some? && q.forker.value < |s.procs| && Alive(s.procs[q.forker.value])
                  && ForksInto(s.procs[q.forker.value].pc) == Some(k))
            && (q.state == ZOMBIE ==>
                  q.parent.Some? && q.parent.value < |s.procs| && Alive(s.procs[q.parent.value]) && k != s.init)
            && (q.state == UNUSED ==> q.parent == None)
  {
    hide Init, Enabled, Do, WaitOk, ZombieOk, PidOk;
    RunLinks(run, acts, i);
    var s := run[i];
    assert Claimed(s, k) && Unlinked(s, k) && ParentOk(s, k) && HasParent(s, k);
    if s.procs[k].state == USED {
      assert ProcOk(s, s.procs[k].forker.value);
    }
    hide SchedOk, LinksOk, NoOrphans;
  }
}
