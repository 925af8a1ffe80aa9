/** What the log promises its callers, over every run with any number of crashes. */
module LogTheorems {
  import opened LogDisk
  import opened LogProtocol
  import opened LogProofs

  /** Crash atomicity and group-commit isolation: at every moment of every run, recovering the disk
      as it stands would leave each home block as some prefix of the requested writes leaves it, and
      that prefix contains every operation entirely or not at all. */
  lemma RecoveredDiskIsClosedPrefix(run: seq<State>, acts: seq<Action>, i: nat, b: nat)
    requires IsRun(run, acts) && i < |run|
    requires run[i].Home(b)
    ensures var s := run[i];
            && LayoutOk(s.l, |s.disk|) && HeadOk(s.disk, s.l)
            && s.g.durable <= |s.g.events| && b < |s.g.base|
            && View(s.disk, s.l, b) == Replay(s.g.base, s.g.events[..s.g.durable])[b]
    ensures var g := run[i].g;
            && Closed(g.events[..g.durable])
            && forall j, k :: 0 <= j < k < |g.events| && g.events[j].Ended? ==>
                 g.events[k].p != g.events[j].p
  {
    RunInv(run, acts, i);
    ViewIsStable(run[i], b);
  }

  /** A recovery that runs to completion has put exactly that prefix into the home blocks. */
  lemma CompletedRecoveryRestores(run: seq<State>, acts: seq<Action>, i: nat, b: nat)
    requires IsRun(run, acts) && i < |acts|
    requires acts[i] == Recover && run[i + 1].phase.Idle? && run[i].Home(b)
    ensures b < |run[i].g.base|
    ensures run[i + 1].disk[b] == Replay(run[i].g.base, run[i].g.events[..run[i].g.durable])[b]
    ensures run[i + 1].disk[b] == View(run[i].disk, run[i].l, b)
    ensures run[i + 1].g == run[i].g
  {
    RunInv(run, acts, i);
    RunInv(run, acts, i + 1);
    assert Step(run[i], acts[i], run[i + 1]);
    ViewIsStable(run[i], b);
  }

  /** What is durable stays durable: the prefix never shrinks, not even in a crash. */
  lemma DurableOnlyGrows(run: seq<State>, acts: seq<Action>, i: nat)
    requires IsRun(run, acts) && i < |acts|
    ensures var g, g' := run[i].g, run[i + 1].g;
            && g.durable <= |g.events| && g'.durable <= |g'.events|
            && g.events[..g.durable] <= g'.events[..g'.durable]
  {
    assert Step(run[i], acts[i], run[i + 1]);
    DurableStep(run[i], acts[i], run[i + 1]);
  }

  lemma DurableStep(s: State, a: Action, s': State)
    requires Step(s, a, s')
    ensures s'.g.durable <= |s'.g.events|
    ensures s.g.events[..s.g.durable] <= s'.g.events[..s'.g.durable]
  {
    var g, g' := s.g, s'.g;
    assert g' == g || g' == g.AllDurable() || g' == g.Cut() || (g'.durable == g.durable && g.events <= g'.events);
  }

  /** While a commit runs no operation is in progress, so nothing begins, logs or ends; and once the
      log is idle with nobody in progress, everything ever completed is durable. */
  lemma CommitRunsAlone(run: seq<State>, acts: seq<Action>, i: nat)
    requires IsRun(run, acts) && i < |acts|
    ensures run[i].Committing() ==>
              && run[i].outstanding == 0
              && !acts[i].Begin? && !acts[i].Modify? && !acts[i].LogWrite? && !acts[i].End?
    ensures run[i].phase.Idle? && run[i].outstanding == 0 ==>
              run[i].lh == [] && run[i].g.durable == |run[i].g.events|
  {
    RunInv(run, acts, i);
    assert Step(run[i], acts[i], run[i + 1]);
    if run[i].outstanding == 0 {
      assert run[i].left.Keys == {};
      assert run[i].left == map[];
    }
  }

  /** `bread` returns the last data written to the block, whether it hits the cache or the disk. */
  lemma BreadReturnsLastWrite(run: seq<State>, acts: seq<Action>, i: nat, p: nat, b: nat)
    requires IsRun(run, acts) && i < |acts|
    requires acts[i] == Read(p, b) && run[i].Home(b)
    ensures b in run[i + 1].cache && run[i + 1].cache[b].owner == By(p)
    ensures b < |run[i].g.base|
    ensures run[i + 1].cache[b].data == Replay(run[i].g.base, run[i].g.events)[b]
  {
    RunInv(run, acts, i);
    assert Step(run[i], acts[i], run[i + 1]);
    assert run[i].Contents(b) == run[i].g.cur[b];
  }

  /** A logged block stays cached until it is installed. */
  lemma LoggedBlocksAreNotRecycled(run: seq<State>, acts: seq<Action>, i: nat, b: nat)
    requires IsRun(run, acts) && i < |acts| && acts[i] == Recycle(b)
    ensures run[i].phase.Idle? || run[i].phase.Logging? ==> b !in run[i].lh
    ensures run[i].phase.Installing? && run[i].phase.k <= |run[i].lh| ==>
              b !in run[i].lh[run[i].phase.k..]
  {
    RunInv(run, acts, i);
    assert Step(run[i], acts[i], run[i + 1]);
  }

  /** `write_log` copies the last data written, never a stale disk block. */
  lemma WriteLogCopiesLastWrite(run: seq<State>, acts: seq<Action>, i: nat)
    requires IsRun(run, acts) && i < |acts| && acts[i] == Commit
    requires run[i].phase.Logging? && run[i].phase.k < |run[i].lh|
    ensures var s, k := run[i], run[i].phase.k;
            && 0 <= s.lh[k] < |s.g.base| && s.l.start + 1 + k < |s.disk|
            && run[i + 1].disk == s.disk[s.l.start + 1 + k := Replay(s.g.base, s.g.events)[s.lh[k]]]
  {
    RunInv(run, acts, i);
    assert Step(run[i], acts[i], run[i + 1]);
    LoggingBlockCache(run[i]);
  }

  lemma StableStep(s: State, a: Action, s': State)
    requires Inv(s) && Step(s, a, s')
    ensures s'.g.stable == s.g.stable || (s'.g.stable == s.g.cur && s.left == map[])
  {
    var g, g' := s.g, s'.g;
    assert g' == g.AllDurable() || g'.stable == g.stable;
    if g'.stable != g.stable {
      assert a.Commit? && s.phase.Logging?;
    }
  }

  /** What would be recovered at any moment is the simple store as it stood at some earlier moment when
      no operation was in progress. */
  lemma {:induction false} StableIsQuiet(run: seq<State>, acts: seq<Action>, i: nat) returns (j: nat)
    requires IsRun(run, acts) && i < |run|
    ensures j <= i && run[j].left == map[] && run[j].g.cur == run[i].g.stable
  {
    if i == 0 {
      return 0;
    }
    RunInv(run, acts, i - 1);
    assert Step(run[i - 1], acts[i - 1], run[i]);
    StableStep(run[i - 1], acts[i - 1], run[i]);
    if run[i].g.stable == run[i - 1].g.stable {
      j := StableIsQuiet(run, acts, i - 1);
    } else {
      j := i - 1;
    }
  }

  /** Whatever holds of the store whenever no operation is in progress holds of every disk recovery
      produces: each home block recovers to what it was at one such moment. */
  lemma RecoversToQuietMoment(run: seq<State>, acts: seq<Action>, i: nat) returns (j: nat)
    requires IsRun(run, acts) && i < |run|
    ensures j <= i && run[j].left == map[] && LayoutOk(run[i].l, |run[i].disk|)
    ensures Restores(run[i].disk, run[i].l, run[j].g.cur)
  {
    j := StableIsQuiet(run, acts, i);
    RunInv(run, acts, i);
    var s := run[i];
    HeadAlwaysOk(s);
    forall b: nat | s.Home(b)
      ensures View(s.disk, s.l, b) == s.g.stable[b]
    {
      ViewIsStable(s, b);
    }
  }
}
