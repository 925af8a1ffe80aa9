/** `log.c` as it runs: the in-memory header is an array, commit and recovery are loops that write
    one block at a time. Every method is shown to perform exactly the steps of the protocol. */
module LogDriver {
  import opened LogDisk
  import opened LogProtocol
  import opened LogProofs

  /** `run` goes from `s` to `s'` by steps of kind `a` alone. */
  ghost predicate Steps(run: seq<State>, a: Action, s: State, s': State) {
    && |run| > 0 && run[0] == s && run[|run| - 1] == s'
    && forall i :: 0 <= i < |run| - 1 ==> Step(run[i], a, run[i + 1])
  }

  /** The buffers of the log region and of the logged blocks are not locked, so `bread` does not have to
      wait for them. */
  ghost predicate Unlocked(s: State) {
    forall b :: b in s.cache && (b in s.lh || s.l.start <= b < s.l.start + s.l.size) ==> s.cache[b].owner == Nobody
  }

  /** Recovering the disk as it stands would show nothing of the transaction or all of it. */
  ghost predicate AllOrNothing(s: State, before: seq<Block>, after: seq<Block>) {
    LayoutOk(s.l, |s.disk|) && (Restores(s.disk, s.l, before) || Restores(s.disk, s.l, after))
  }

  lemma InvRestores(s: State)
    requires Inv(s)
    ensures Restores(s.disk, s.l, s.g.stable)
  {
    HeadAlwaysOk(s);
    forall b: nat | s.Home(b)
      ensures View(s.disk, s.l, b) == s.g.stable[b]
    {
      ViewIsStable(s, b);
    }
  }

  lemma {:induction false} StepsInv(run: seq<State>, a: Action, i: nat)
    requires i < |run| && Inv(run[0]) && Steps(run, a, run[0], run[|run| - 1])
    ensures Inv(run[i])
  {
    if i > 0 {
      StepsInv(run, a, i - 1);
      assert Step(run[i - 1], a, run[i]);
      StepInv(run[i - 1], a);
    }
  }

  /** A commit step either leaves the history alone or is the commit point. */
  lemma {:induction false} CommitHistory(run: seq<State>, i: nat)
    requires i < |run| && Steps(run, Commit, run[0], run[|run| - 1])
    ensures run[i].g == run[0].g || run[i].g == run[0].g.AllDurable()
  {
    if i > 0 {
      CommitHistory(run, i - 1);
      assert Step(run[i - 1], Commit, run[i]);
    }
  }

  /** Wherever a crash cuts a commit, the home blocks recover to all-before or all-after. */
  lemma CommitIsAtomic(run: seq<State>, i: nat)
    requires i < |run| && Inv(run[0]) && Steps(run, Commit, run[0], run[|run| - 1])
    ensures AllOrNothing(run[i], run[0].g.stable, run[0].g.cur)
  {
    StepsInv(run, Commit, i);
    CommitHistory(run, i);
    InvRestores(run[i]);
  }

  lemma {:induction false} RecoverHistory(run: seq<State>, i: nat)
    requires i < |run| && Steps(run, Recover, run[0], run[|run| - 1])
    ensures run[i].g == run[0].g
  {
    if i > 0 {
      RecoverHistory(run, i - 1);
      assert Step(run[i - 1], Recover, run[i]);
    }
  }

  /** Recovery that is cut short leaves a disk that recovers to the same contents. */
  lemma RecoverIsIdempotent(run: seq<State>, i: nat)
    requires i < |run| && Inv(run[0]) && Steps(run, Recover, run[0], run[|run| - 1])
    ensures LayoutOk(run[i].l, |run[i].disk|) && Restores(run[i].disk, run[i].l, run[0].g.stable)
  {
    StepsInv(run, Recover, i);
    RecoverHistory(run, i);
    InvRestores(run[i]);
  }

  /** `install_trans` has done `k` blocks, in commit or in recovery. */
  ghost predicate InstallStage(s: State, recovering: bool, k: nat) {
    && LayoutOk(s.l, |s.disk|)
    && (if recovering then s.phase == Replaying(k) && HeadOk(s.disk, s.l) else s.phase == Installing(k))
  }

  lemma InstallStageStep(s: State, recovering: bool, k: nat)
    requires LogFits(s) && Unlocked(s) && InstallStage(s, recovering, k) && k < |s.lh|
    requires !s.panicked && s.g.durable <= |s.g.events|
    ensures var s' :=
        InstallBlock(s, k, recovering).(phase := if recovering then Replaying(k + 1) else Installing(k + 1));
            && Step(s, if recovering then Recover else Commit, s')
            && InstallStage(s', recovering, k + 1) && LogFits(s') && Unlocked(s')
  {
    var s' := InstallBlock(s, k, recovering);
    assert IsHome(s.l, |s.disk|, s.lh[k]);
    assert s'.disk[s.l.start] == s.disk[s.l.start];
  }

  /** What installing a block does, field by field. */
  lemma InstallBlockIs(s: State, k: nat, recovering: bool)
    requires k < |s.lh| && 0 <= s.lh[k] < |s.disk| && s.l.start + 1 + k < |s.disk|
    ensures var b, data := s.lh[k], s.Contents(s.l.start + 1 + k);
            var e := s.Buffer(b).(data := data);
            InstallBlock(s, k, recovering) == s.(disk := s.disk[b := data],
              cache := if recovering then s.cache[b := e] else s.cache[b := e][b := e.(pinned := false)])
  {
  }

  /** One iteration of `write_log` is a commit step. */
  lemma LoggingStageStep(s: State, k: nat)
    requires LogFits(s) && Unlocked(s) && s.phase == Logging(k) && k < |s.lh|
    requires !s.panicked && s.g.durable <= |s.g.events|
    ensures var s' := CommitStep(s);
            && 0 <= s.lh[k] < |s.disk| && s.l.start + 1 + k < |s.disk|
            && s' == WriteBlock(s, s.l.start + 1 + k, s.Contents(s.lh[k])).(phase := Logging(k + 1))
            && Step(s, Commit, s') && LogFits(s') && Unlocked(s')
  {
    hide SetHead;
    assert IsHome(s.l, |s.disk|, s.lh[k]);
  }

  /** Erasing the header is a commit or recovery step. */
  lemma ClearStep(s: State, recovering: bool)
    requires LogFits(s) && InstallStage(s, recovering, |s.lh|) && Unlocked(s)
    requires !s.panicked && s.g.durable <= |s.g.events|
    ensures var s' := if recovering then RecoverStep(s) else CommitStep(s);
            && s' == WriteHead(s.(lh := [])).(phase := if recovering then Idle else Finishing)
            && Step(s, if recovering then Recover else Commit, s') && LogFits(s') && Unlocked(s')
  {
    hide SetHead;
  }

  ghost function JoinSteps(a: seq<State>, b: seq<State>, act: Action): (r: seq<State>)
    requires |a| > 0 && |b| > 0 && a[|a| - 1] == b[0]
    requires Steps(a, act, a[0], b[0]) && Steps(b, act, b[0], b[|b| - 1])
    ensures Steps(r, act, a[0], b[|b| - 1])
  {
    a + b[1..]
  }

  /** What `end_op` finds in a reachable state: no commit is running, so it does not panic. */
  lemma EndFacts(s: State, p: nat)
    requires Inv(s) && Enabled(s, End(p)) && Unlocked(s)
    ensures var s' := EndStep(s, p);
            && p in s.left && !s.panicked && !s.Committing() && !s'.panicked && s'.left == s.left - {p}
            && (s'.outstanding == 0 <==> s'.left == map[])
            && s'.phase == (if s'.outstanding == 0 then Logging(0) else Idle)
            && Unlocked(s')
    ensures Do(s, End(p)) == EndStep(s, p)
  {
    assert s.left.Keys == (s.left - {p}).Keys + {p};
    assert |s.left.Keys| == |(s.left - {p}).Keys| + 1;
  }

  lemma {:induction false} CommitKeepsLeft(run: seq<State>, i: nat)
    requires i < |run| && Steps(run, Commit, run[0], run[|run| - 1])
    ensures run[i].left == run[0].left
  {
    if i > 0 {
      CommitKeepsLeft(run, i - 1);
      assert Step(run[i - 1], Commit, run[i]);
    }
  }

  class Log {
    var start: nat
    var size: nat
    var disk: seq<Block>
    var cache: map<int, Entry>
    var n: int
    const block: array<int>
    var outstanding: int
    var committing: bool
    ghost var m: State    // the protocol state these fields stand for

    ghost predicate Valid()
      reads this, block
    {
      && block.Length == LOGSIZE && 0 <= n <= LOGSIZE
      && m.lh == block[..n] && m.disk == disk && m.cache == cache
      && m.outstanding == outstanding && m.l == Layout(start, size)
      && committing == m.Committing()
    }

    /** One pass of `begin_op`'s loop under the log lock; false means the caller sleeps. */
    method TryBeginOp(ghost p: nat) returns (ok: bool)
      requires Valid() && LayoutOk(m.l, |disk|) && m.Up() && !m.panicked && p !in m.g.started
      modifies this
      ensures Valid()
      ensures ok <==> old(Enabled(m, Begin(p)))
      ensures m == if ok then BeginStep(old(m), p) else old(m)
    {
      if committing {
        ok := false;
      } else if n + (outstanding + 1) * MAXOPBLOCKS > LOGSIZE {
        ok := false;
      } else {
        m := BeginStep(m, p);
        outstanding := outstanding + 1;
        ok := true;
      }
    }

    /** `end_op` up to releasing the lock; `doCommit` means the caller must now run `Commit`. */
    method EndOp(ghost p: nat) returns (doCommit: bool, panicked: bool)
      requires Valid() && p in m.left && !m.panicked
      modifies this
      ensures Valid() && m == EndStep(old(m), p)
      ensures panicked <==> m.panicked
      ensures doCommit <==> !panicked && m.outstanding == 0
    {
      m := EndStep(m, p);
      outstanding := outstanding - 1;
      if committing {
        return false, true;
      }
      doCommit := outstanding == 0;
      committing := doCommit;
      panicked := false;
    }

    /** `log_write`: absorb the block if it is already logged, otherwise append and pin it. */
    method LogWrite(b: nat, ghost p: nat) returns (panicked: bool)
      requires Valid() && p in m.left && b in cache && (b !in m.lh ==> 0 < m.left[p]) && !m.panicked
      modifies this, block
      ensures Valid() && m == LogWriteStep(old(m), p, b)
      ensures panicked <==> m.panicked
    {
      ghost var m' := LogWriteStep(m, p, b);
      if n >= LOGSIZE || n >= size - 1 || outstanding < 1 {
        m := m';
        return true;
      }
      var i := 0;
      while i < n && block[i] != b
        invariant 0 <= i <= n && b !in block[..i]
      {
        i := i + 1;
      }
      assert i < n ==> m.lh[i] == b;
      assert i == n ==> block[..i] == m.lh;
      block[i] := b;
      var e := cache[b].(dirty := false);
      if i == n {
        e := e.(pinned := true);
        n := n + 1;
        assert block[..n] == m.lh + [b];
      } else {
        assert block[..n] == m.lh;
      }
      cache := cache[b := e];
      m := m';
      panicked := false;
    }

    /** `bread` of a block that is only read; whether it stays cached is up to `Recycle`. */
    function Contents(b: nat): Block
      reads this
      requires b < |disk|
    {
      if b in cache then cache[b].data else disk[b]
    }

    function Buffer(b: nat): Entry
      reads this
      requires b < |disk|
    {
      if b in cache then cache[b] else Entry(disk[b], false, Nobody, false)
    }

    /** `bwrite` of a buffer whose data is now `data`. */
    method Bwrite(b: nat, data: Block)
      requires b < |disk|
      modifies this`disk, this`cache
      ensures disk == old(disk)[b := data]
      ensures cache == old(cache)[b := old(Buffer(b)).(data := data)]
    {
      cache := cache[b := Buffer(b).(data := data)];
      disk := disk[b := data];
    }

    /** `write_head`: copy the count and the entries in use into the header block. */
    method WriteHeadBlock()
      requires LayoutOk(Layout(start, size), |disk|)
      requires block.Length == LOGSIZE && 0 <= n <= LOGSIZE
      modifies this`disk, this`cache
      ensures disk == old(disk)[start := SetHead(old(Contents(start)), block[..n])]
      ensures cache == old(cache)[start := old(Buffer(start)).(data := SetHead(old(Contents(start)), block[..n]))]
    {
      var was := Contents(start);
      var hb: Block := was[0 := n];
      var i := 0;
      while i < n
        invariant 0 <= i <= n
        invariant hb[0] == n && hb[1..1 + i] == block[..i] && hb[1 + i..] == was[1 + i..]
      {
        hb := hb[1 + i := block[i]];
        assert hb[1..2 + i] == hb[1..1 + i] + [block[i]];
        i := i + 1;
      }
      assert hb == [hb[0]] + hb[1..1 + n] + hb[1 + n..];
      assert hb == SetHead(was, block[..n]);
      Bwrite(start, hb);
    }

    /** `write_log`: copy every logged block from the cache into the log region. */
    method WriteLog() returns (ghost run: seq<State>)
      requires Valid() && LogFits(m) && m.phase == Logging(0) && Unlocked(m)
      requires !m.panicked && m.g.durable <= |m.g.events|
      modifies this`disk, this`cache, this`m
      ensures Valid() && Steps(run, Commit, old(m), m) && LogFits(m) && Unlocked(m)
      ensures m.phase == Logging(n) && !m.panicked && m.g == old(m.g)
    {
      hide CommitStep, Step, LogFits, Unlocked;
      run := [m];
      var tail := 0;
      while tail < n
        invariant 0 <= tail <= n && Valid() && LogFits(m) && Unlocked(m)
        invariant m.phase == Logging(tail) && !m.panicked && m.g == old(m.g)
        invariant m.g.durable <= |m.g.events|
        invariant Steps(run, Commit, old(m), m)
      {
        assert m.lh[tail] == block[tail];
        LoggingStageStep(m, tail);
        ghost var m' := CommitStep(m);
        Bwrite(start + tail + 1, Contents(block[tail]));
        m := m';
        run := run + [m];
        tail := tail + 1;
      }
    }

    /** One iteration of `install_trans`. */
    method InstallOne(tail: nat, recovering: bool)
      requires Valid() && tail < n && LogFits(m) && Unlocked(m) && InstallStage(m, recovering, tail)
      requires !m.panicked && m.g.durable <= |m.g.events|
      modifies this`disk, this`cache, this`m
      ensures Valid() && Step(old(m), if recovering then Recover else Commit, m)
      ensures LogFits(m) && Unlocked(m) && InstallStage(m, recovering, tail + 1)
      ensures !m.panicked && m.g == old(m.g)
    {
      hide Step, Head, InstallBlock, Unlocked;
      assert m.lh[tail] == block[tail];
      assert IsHome(m.l, |m.disk|, m.lh[tail]);
      InstallBlockIs(m, tail, recovering);
      InstallStageStep(m, recovering, tail);
      hide LogFits;
      ghost var m' :=
          InstallBlock(m, tail, recovering).(phase := if recovering then Replaying(tail + 1) else Installing(tail + 1));
      Bwrite(block[tail], Contents(start + tail + 1));
      if !recovering {
        cache := cache[block[tail] := cache[block[tail]].(pinned := false)];
      }
      m := m';
    }

    /** `install_trans`: copy every log block to its home location, unpinning unless recovering. */
    method InstallTrans(recovering: bool) returns (ghost run: seq<State>)
      requires Valid() && LogFits(m) && Unlocked(m) && InstallStage(m, recovering, 0)
      requires !m.panicked && m.g.durable <= |m.g.events|
      modifies this`disk, this`cache, this`m
      ensures Valid() && Steps(run, if recovering then Recover else Commit, old(m), m)
      ensures LogFits(m) && Unlocked(m) && InstallStage(m, recovering, n)
      ensures !m.panicked && m.g == old(m.g)
    {
      run := [m];
      var tail := 0;
      while tail < n
        invariant 0 <= tail <= n && Valid() && LogFits(m) && Unlocked(m)
        invariant InstallStage(m, recovering, tail) && !m.panicked && m.g == old(m.g)
        invariant Steps(run, if recovering then Recover else Commit, old(m), m)
      {
        InstallOne(tail, recovering);
        run := run + [m];
        tail := tail + 1;
      }
    }

    /** `commit`. Between any two of its block writes the disk recovers to all-before or all-after. */
    method RunCommit() returns (ghost run: seq<State>)
      requires Valid() && Inv(m) && m.phase == Logging(0) && Unlocked(m) && !m.panicked
      modifies this, block
      ensures Valid() && Steps(run, Commit, old(m), m) && m.phase == Finishing && m.lh == []
      ensures forall i :: 0 <= i < |run| ==> AllOrNothing(run[i], old(m.g.stable), old(m.g.cur))
      ensures m.g == old(m.g).AllDurable() && LogFits(m) && Unlocked(m) && !m.panicked
    {
      run := CommitBody();
      forall i | 0 <= i < |run|
        ensures AllOrNothing(run[i], old(m.g.stable), old(m.g.cur))
      {
        CommitIsAtomic(run, i);
      }
    }

    /** The header write that commits the transaction. */
    method CommitHead()
      requires Valid() && LogFits(m) && m.phase == Logging(n) && n > 0 && Unlocked(m)
      requires !m.panicked && m.g.durable <= |m.g.events|
      modifies this
      ensures Valid() && Step(old(m), Commit, m) && LogFits(m) && Unlocked(m)
      ensures m.phase == Installing(0) && !m.panicked && m.g == old(m.g).AllDurable()
    {
      ghost var m' := CommitStep(m);
      WriteHeadBlock();
      m := m';
    }

    /** The header write that erases an installed transaction. */
    method ClearHead(recovering: bool)
      requires Valid() && LogFits(m) && InstallStage(m, recovering, n) && Unlocked(m)
      requires !m.panicked && m.g.durable <= |m.g.events|
      modifies this
      ensures Valid() && Step(old(m), if recovering then Recover else Commit, m)
      ensures m.phase == (if recovering then Idle else Finishing) && m.lh == [] && m.g == old(m.g)
      ensures LogFits(m) && Unlocked(m) && !m.panicked
    {
      hide RecoverStep, CommitStep, Step, Unlocked, SetHead;
      ClearStep(m, recovering);
      ghost var m' := if recovering then RecoverStep(m) else CommitStep(m);
      n := 0;
      WriteHeadBlock();
      m := m';
    }

    method CommitBody() returns (ghost run: seq<State>)
      requires Valid() && LogFits(m) && m.phase == Logging(0) && Unlocked(m)
      requires !m.panicked && m.g.durable <= |m.g.events|
      modifies this, block
      ensures Valid() && Steps(run, Commit, old(m), m) && m.phase == Finishing && m.lh == []
      ensures m.g == old(m.g).AllDurable() && LogFits(m) && Unlocked(m) && !m.panicked
    {
      if n > 0 {
        run := WriteLog();
        CommitHead();
        run := run + [m];
        ghost var rest := InstallTrans(false);
        run := JoinSteps(run, rest, Commit);
        ClearHead(false);
        run := run + [m];
      } else {
        ghost var m' := CommitStep(m);
        run := [m, m'];
        m := m';
      }
    }

    /** The end of `end_op`: the commit is over and waiting operations may begin. */
    method FinishCommit()
      requires Valid() && LogFits(m) && m.phase == Finishing && Unlocked(m) && !m.panicked
      requires m.g.durable <= |m.g.events|
      modifies this`committing, this`m
      ensures Valid() && Step(old(m), Commit, m) && m == old(m).(phase := Idle)
    {
      committing := false;
      m := CommitStep(m);
    }

    /** `end_op` as a whole. The last operation out commits; afterwards everything that ended is durable
        and the log is idle and empty. */
    method EndOpWhole(ghost p: nat) returns (panicked: bool)
      requires Valid() && Inv(m) && Enabled(m, End(p)) && Unlocked(m)
      modifies this, block
      ensures Valid() && Inv(m) && m.phase == Idle
      ensures !panicked && !m.panicked && m.left == old(m.left) - {p}
      ensures m.left != map[] ==> m == EndStep(old(m), p)
      ensures m.left == map[] ==> m.lh == [] && m.g == EndStep(old(m), p).g.AllDurable()
    {
      hide Inv;
      StepInv(m, End(p));
      EndFacts(m, p);
      var doCommit;
      doCommit, panicked := EndOp(p);
      if doCommit {
        ghost var run := RunCommit();
        StepsInv(run, Commit, |run| - 1);
        CommitKeepsLeft(run, |run| - 1);
        FinishCommit();
        StepInv(run[|run| - 1], Commit);
      }
    }

    /** `read_head`: the header's count, then its entries one by one. */
    method ReadHead()
      requires Valid() && LayoutOk(m.l, |disk|) && HeadOk(disk, m.l) && Contents(start) == disk[start]
      modifies this`n, block
      ensures 0 <= n <= LOGSIZE && block[..n] == Head(disk, m.l)
    {
      var hb := Contents(start);
      n := hb[0];
      var i := 0;
      while i < n
        invariant 0 <= i <= n == hb[0] && block[..i] == hb[1..1 + i]
      {
        block[i] := hb[1 + i];
        i := i + 1;
      }
    }

    /** `recover_from_log`. It may be cut short after any block write and started again. */
    method RecoverFromLog() returns (ghost run: seq<State>)
      requires Valid() && Inv(m) && m.phase == Booting && !m.panicked
      modifies this, block
      ensures Valid() && Steps(run, Recover, old(m), m) && m.phase == Idle && m.lh == []
      ensures forall i :: 0 <= i < |run| ==>
                LayoutOk(run[i].l, |run[i].disk|) && Restores(run[i].disk, run[i].l, old(m.g.stable))
      ensures |old(m.g.stable)| == |disk|
      ensures forall b: nat :: m.Home(b) ==> disk[b] == old(m.g.stable)[b]
    {
      run := RecoverBody();
      forall i | 0 <= i < |run|
        ensures LayoutOk(run[i].l, |run[i].disk|) && Restores(run[i].disk, run[i].l, old(m.g.stable))
      {
        RecoverIsIdempotent(run, i);
      }
      RecoverHistory(run, |run| - 1);
      StepsInv(run, Recover, |run| - 1);
    }

    method RecoverBody() returns (ghost run: seq<State>)
      requires Valid() && LogFits(m) && m.phase == Booting && m.cache == map[] && HeadOk(m.disk, m.l)
      requires !m.panicked && m.g.durable <= |m.g.events|
      modifies this, block
      ensures Valid() && Steps(run, Recover, old(m), m) && m.phase == Idle && m.lh == []
    {
      ghost var m' := RecoverStep(m);
      run := [m, m'];
      ReadHead();
      m := m';
      assert Steps(run, Recover, old(m), m);
      ghost var rest := InstallTrans(true);
      run := JoinSteps(run, rest, Recover);
      ClearHead(true);
      run := run + [m];
    }
  }
}
