/** When the log never runs out of space: exactly when an operation adds fewer than MAXOPBLOCKS
    blocks, because the shipped region of LOGSIZE blocks includes the header. */
module LogSpace {
  import opened LogDisk
  import opened LogProtocol
  import opened LogProofs

  ghost function Sum(m: map<nat, nat>): nat {
    if m == map[] then 0 else
      var p :| p in m;
      m[p] + Sum(m - {p})
  }

  lemma {:induction false} SumRemove(m: map<nat, nat>, p: nat)
    requires p in m
    ensures Sum(m) == m[p] + Sum(m - {p})
  {
    var q :| q in m && Sum(m) == m[q] + Sum(m - {q});
    if q != p {
      SumRemove(m - {q}, p);
      SumRemove(m - {p}, q);
      assert m - {q} - {p} == m - {p} - {q};
    }
  }

  lemma SumUpdate(m: map<nat, nat>, p: nat, v: nat)
    ensures Sum(m[p := v]) == v + Sum(m - {p})
  {
    SumRemove(m[p := v], p);
    assert m[p := v] - {p} == m - {p};
  }

  lemma {:induction false} SumBound(m: map<nat, nat>)
    requires forall p :: p in m ==> m[p] < MAXOPBLOCKS
    ensures Sum(m) <= 9 * |m|
  {
    if m != map[] {
      var p :| p in m;
      SumRemove(m, p);
      SumBound(m - {p});
      assert (m - {p}).Keys == m.Keys - {p};
      assert |m - {p}| == |m| - 1;
    }
  }

  /** Space already used plus space still promised to operations in progress. */
  ghost predicate SpaceOk(s: State) {
    && s.l.size == LOGSIZE && s.quota < MAXOPBLOCKS
    && !s.panicked
    && (forall p :: p in s.left ==> s.left[p] <= s.quota)
    && (s.Up() ==> |s.lh| + Sum(s.left) <= LOGSIZE - 2)
  }

  lemma SpaceBegin(s: State, p: nat)
    requires Inv(s) && SpaceOk(s) && Enabled(s, Begin(p))
    ensures SpaceOk(Do(s, Begin(p)))
  {
    assert s.left - {p} == s.left;
    SumUpdate(s.left, p, s.quota);
    SumBound(s.left);
    if s.outstanding == 0 {
      assert s.left.Keys == {};
      assert s.left == map[];
    }
  }

  lemma SpaceLogWrite(s: State, p: nat, b: nat)
    requires Inv(s) && SpaceOk(s) && Enabled(s, LogWrite(p, b))
    ensures SpaceOk(Do(s, LogWrite(p, b)))
  {
    SumRemove(s.left, p);
    if b !in s.lh {
      SumUpdate(s.left, p, s.left[p] - 1);
    }
    assert s.left.Keys != {};
  }

  lemma SpaceEnd(s: State, p: nat)
    requires Inv(s) && SpaceOk(s) && Enabled(s, End(p))
    ensures SpaceOk(Do(s, End(p)))
  {
    SumRemove(s.left, p);
    assert s.phase.Idle?;
  }

  lemma SpaceCommit(s: State)
    requires Inv(s) && SpaceOk(s) && s.Committing()
    ensures SpaceOk(CommitStep(s))
  {
  }

  lemma SpaceRecover(s: State)
    requires Inv(s) && SpaceOk(s) && !s.Up()
    ensures SpaceOk(RecoverStep(s))
  {
    assert s.left == map[];
  }

  lemma SpaceOther(s: State, a: Action, s': State)
    requires SpaceOk(s) && Step(s, a, s')
    requires a.Read? || a.Modify? || a.Release? || a.Recycle? || a.Crash?
    ensures SpaceOk(s')
  {
    assert s'.left == s.left || a.Crash?;
  }

  lemma SpaceStep(s: State, a: Action, s': State)
    requires Inv(s) && SpaceOk(s) && Step(s, a, s')
    ensures SpaceOk(s')
  {
    hide SpaceOk, Inv;
    match a {
      case Begin(p) => SpaceBegin(s, p);
      case LogWrite(p, b) => SpaceLogWrite(s, p, b);
      case End(p) => SpaceEnd(s, p);
      case Commit => SpaceCommit(s);
      case Recover => SpaceRecover(s);
      case _ => SpaceOther(s, a, s');
    }
  }

  /** If no operation adds as many as MAXOPBLOCKS distinct blocks, `log_write` and `end_op` never
      panic, however many operations run at once. */
  lemma {:induction false} QuotaBelowMaxNeverPanics(run: seq<State>, acts: seq<Action>, i: nat)
    requires IsRun(run, acts) && i < |run|
    requires run[0].l.size == LOGSIZE && run[0].quota < MAXOPBLOCKS
    ensures SpaceOk(run[i]) && !run[i].panicked
  {
    if i > 0 {
      QuotaBelowMaxNeverPanics(run, acts, i - 1);
      RunInv(run, acts, i - 1);
      SpaceStep(run[i - 1], acts[i - 1], run[i]);
    }
  }

  // --- MAXOPBLOCKS blocks per operation are too many -------------------------------------------

  /** Operations 0, 1 and 2 are in progress and have logged blocks 100, 101, ... between them,
      ten each, `n` in all. */
  ghost predicate Filling(s: State, n: nat) {
    && s.l == Layout(2, LOGSIZE) && |s.disk| == 2000 && !s.panicked
    && s.phase == Idle && s.outstanding == 3 && n < LOGSIZE && |s.lh| == n
    && (forall p: nat :: p < 3 ==> p in s.left)
    && (forall p: nat :: p < 3 ==> s.left[p] >= if n < 10 * p then 10 else 10 * p + 10 - n)
    && (forall i :: 0 <= i < n ==> s.lh[i] == 100 + i)
    && (forall b: nat :: 100 + n <= b ==> b !in s.cache)
  }

  lemma LogNext(s: State, n: nat)
    requires Inv(s) && Filling(s, n)
    ensures var p, b := n / 10, 100 + n;
            && Enabled(s, Read(p, b)) && Step(s, Read(p, b), Do(s, Read(p, b)))
            && var s1 := Do(s, Read(p, b));
            && Enabled(s1, LogWrite(p, b))
            && s1 == s.(cache := s.cache[b := Entry(s.disk[b], false, By(p), false)])
  {
    CanStep(s, Read(n / 10, 100 + n));
  }

  lemma LogNextDone(s: State, s1: State, n: nat)
    requires Filling(s, n) && Inv(s1)
    requires s1 == s.(cache := s.cache[100 + n := Entry(s.disk[100 + n], false, By(n / 10), false)])
    requires Enabled(s1, LogWrite(n / 10, 100 + n))
    ensures var s2 := LogWriteStep(s1, n / 10, 100 + n);
            if n < LOGSIZE - 1 then Filling(s2, n + 1) else s2.panicked
  {
  }

  lemma FillOne(run: seq<State>, acts: seq<Action>, n: nat) returns (run': seq<State>, acts': seq<Action>)
    requires IsRun(run, acts) && Filling(run[|acts|], n)
    ensures IsRun(run', acts') && run'[0] == run[0]
    ensures if n < LOGSIZE - 1 then Filling(run'[|acts'|], n + 1) else run'[|acts'|].panicked
  {
    hide Inv, Filling;
    var s := run[|acts|];
    var p, b := n / 10, 100 + n;
    RunInv(run, acts, |acts|);
    LogNext(s, n);
    var s1 := Do(s, Read(p, b));
    ExtendRun(run, acts, Read(p, b), s1);
    RunInv(run + [s1], acts + [Read(p, b)], |acts| + 1);
    CanStep(s1, LogWrite(p, b));
    LogNextDone(s, s1, n);
    var s2 := Do(s1, LogWrite(p, b));
    run', acts' := run + [s1] + [s2], acts + [Read(p, b)] + [LogWrite(p, b)];
    ExtendRun(run + [s1], acts + [Read(p, b)], LogWrite(p, b), s2);
  }

  lemma {:induction false} FillUp(run: seq<State>, acts: seq<Action>, n: nat)
    returns (run': seq<State>, acts': seq<Action>)
    requires IsRun(run, acts) && Filling(run[|acts|], n)
    ensures IsRun(run', acts') && run'[0] == run[0] && run'[|acts'|].panicked
    decreases LOGSIZE - n
  {
    run', acts' := FillOne(run, acts, n);
    if n < LOGSIZE - 1 {
      run', acts' := FillUp(run', acts', n + 1);
    }
  }

  /** Recovery of a freshly made file system is done and the first `k` operations have begun. */
  ghost predicate Begun(s: State, k: nat) {
    && s.l == Layout(2, LOGSIZE) && |s.disk| == 2000 && s.quota >= MAXOPBLOCKS && !s.panicked
    && s.phase == Idle && s.lh == [] && k <= 3 && s.outstanding == k
    && (forall p: nat :: p < k ==> p in s.left && s.left[p] == s.quota)
    && (forall p: nat :: k <= p ==> p !in s.g.started)
    && (forall b: nat :: 100 <= b ==> b !in s.cache)
  }

  lemma Boot(quota: nat) returns (run: seq<State>, acts: seq<Action>)
    requires quota >= MAXOPBLOCKS
    ensures IsRun(run, acts) && run[0].quota == quota && run[0].l.size == LOGSIZE
    ensures Begun(run[|acts|], 0)
  {
    var zero: Block := seq(BLOCK_WORDS, _ => 0);
    var disk: seq<Block> := seq(2000, _ => zero);
    var g := History({}, disk, [], 0, disk, disk);
    var s0 := State(Layout(2, LOGSIZE), disk, map[], [], 0, Booting, false, quota, map[], g);
    assert zero[1..1] == [];
    assert Init(s0);
    InitInv(s0);
    CanStep(s0, Recover);
    var s1 := Do(s0, Recover);
    ExtendRun([s0], [], Recover, s1);
    StepInv(s0, Recover);
    CanStep(s1, Recover);
    run, acts := [s0] + [s1] + [Do(s1, Recover)], [] + [Recover] + [Recover];
    ExtendRun([s0] + [s1], [] + [Recover], Recover, Do(s1, Recover));
  }

  lemma BeginOne(run: seq<State>, acts: seq<Action>, k: nat) returns (run': seq<State>, acts': seq<Action>)
    requires IsRun(run, acts) && Begun(run[|acts|], k) && k < 3
    ensures IsRun(run', acts') && run'[0] == run[0] && Begun(run'[|acts'|], k + 1)
  {
    hide Inv;
    var s := run[|acts|];
    RunInv(run, acts, |acts|);
    CanStep(s, Begin(k));
    run', acts' := run + [Do(s, Begin(k))], acts + [Begin(k)];
    ExtendRun(run, acts, Begin(k), Do(s, Begin(k)));
  }

  /** The documented limit itself is one too many: three concurrent operations that each log
      MAXOPBLOCKS distinct blocks run into the "too big a transaction" panic. */
  lemma MaxOpBlocksPanics(quota: nat) returns (run: seq<State>, acts: seq<Action>)
    requires quota >= MAXOPBLOCKS
    ensures IsRun(run, acts) && run[0].l.size == LOGSIZE && run[0].quota == quota
    ensures run[|acts|].panicked
  {
    run, acts := Boot(quota);
    run, acts := BeginOne(run, acts, 0);
    run, acts := BeginOne(run, acts, 1);
    run, acts := BeginOne(run, acts, 2);
    assert Filling(run[|acts|], 0);
    run, acts := FillUp(run, acts, 0);
  }

  ghost predicate NeverPanics(quota: nat) {
    forall run: seq<State>, acts: seq<Action>, i ::
      IsRun(run, acts) && run[0].l.size == LOGSIZE && run[0].quota == quota && 0 <= i < |run| ==>
        !run[i].panicked
  }

  /** On the shipped log, the panics are unreachable exactly when every operation stays below
      MAXOPBLOCKS distinct blocks. */
  lemma SpaceGuaranteeIsExact(quota: nat)
    ensures NeverPanics(quota) <==> quota < MAXOPBLOCKS
  {
    if quota < MAXOPBLOCKS {
      forall run: seq<State>, acts: seq<Action>,
          i | IsRun(run, acts) && run[0].l.size == LOGSIZE && run[0].quota == quota && 0 <= i < |run|
        ensures !run[i].panicked
      {
        QuotaBelowMaxNeverPanics(run, acts, i);
      }
    } else {
      var run, acts := MaxOpBlocksPanics(quota);
      assert IsRun(run, acts) && run[|acts|].panicked;
    }
  }
}
