/** File system and log together: operations on files, each one transaction of the log, under crashes at
    any moment. What a machine finds after a crash is the file system as some prefix of the operations
    left it, file by file and byte by byte. */
module CrashSafety {
  import opened FsFormat
  import opened FsLayout
  import opened FileSystem
  import I = FsImage
  import L = LogDisk
  import P = LogProtocol
  import F = LogProofs
  import T = LogTheorems
  import M = Mkfs

  // --- Operations one after another as events of the log --------------------------------------------

  function Writes(p: nat, ws: seq<I.Write>): seq<P.Event> {
    seq(|ws|, k requires 0 <= k < |ws| => P.Wrote(p, ws[k].b, ws[k].data))
  }

  /** An operation until just before its end. */
  function Open(p: nat, ws: seq<I.Write>): seq<P.Event> { [P.Began(p)] + Writes(p, ws) }

  /** The operations `ids` in turn, operation `k` writing `txns[k]`. */
  function Serial(ids: seq<nat>, txns: seq<seq<I.Write>>): seq<P.Event>
    requires |ids| == |txns|
  {
    if ids == [] then []
    else
      var n := |ids| - 1;
      Serial(ids[..n], txns[..n]) + Open(ids[n], txns[n]) + [P.Ended(ids[n])]
  }

  ghost predicate Distinct(ids: seq<nat>) { forall i, j :: 0 <= i < j < |ids| ==> ids[i] != ids[j] }

  /** Events of operation `p`, which has not ended. */
  ghost predicate Unfinished(es: seq<P.Event>, p: nat) {
    forall k :: 0 <= k < |es| ==> es[k].p == p && !es[k].Ended?
  }

  lemma {:induction false} SerialIds(ids: seq<nat>, txns: seq<seq<I.Write>>)
    requires |ids| == |txns|
    ensures forall k :: 0 <= k < |Serial(ids, txns)| ==> Serial(ids, txns)[k].p in ids
  {
    if ids != [] {
      var n := |ids| - 1;
      SerialIds(ids[..n], txns[..n]);
    }
  }

  /** A prefix that reaches into the operation in progress cuts it in two. */
  lemma Straddles(ids: seq<nat>, txns: seq<seq<I.Write>>, p: nat, tail: seq<P.Event>, m: nat)
    requires |ids| == |txns| && p !in ids && Unfinished(tail, p)
    requires |Serial(ids, txns)| < m <= |Serial(ids, txns) + tail|
    ensures !P.Closed((Serial(ids, txns) + tail)[..m])
  {
    SerialIds(ids, txns);
    var h := (Serial(ids, txns) + tail)[..m];
    assert h[|Serial(ids, txns)|].p == p;
    assert P.Ended(p) !in h;
  }

  /** A prefix in which no operation is cut in two is a number of whole operations. */
  lemma {:induction false} ClosedPrefix(ids: seq<nat>, txns: seq<seq<I.Write>>, p: nat, tail: seq<P.Event>, m: nat)
    returns (k: nat)
    requires |ids| == |txns| && Distinct(ids) && p !in ids && Unfinished(tail, p)
    requires m <= |Serial(ids, txns) + tail| && P.Closed((Serial(ids, txns) + tail)[..m])
    ensures k <= |ids| && (Serial(ids, txns) + tail)[..m] == Serial(ids[..k], txns[..k])
    ensures m == |Serial(ids, txns) + tail| ==> k == |ids|
    decreases |ids|
  {
    var s := Serial(ids, txns);
    var e := s + tail;
    SerialIds(ids, txns);
    if m > |s| {
      Straddles(ids, txns, p, tail, m);
      assert false;
    } else if m == |s| {
      assert e[..m] == s && ids[..|ids|] == ids && txns[..|txns|] == txns;
      k := |ids|;
    } else {
      var n := |ids| - 1;
      var s', open := Serial(ids[..n], txns[..n]), Open(ids[n], txns[n]);
      assert s == s' + open + [P.Ended(ids[n])];
      assert e[..m] == (s' + open)[..m];
      k := ClosedPrefix(ids[..n], txns[..n], ids[n], open, m);
      assert ids[..n][..k] == ids[..k] && txns[..n][..k] == txns[..k];
    }
  }

  // --- What the events leave on the disk ------------------------------------------------------------

  /** The same from block `lo` on. */
  ghost predicate Agree(x: seq<L.Block>, y: seq<L.Block>, lo: nat) {
    |x| == |y| && forall b :: lo <= b < |x| ==> x[b] == y[b]
  }

  lemma AgreeTrans(x: seq<L.Block>, y: seq<L.Block>, z: seq<L.Block>, lo: nat)
    requires Agree(x, y, lo) && Agree(y, z, lo)
    ensures Agree(x, z, lo)
  {
  }

  lemma {:induction false} WrittenAgree(x: seq<L.Block>, y: seq<L.Block>, ws: seq<I.Write>, lo: nat)
    requires Agree(x, y, lo)
    ensures Agree(I.Written(x, ws), I.Written(y, ws), lo)
  {
    if ws != [] {
      WrittenAgree(x, y, ws[..|ws| - 1], lo);
    }
  }

  lemma {:induction false} ReplayWrites(base: seq<L.Block>, h: seq<P.Event>, p: nat, ws: seq<I.Write>)
    ensures P.Replay(base, h + Writes(p, ws)) == I.Written(P.Replay(base, h), ws)
  {
    var e := h + Writes(p, ws);
    if ws == [] {
      assert e == h;
    } else {
      var n := |ws| - 1;
      ReplayWrites(base, h, p, ws[..n]);
      assert e[..|e| - 1] == h + Writes(p, ws[..n]);
    }
  }

  lemma ReplayMark(base: seq<L.Block>, h: seq<P.Event>, e: P.Event)
    requires !e.Wrote?
    ensures P.Replay(base, h + [e]) == P.Replay(base, h)
  {
    assert (h + [e])[..|h|] == h;
  }

  lemma ReplayOne(base: seq<L.Block>, ids: seq<nat>, txns: seq<seq<I.Write>>)
    requires |ids| == |txns| > 0
    ensures var n := |ids| - 1;
            P.Replay(base, Serial(ids, txns)) == I.Written(P.Replay(base, Serial(ids[..n], txns[..n])), txns[n])
  {
    var n := |ids| - 1;
    var h, p, ws := Serial(ids[..n], txns[..n]), ids[n], txns[n];
    assert Serial(ids, txns) == h + [P.Began(p)] + Writes(p, ws) + [P.Ended(p)];
    ReplayMark(base, h, P.Began(p));
    ReplayWrites(base, h + [P.Began(p)], p, ws);
    ReplayMark(base, h + [P.Began(p)] + Writes(p, ws), P.Ended(p));
  }

  /** The states of a file system, all in order, and the writes that lead from each to the next. */
  ghost predicate Chronicle(sb: Super, hist: seq<Snapshot>, txns: seq<seq<I.Write>>) {
    && |hist| == |txns| + 1 && (forall k :: 0 <= k < |hist| ==> hist[k].Sound(sb))
    && (forall k :: 0 <= k < |hist| ==> |hist[k].ino| == |hist[0].ino|)
    && forall k :: 0 <= k < |txns| ==>
         Agree(I.Written(hist[k].Image(sb), txns[k]), hist[k + 1].Image(sb), sb.inodestart)
  }

  lemma {:induction false} ReplaySerial(sb: Super, base: seq<L.Block>, hist: seq<Snapshot>, ids: seq<nat>,
                                        txns: seq<seq<I.Write>>, k: nat)
    requires Chronicle(sb, hist, txns) && |ids| == |txns| && k <= |txns|
    requires Agree(base, hist[0].Image(sb), sb.inodestart)
    ensures Agree(P.Replay(base, Serial(ids[..k], txns[..k])), hist[k].Image(sb), sb.inodestart)
  {
    hide I.Written, P.Replay, Snapshot.Image, Snapshot.Sound, Agree;
    if k == 0 {
      assert P.Replay(base, []) == base by {
        ReplayNothing(base);
      }
    } else {
      ReplaySerial(sb, base, hist, ids, txns, k - 1);
      ReplayOne(base, ids[..k], txns[..k]);
      assert ids[..k][..k - 1] == ids[..k - 1] && txns[..k][..k - 1] == txns[..k - 1];
      var was := P.Replay(base, Serial(ids[..k - 1], txns[..k - 1]));
      WrittenAgree(was, hist[k - 1].Image(sb), txns[k - 1], sb.inodestart);
      assert Agree(I.Written(hist[k - 1].Image(sb), txns[k - 1]), hist[k - 1 + 1].Image(sb), sb.inodestart);
      AgreeTrans(I.Written(was, txns[k - 1]), I.Written(hist[k - 1].Image(sb), txns[k - 1]), hist[k].Image(sb),
                 sb.inodestart);
    }
  }

  lemma ReplayNothing(base: seq<L.Block>)
    ensures P.Replay(base, []) == base
  {
  }

  // --- Mounting what a crash left -------------------------------------------------------------------

  /** Mounted, the image is a file system in order, with exactly the files of `h`. */
  ghost predicate Restored(sb: Super, img: seq<L.Block>, h: Snapshot) {
    && |h.ino| > 0 && sb.inodestart + (|h.ino| - 1) / IPB < |img|
    && var d, t := I.DiskOf(img), I.TableOf(sb, |h.ino|, img);
       && FsOk(sb, d, t, h.own) && SizesOk(t) && FreeOnesEmpty(t) && Flat(d, t) == h.Files()
       && (AllWhole(h.disk, h.ino) ==> AllWhole(d, t))
       && Agree(I.Image(sb, d, t), h.Image(sb), sb.inodestart)
  }

  lemma Mounts(sb: Super, img: seq<L.Block>, h: Snapshot)
    requires h.Sound(sb) && |h.ino| > 0 && Agree(img, h.Image(sb), sb.inodestart)
    ensures Restored(sb, img, h)
  {
    hide I.DiskOf, I.TableOf, I.Image, I.ImageBlock, Flat, FsOk, Agree, AllWhole;
    ImageBlocks(sb, h, img);
    SoundSize(sb, h);
    I.ImageRound(sb, h.disk, h.ino, img);
    SameMeaning(sb, h.disk, h.ino, h.own, I.DiskOf(img));
  }

  lemma SoundSize(sb: Super, h: Snapshot)
    requires h.Sound(sb)
    ensures SuperOk(sb, |h.disk|, |h.ino|) && sb.inodestart < sb.bmapstart < |h.disk|
    ensures |h.ino| > 0 ==> sb.inodestart + (|h.ino| - 1) / IPB < |h.disk|
    ensures forall i :: 0 <= i < |h.ino| ==> h.ino[i].size < 0x1_0000_0000
  {
  }

  /** Bitmap and data blocks are all that counts. */
  lemma SameMeaning(sb: Super, d: seq<Block>, ino: seq<Inode>, own: map<nat, Slot>, d': seq<Block>)
    requires FsOk(sb, d, ino, own) && |d'| == |d| && forall x: nat :: sb.bmapstart <= x < |d| ==> d'[x] == d[x]
    ensures FsOk(sb, d', ino, own) && Flat(d', ino) == Flat(d, ino) && (AllWhole(d, ino) ==> AllWhole(d', ino))
    ensures Agree(I.Image(sb, d', ino), I.Image(sb, d, ino), sb.inodestart)
  {
    hide Ref, FileByte, Bit, I.TableBlock, I.WordsOf;
    SameData(sb, d, ino, own, d');
    if AllWhole(d, ino) {
      forall j | 0 <= j < |ino|
        ensures NoHoles(d', ino, j)
      {
        assert NoHoles(d, ino, j);
      }
    }
    forall j: nat | j < |ino|
      ensures Contents(d', ino, j) == Contents(d, ino, j)
    {
    }
    forall b: nat | b < sb.size
      ensures BitOf(sb, d', b) == BitOf(sb, d, b)
    {
    }
  }

  lemma ImageSize(sb: Super, h: Snapshot)
    ensures |h.Image(sb)| == |h.disk|
  {
  }

  lemma ImageBlocks(sb: Super, h: Snapshot, img: seq<L.Block>)
    requires h.table == h.ino && Agree(img, h.Image(sb), sb.inodestart)
    ensures |img| == |h.disk|
    ensures forall x: nat :: sb.inodestart <= x < |h.disk| ==> img[x] == I.ImageBlock(sb, h.disk, h.ino, x)
  {
    hide I.ImageBlock;
  }

  /** The log region lies below the inodes, and the log began with the file system of `hist[0]`. */
  ghost predicate Laid(sb: Super, s: P.State, hist: seq<Snapshot>)
    requires |hist| > 0
  {
    && s.l.start + s.l.size <= sb.inodestart && |hist[0].ino| > 0 && |s.disk| == |hist[0].disk|
    && Agree(s.g.base, hist[0].Image(sb), sb.inodestart)
  }

  /** The requests made of the log: the operations of the chronicle, then part of one more. */
  ghost predicate Requested(s: P.State, ids: seq<nat>, txns: seq<seq<I.Write>>, p: nat, tail: seq<P.Event>) {
    && |ids| == |txns| && Distinct(ids) && p !in ids && Unfinished(tail, p)
    && s.g.events == Serial(ids, txns) + tail
  }

  /** What recovery would leave of the disk if the machine stopped now. */
  ghost function Recovered(s: P.State): seq<L.Block>
    requires L.LayoutOk(s.l, |s.disk|) && L.HeadOk(s.disk, s.l)
  {
    seq(|s.disk|, b requires 0 <= b < |s.disk| => L.View(s.disk, s.l, b))
  }

  /** The durable requests are those of a number of whole operations, all of them once the log is idle. */
  lemma DurableOperations(run: seq<P.State>, acts: seq<P.Action>, i: nat, sb: Super, hist: seq<Snapshot>,
                          ids: seq<nat>, txns: seq<seq<I.Write>>, p: nat, tail: seq<P.Event>)
    returns (k: nat)
    requires P.IsRun(run, acts) && i < |run| && Chronicle(sb, hist, txns)
    requires Laid(sb, run[i], hist) && Requested(run[i], ids, txns, p, tail)
    ensures k <= |txns| && run[i].g.durable <= |run[i].g.events|
    ensures run[i].g.events[..run[i].g.durable] == Serial(ids[..k], txns[..k])
    ensures Agree(P.Replay(run[i].g.base, run[i].g.events[..run[i].g.durable]), hist[k].Image(sb), sb.inodestart)
    ensures run[i].g.durable == |run[i].g.events| ==> k == |txns|
    ensures i < |acts| && run[i].phase.Idle? && run[i].outstanding == 0 ==> k == |txns|
  {
    hide Snapshot.Image, Snapshot.Sound, Serial, P.Closed, P.Replay, L.View;
    assert hist[0].Sound(sb);
    SoundSize(sb, hist[0]);
    T.RecoveredDiskIsClosedPrefix(run, acts, i, sb.inodestart);
    k := ClosedPrefix(ids, txns, p, tail, run[i].g.durable);
    if i < |acts| {
      T.CommitRunsAlone(run, acts, i);
    }
    ReplaySerial(sb, run[i].g.base, hist, ids, txns, k);
  }

  /** Whatever image has in each home block what the durable requests put there is the file system after
      those operations. */
  lemma MountsAfter(sb: Super, s: P.State, hist: seq<Snapshot>, k: nat, img: seq<L.Block>, goal: seq<L.Block>)
    requires k < |hist| && Laid(sb, s, hist) && hist[k].Sound(sb) && |hist[k].ino| == |hist[0].ino|
    requires |img| == |s.disk| && Agree(goal, hist[k].Image(sb), sb.inodestart)
    requires |goal| == |s.g.base| && forall b: nat :: b < |goal| && s.Home(b) ==> img[b] == goal[b]
    ensures Restored(sb, img, hist[k])
  {
    hide Snapshot.Image, Snapshot.Sound, Restored;
    ImageSize(sb, hist[0]);
    assert Agree(img, goal, sb.inodestart);
    AgreeTrans(img, goal, hist[k].Image(sb), sb.inodestart);
    Mounts(sb, img, hist[k]);
  }

  /** Crash atomicity of the file system: at every moment of every run of the log, the disk recovery would
      leave is the file system after a number of whole operations, all of them once the log is idle. */
  lemma CrashLeavesWholeOperations(run: seq<P.State>, acts: seq<P.Action>, i: nat, sb: Super, hist: seq<Snapshot>,
                                   ids: seq<nat>, txns: seq<seq<I.Write>>, p: nat, tail: seq<P.Event>)
    returns (k: nat)
    requires P.IsRun(run, acts) && i < |run| && Chronicle(sb, hist, txns)
    requires Laid(sb, run[i], hist) && Requested(run[i], ids, txns, p, tail)
    ensures L.LayoutOk(run[i].l, |run[i].disk|) && L.HeadOk(run[i].disk, run[i].l)
    ensures k <= |txns| && Restored(sb, Recovered(run[i]), hist[k])
    ensures i < |acts| && run[i].phase.Idle? && run[i].outstanding == 0 ==> k == |txns|
  {
    hide Snapshot.Image, Snapshot.Sound, Restored, Serial, P.Closed, P.Replay, L.View, Agree, Requested;
    var s := run[i];
    assert hist[0].Sound(sb);
    SoundSize(sb, hist[0]);
    T.RecoveredDiskIsClosedPrefix(run, acts, i, sb.inodestart);
    k := DurableOperations(run, acts, i, sb, hist, ids, txns, p, tail);
    var img, goal := Recovered(s), P.Replay(s.g.base, s.g.events[..s.g.durable]);
    forall b: nat | b < |goal| && s.Home(b)
      ensures img[b] == goal[b]
    {
      T.RecoveredDiskIsClosedPrefix(run, acts, i, b);
    }
    assert hist[k].Sound(sb) && |hist[k].ino| == |hist[0].ino|;
    MountsAfter(sb, s, hist, k, img, goal);
  }

  /** A crash forgets exactly the requests of the operations it does not keep: what is left is the
      chronicle of the others, with nothing in progress. */
  lemma CrashForgetsTheRest(run: seq<P.State>, acts: seq<P.Action>, i: nat, sb: Super, hist: seq<Snapshot>,
                            ids: seq<nat>, txns: seq<seq<I.Write>>, p: nat, tail: seq<P.Event>)
    returns (k: nat)
    requires P.IsRun(run, acts) && i < |acts| && acts[i] == P.Crash && Chronicle(sb, hist, txns)
    requires Laid(sb, run[i], hist) && Requested(run[i], ids, txns, p, tail)
    ensures k <= |txns| && Chronicle(sb, hist[..k + 1], txns[..k])
    ensures Laid(sb, run[i + 1], hist[..k + 1]) && Requested(run[i + 1], ids[..k], txns[..k], p, [])
    ensures run[i].phase.Idle? && run[i].outstanding == 0 ==> k == |txns|
  {
    hide Snapshot.Image, Snapshot.Sound, Serial, P.Replay, Agree, I.Written;
    k := DurableOperations(run, acts, i, sb, hist, ids, txns, p, tail);
    assert P.Step(run[i], acts[i], run[i + 1]);
    assert Serial(ids[..k], txns[..k]) + [] == Serial(ids[..k], txns[..k]);
    forall j | 0 <= j < k
      ensures Agree(I.Written(hist[..k + 1][j].Image(sb), txns[..k][j]), hist[..k + 1][j + 1].Image(sb), sb.inodestart)
    {
      assert Agree(I.Written(hist[j].Image(sb), txns[j]), hist[j + 1].Image(sb), sb.inodestart);
    }
  }

  /** After recovery has run to its end, however often it was cut short, the disk itself can be mounted and
      holds the files as the operations that were kept left them. */
  lemma RebootFindsWhatWasKept(run: seq<P.State>, acts: seq<P.Action>, i: nat, sb: Super, hist: seq<Snapshot>,
                               ids: seq<nat>, txns: seq<seq<I.Write>>, p: nat, tail: seq<P.Event>)
    requires P.IsRun(run, acts) && i < |acts| && acts[i] == P.Recover && run[i + 1].phase.Idle?
    requires Chronicle(sb, hist, txns) && Laid(sb, run[i], hist) && Requested(run[i], ids, txns, p, tail)
    ensures Restored(sb, run[i + 1].disk, hist[|txns|])
    ensures Laid(sb, run[i + 1], hist) && Requested(run[i + 1], ids, txns, p, tail)
  {
    hide Snapshot.Image, Snapshot.Sound, Restored, Serial, P.Replay, L.View, Agree;
    var s, s' := run[i], run[i + 1];
    assert hist[0].Sound(sb);
    SoundSize(sb, hist[0]);
    T.CompletedRecoveryRestores(run, acts, i, sb.inodestart);
    var k := DurableOperations(run, acts, i, sb, hist, ids, txns, p, tail);
    var goal := P.Replay(s.g.base, s.g.events[..s.g.durable]);
    forall b: nat | b < |goal| && s.Home(b)
      ensures s'.disk[b] == goal[b]
    {
      T.CompletedRecoveryRestores(run, acts, i, b);
    }
    assert hist[k].Sound(sb) && |hist[k].ino| == |hist[0].ino|;
    RecoveringKeepsAll(run, acts, i);
    MountsAfter(sb, s, hist, k, s'.disk, goal);
  }

  /** While the machine recovers, all requests it still knows of are durable. */
  lemma RecoveringKeepsAll(run: seq<P.State>, acts: seq<P.Action>, i: nat)
    requires P.IsRun(run, acts) && i < |acts| && acts[i] == P.Recover
    ensures run[i].g.durable == |run[i].g.events| && run[i + 1].l == run[i].l && |run[i + 1].disk| == |run[i].disk|
  {
    F.RunInv(run, acts, i);
    assert P.Step(run[i], acts[i], run[i + 1]);
  }

  /** The chronicle goes on after a crash: `k` operations of the old one, then those on the file system
      mounted from what they left. */
  lemma ChronicleGoesOn(sb: Super, hist: seq<Snapshot>, txns: seq<seq<I.Write>>, k: nat, hist': seq<Snapshot>,
                        txns': seq<seq<I.Write>>)
    requires Chronicle(sb, hist, txns) && Chronicle(sb, hist', txns') && k <= |txns|
    requires Agree(hist'[0].Image(sb), hist[k].Image(sb), sb.inodestart) && |hist'[0].ino| == |hist[0].ino|
    ensures Chronicle(sb, hist[..k] + hist', txns[..k] + txns')
    ensures (hist[..k] + hist')[k].Image(sb) == hist'[0].Image(sb)
  {
    hide Snapshot.Image, Snapshot.Sound, I.Written;
    var h, t := hist[..k] + hist', txns[..k] + txns';
    forall j | 0 <= j < |t|
      ensures Agree(I.Written(h[j].Image(sb), t[j]), h[j + 1].Image(sb), sb.inodestart)
    {
      if j < k {
        assert Agree(I.Written(hist[j].Image(sb), txns[j]), hist[j + 1].Image(sb), sb.inodestart);
      } else {
        assert h[j] == hist'[j - k] && h[j + 1] == hist'[j - k + 1] && t[j] == txns'[j - k];
      }
    }
  }

  // --- From `mkfs` through any number of crashes ----------------------------------------------------

  /** No operation leaves the inode table on disk behind the one in memory: no file has a hole, or none is
      read inside an operation. */
  ghost predicate KeepsUp(whole: bool, ops: seq<Op>) { whole || forall k :: 0 <= k < |ops| ==> !ops[k].MayFill() }

  /** A fresh image and operations on it, up to a panic: a chronicle that starts from the files given and
      does at every step what `FlatStep` says. */
  method FirstBoot(files: seq<(seq<Byte>, seq<Byte>)>, ops: seq<Op>)
    returns (fs: Fs, panicked: bool, done: nat, answers: seq<Answer>, ghost hist: seq<Snapshot>,
             ghost txns: seq<seq<I.Write>>)
    requires M.Fits(files) && KeepsUp((|files| + 2) % 64 != 0, ops)
    requires forall k :: 0 <= k < |ops| && ops[k].OpWrite? ==> |ops[k].src| < 0x1_0000_0000
    ensures Chronicle(M.SB, hist, txns) && M.Booted(files, hist[0]) && |txns| == done && hist[done] == fs.Now()
    ensures |answers| == done <= |ops| && (panicked <==> done < |ops|)
    ensures (panicked ==> hist[done].Panics(M.SB, ops[done]))
    ensures (|files| + 2) % 64 != 0 ==>
      !panicked && forall k :: 0 <= k <= done ==> AllWhole(hist[k].disk, hist[k].ino)
    ensures forall k :: 0 <= k < done ==> hist[k].Steps(M.SB, ops[k], answers[k], hist[k + 1])
  {
    hide Snapshot.Image, Snapshot.Sound, I.Written, Snapshot.Steps, M.Booted, M.Fits, Snapshot.Files, Snapshot.Panics,
         AllWhole;
    var ok, mounted;
    ok, panicked, mounted, done, answers, hist, txns := M.Boot(files, ops);
    fs := mounted;
  }

  /** Mount the disk a crash left, as recovery restored it. */
  method Remount(sb: Super, n: nat, img: seq<L.Block>, ghost h: Snapshot) returns (fs: Fs)
    requires Restored(sb, img, h) && n == |h.ino|
    ensures fresh(fs) && fs.AtRest() && fs.Synced() && fs.sb == sb && |fs.ino| == n && fs.Now().Files() == h.Files()
    ensures AllWhole(h.disk, h.ino) ==> fs.Whole()
    ensures Agree(fs.Now().Image(sb), h.Image(sb), sb.inodestart)
  {
    hide FsOk, Flat, AllWhole, I.Image, I.DiskOf, I.TableOf, Agree;
    TableSize(sb, n, img);
    fs := new Fs(sb, I.DiskOf(img), I.TableOf(sb, n, img), h.own);
  }

  lemma TableSize(sb: Super, n: nat, img: seq<L.Block>)
    requires n > 0 ==> sb.inodestart + (n - 1) / IPB < |img|
    ensures |I.TableOf(sb, n, img)| == n
  {
  }

  /** Go on after a crash that kept `k` operations: with what they left as its start, any further operations
      extend the chronicle of those `k`, so that whatever holds of a chronicle holds through any number of
      crashes. */
  method Reboot(sb: Super, n: nat, img: seq<L.Block>, ops: seq<Op>, ghost hist: seq<Snapshot>,
                ghost txns: seq<seq<I.Write>>, ghost k: nat)
    returns (fs: Fs, panicked: bool, done: nat, answers: seq<Answer>, ghost hist': seq<Snapshot>,
             ghost txns': seq<seq<I.Write>>)
    requires Chronicle(sb, hist, txns) && k <= |txns| && Restored(sb, img, hist[k]) && n == |hist[0].ino|
    requires KeepsUp(AllWhole(hist[k].disk, hist[k].ino), ops)
    requires forall k :: 0 <= k < |ops| && ops[k].OpWrite? ==> |ops[k].src| < 0x1_0000_0000
    ensures |hist'| == done + 1 && |txns'| == done && hist'[0].Files() == hist[k].Files() && hist'[done] == fs.Now()
    ensures |answers| == done <= |ops| && (panicked <==> done < |ops|)
    ensures (panicked ==> hist'[done].Panics(sb, ops[done]))
    ensures AllWhole(hist[k].disk, hist[k].ino) ==>
      !panicked && forall j :: 0 <= j <= done ==> AllWhole(hist'[j].disk, hist'[j].ino)
    ensures Chronicle(sb, hist[..k] + hist', txns[..k] + txns')
    ensures forall j :: 0 <= j < done ==> hist'[j].Steps(sb, ops[j], answers[j], hist'[j + 1])
  {
    hide Snapshot.Image, Snapshot.Sound, I.Written, Snapshot.Steps, Restored, Snapshot.Files, Snapshot.Panics, Agree,
         AllWhole;
    assert |hist[k].ino| == |hist[0].ino|;
    fs := Remount(sb, n, img, hist[k]);
    panicked, done, answers, hist', txns' := fs.Run(ops);
    forall j | 0 <= j < |txns'|
      ensures Agree(I.Written(hist'[j].Image(sb), txns'[j]), hist'[j + 1].Image(sb), sb.inodestart)
    {
      AgreeSelf(hist'[j + 1].Image(sb), sb.inodestart);
    }
    ChronicleGoesOn(sb, hist, txns, k, hist', txns');
  }

  lemma AgreeSelf(x: seq<L.Block>, lo: nat)
    ensures Agree(x, x, lo)
  {
  }
}
