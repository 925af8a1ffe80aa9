/** Every step of the logging protocol keeps its invariant, and what that means for whole runs. */
module LogProofs {
  import opened LogDisk
  import opened LogProtocol

  // --- Histories -------------------------------------------------------------------------------

  lemma ReplayAdd(g: History, e: Event)
    requires ReplayOk(g)
    ensures ReplayOk(g.Add(e))
  {
    assert (g.events + [e])[..|g.events|] == g.events;
    assert (g.events + [e])[..g.durable] == g.events[..g.durable];
  }

  lemma EventsBegin(g: History, active: set<nat>, p: nat)
    requires EventsOk(g, active) && p !in g.started
    ensures EventsOk(g.(started := g.started + {p}).Add(Began(p)), active + {p})
  {
    var g' := g.(started := g.started + {p}).Add(Began(p));
    assert g'.events[..g'.durable] == g.events[..g.durable];
    assert forall i :: 0 <= i < |g.events| ==> g'.events[i] == g.events[i];
    assert forall e :: e in g.events ==> e in g'.events;
  }

  lemma EventsWrote(g: History, active: set<nat>, p: nat, b: nat, data: Block)
    requires EventsOk(g, active) && p in active
    ensures EventsOk(g.Add(Wrote(p, b, data)), active)
  {
    var g' := g.Add(Wrote(p, b, data));
    assert g'.events[..g'.durable] == g.events[..g.durable];
    assert forall i :: 0 <= i < |g.events| ==> g'.events[i] == g.events[i];
    assert forall e :: e in g.events ==> e in g'.events;
  }

  lemma EventsEnd(g: History, active: set<nat>, p: nat)
    requires EventsOk(g, active) && p in active
    ensures EventsOk(g.Add(Ended(p)), active - {p})
  {
    var g' := g.Add(Ended(p));
    assert g'.events[..g'.durable] == g.events[..g.durable];
    assert forall i :: 0 <= i < |g.events| ==> g'.events[i] == g.events[i];
    assert g'.events[|g.events|] == Ended(p);
    assert forall e :: e in g.events ==> e in g'.events;
  }

  /** With nobody in progress the whole history may become durable. */
  lemma EventsAllDurable(g: History)
    requires EventsOk(g, {}) && ReplayOk(g)
    ensures EventsOk(g.AllDurable(), {}) && ReplayOk(g.AllDurable())
  {
    assert g.events[..|g.events|] == g.events;
  }

  lemma EventsCut(g: History, active: set<nat>)
    requires EventsOk(g, active) && ReplayOk(g)
    ensures EventsOk(g.Cut(), {}) && ReplayOk(g.Cut())
  {
    var h := g.events[..g.durable];
    assert h[..|h|] == h;
    assert forall i :: 0 <= i < |h| ==> h[i] == g.events[i];
  }

  // --- Steps that only touch the cache ---------------------------------------------------------

  /** Buffers may appear, change hands or (unpinned) disappear, but no cached data changes. */
  ghost predicate SameData(s: State, s': State)
    requires Shape(s)
  {
    && s' == s.(cache := s'.cache)
    && (forall b :: b in s'.cache ==> 0 <= b < |s.disk|)
    && (forall b: nat :: b in s'.cache && b < |s.disk| ==> s'.cache[b].data == s.Contents(b))
    && (forall b :: b in s'.cache && s'.cache[b].dirty ==>
          b in s.cache && s.cache[b].dirty && s'.cache[b].owner == s.cache[b].owner)
    && (forall b: nat :: b in s.cache && b !in s'.cache ==> !s.cache[b].pinned && !s.cache[b].dirty)
    && (forall b :: b in s.cache && b in s'.cache ==>
          s'.cache[b].pinned == s.cache[b].pinned && s'.cache[b].dirty == s.cache[b].dirty)
  }

  /** Unpinned clean buffers hold what the disk holds, so recycling one loses nothing. */
  lemma CleanMatchesDisk(s: State, b: nat)
    requires Shape(s) && CacheOk(s) && PhaseOk(s) && s.Up()
    requires b in s.cache && !s.cache[b].pinned && !s.cache[b].dirty
    ensures s.cache[b].data == s.disk[b]
  {
    if s.Home(b) && b in s.lh {
      var i :| 0 <= i < |s.lh| && s.lh[i] == b;
      if s.phase.Installing? && i >= s.phase.k {
        assert false;
      }
    }
  }

  lemma SameDataKeeps(s: State, s': State)
    requires Shape(s) && CacheOk(s) && PhaseOk(s) && s.Up()
    requires SameData(s, s')
    ensures Shape(s') && CacheOk(s')
  {
    forall b: nat | s.Home(b)
      ensures s'.Contents(b) == s.g.cur[b]
    {
      if b in s.cache && b !in s'.cache {
        CleanMatchesDisk(s, b);
      }
    }
  }

  lemma SameDataUncommitted(s: State, s': State)
    requires Shape(s) && CacheOk(s) && Uncommitted(s)
    requires SameData(s, s')
    ensures Uncommitted(s')
  {
  }

  lemma SameDataInstalling(s: State, s': State)
    requires Shape(s) && s.phase.Installing? && InstallingOk(s, s.phase.k)
    requires SameData(s, s') && Shape(s')
    ensures InstallingOk(s', s.phase.k)
  {
  }

  lemma SameDataPhase(s: State, s': State)
    requires Shape(s) && CacheOk(s) && PhaseOk(s) && s.Up()
    requires SameData(s, s') && Shape(s')
    ensures PhaseOk(s')
  {
    match s.phase {
      case Idle => SameDataUncommitted(s, s');
      case Logging(k) => SameDataUncommitted(s, s');
      case Installing(k) => SameDataInstalling(s, s');
      case Finishing => SameDataUncommitted(s, s');
      case _ =>
    }
  }

  lemma ReadSameData(s: State, p: nat, b: nat)
    requires Shape(s) && b < |s.disk|
    requires s.Free(b)
    requires b in s.cache && s.cache[b].dirty ==> s.cache[b].owner.By?
    ensures SameData(s, s.(cache := s.cache[b := s.Buffer(b).(owner := By(p))]))
  {
  }

  lemma ReleaseSameData(s: State, p: nat, b: nat)
    requires Shape(s) && b in s.cache && !s.cache[b].dirty
    ensures SameData(s, s.(cache := s.cache[b := s.cache[b].(owner := Nobody)]))
  {
  }

  lemma RecycleSameData(s: State, b: nat)
    requires Shape(s) && b in s.cache && !s.cache[b].pinned && !s.cache[b].dirty
    ensures SameData(s, s.(cache := s.cache - {b}))
  {
  }

  lemma CacheSteps(s: State, a: Action)
    requires Shape(s) && CacheOk(s) && PhaseOk(s) && s.g.durable <= |s.g.events| && Enabled(s, a)
    requires s.Up() && (a.Read? || a.Release? || a.Recycle?)
    ensures Shape(Do(s, a)) && CacheOk(Do(s, a)) && PhaseOk(Do(s, a))
  {
    hide SameData, PhaseOk;
    match a {
      case Read(p, b) => ReadSameData(s, p, b);
      case Release(p, b) => ReleaseSameData(s, p, b);
      case Recycle(b) => RecycleSameData(s, b);
    }
    hide CacheOk, Shape;
    SameDataKeeps(s, Do(s, a));
    SameDataPhase(s, Do(s, a));
  }

  lemma RecycleReplaying(s: State, b: nat)
    requires Shape(s) && CacheOk(s) && PhaseOk(s) && !s.Up() && b in s.cache
    ensures var s' := s.(cache := s.cache - {b}); Shape(s') && CacheOk(s') && PhaseOk(s')
  {
  }

  lemma StepCache(s: State, a: Action)
    requires Inv(s) && Enabled(s, a) && (a.Read? || a.Release? || a.Recycle?)
    ensures Inv(Do(s, a))
  {
    hide EventsOk, Replay;
    if s.Up() {
      CacheSteps(s, a);
    } else {
      RecycleReplaying(s, a.b);
    }
  }

  // --- Operations ------------------------------------------------------------------------------

  lemma BeginShape(s: State, p: nat)
    requires Shape(s) && p !in s.left
    ensures Shape(BeginStep(s, p)) && BeginStep(s, p).left.Keys == s.left.Keys + {p}
  {
    var s' := BeginStep(s, p);
    assert s'.left.Keys == s.left.Keys + {p};
    assert |s'.left| == |s'.left.Keys| == |s.left.Keys| + 1;
  }

  lemma BeginPhase(s: State, p: nat)
    requires Shape(s) && CacheOk(s) && PhaseOk(s) && s.phase.Idle? && Shape(BeginStep(s, p))
    ensures var s' := BeginStep(s, p); CacheOk(s') && PhaseOk(s')
  {
    var s' := BeginStep(s, p);
    assert p in s'.left;
    assert Uncommitted(s');
  }

  lemma StepBegin(s: State, p: nat)
    requires Inv(s) && Enabled(s, Begin(p))
    ensures Inv(Do(s, Begin(p)))
  {
    ReplayAdd(s.g.(started := s.g.started + {p}), Began(p));
    EventsBegin(s.g, s.left.Keys, p);
    BeginShape(s, p);
    BeginPhase(s, p);
  }

  lemma ModifyPhase(s: State, p: nat, b: nat, data: Block)
    requires Shape(s) && CacheOk(s) && PhaseOk(s) && Enabled(s, Modify(p, b, data))
    ensures var s' := ModifyStep(s, p, b, data); Shape(s') && CacheOk(s') && PhaseOk(s')
  {
    var s' := ModifyStep(s, p, b, data);
    assert s.phase.Idle?;
    assert Uncommitted(s');
    assert p in s'.left;
  }

  lemma StepModify(s: State, p: nat, b: nat, data: Block)
    requires Inv(s) && Enabled(s, Modify(p, b, data))
    ensures Inv(Do(s, Modify(p, b, data)))
  {
    ReplayAdd(s.g, Wrote(p, b, data));
    EventsWrote(s.g, s.left.Keys, p, b, data);
    ModifyPhase(s, p, b, data);
  }

  lemma LogWriteCache(s: State, p: nat, b: nat)
    requires Shape(s) && CacheOk(s) && Enabled(s, LogWrite(p, b))
    ensures var s' := LogWriteStep(s, p, b); Shape(s') && CacheOk(s')
    ensures LogWriteStep(s, p, b).left.Keys == s.left.Keys
  {
    hide IsHome;
    var s' := LogWriteStep(s, p, b);
    assert s'.left.Keys == s.left.Keys;
    assert |s'.left| == |s'.left.Keys| == |s.left|;
    assert forall x: nat :: x < |s.disk| ==> s'.Contents(x) == s.Contents(x);
  }

  lemma LogWritePhase(s: State, p: nat, b: nat)
    requires Shape(s) && PhaseOk(s) && Enabled(s, LogWrite(p, b))
    requires Shape(LogWriteStep(s, p, b))
    ensures PhaseOk(LogWriteStep(s, p, b))
  {
    var s' := LogWriteStep(s, p, b);
    assert s.phase.Idle?;
    assert p in s'.left;
    assert forall x :: x in s'.lh <==> x in s.lh || (s'.lh != s.lh && x == b);
    assert Uncommitted(s');
  }

  lemma StepLogWrite(s: State, p: nat, b: nat)
    requires Inv(s) && Enabled(s, LogWrite(p, b))
    ensures Inv(Do(s, LogWrite(p, b)))
  {
    LogWriteCache(s, p, b);
    LogWritePhase(s, p, b);
  }

  lemma EndPhase(s: State, p: nat)
    requires Shape(s) && CacheOk(s) && PhaseOk(s) && Enabled(s, End(p))
    ensures var s' := EndStep(s, p); Shape(s') && CacheOk(s') && PhaseOk(s')
    ensures EndStep(s, p).left.Keys == s.left.Keys - {p}
  {
    hide Replay, IsHome;
    var s' := EndStep(s, p);
    assert s.phase.Idle?;
    assert s'.left.Keys == s.left.Keys - {p};
    assert |s'.left| == |s'.left.Keys| == |s.left.Keys| - 1;
    assert Uncommitted(s');
    if s'.outstanding == 0 {
      assert s'.left.Keys == {};
      assert s'.left == map[];
    }
  }

  lemma StepEnd(s: State, p: nat)
    requires Inv(s) && Enabled(s, End(p))
    ensures Inv(Do(s, End(p)))
  {
    ReplayAdd(s.g, Ended(p));
    EventsEnd(s.g, s.left.Keys, p);
    EndPhase(s, p);
  }

  // --- Commit ----------------------------------------------------------------------------------

  /** Writing a block to cache and disk alike keeps them agreeing, whatever happens to `stable`. */
  lemma WriteKeepsCache(s: State, s': State, b: nat, data: Block)
    requires Shape(s) && CacheOk(s) && b < |s.disk|
    requires s.Home(b) && s.Up() ==> data == s.g.cur[b]
    requires s'.l == s.l && s'.left == s.left && s'.outstanding == s.outstanding
    requires s'.Up() ==> s.Up()
    requires s'.disk == s.disk[b := data] && s'.cache.Keys == s.cache.Keys + {b as int}
    requires s'.cache[b].data == data && !s'.cache[b].dirty
    requires forall x :: x in s.cache && x != b ==> s'.cache[x] == s.cache[x]
    requires s'.g.cur == s.g.cur && |s'.g.stable| == |s.disk| && LogFits(s')
    ensures Shape(s') && CacheOk(s')
  {
    hide LogFits;
    forall x | x in s'.cache
      ensures 0 <= x < |s'.disk| && (s'.cache[x].dirty ==> s'.cache[x].owner.By? && s'.cache[x].owner.p in s'.left)
      ensures !s'.Home(x) ==> s'.cache[x].data == s'.disk[x] && !s'.cache[x].dirty
    {
      if x != b {
        assert x in s.cache;
      }
    }
    if s'.Up() {
      forall x: nat | s'.Home(x)
        ensures s'.Contents(x) == s'.g.cur[x]
      {
        if x != b {
          assert s.Contents(x) == s.g.cur[x] && (x in s'.cache <==> x in s.cache);
        }
      }
    }
  }

  lemma LoggingIs(s: State, data: Block)
    requires LogFits(s) && s.phase.Logging? && s.phase.k < |s.lh| && data == s.Contents(s.lh[s.phase.k])
    ensures CommitStep(s) == WriteBlock(s, s.l.start + 1 + s.phase.k, data).(phase := Logging(s.phase.k + 1))
  {
    hide SetHead;
  }

  lemma LoggingBlockCache(s: State)
    requires Shape(s) && CacheOk(s) && s.phase.Logging? && s.phase.k < |s.lh|
    ensures Shape(CommitStep(s)) && CacheOk(CommitStep(s))
    ensures CommitStep(s).disk == s.disk[s.l.start + 1 + s.phase.k := s.g.cur[s.lh[s.phase.k]]]
  {
    hide CommitStep;
    var to, b := s.l.start + 1 + s.phase.k, s.lh[s.phase.k];
    assert s.Contents(b) == s.g.cur[b];
    hide CacheOk;
    LoggingIs(s, s.g.cur[b]);
    assert !s.Home(to);
    LogRegionWritten(s, CommitStep(s), to, s.g.cur[b]);
  }

  /** Copying a pinned block into the log region changes no home block. */
  lemma LoggingBlock(s: State)
    requires Shape(s) && PhaseOk(s) && s.phase.Logging? && s.phase.k < |s.lh|
    requires Shape(CommitStep(s))
    requires CommitStep(s).disk == s.disk[s.l.start + 1 + s.phase.k := s.g.cur[s.lh[s.phase.k]]]
    ensures PhaseOk(CommitStep(s))
  {
    hide SetHead;
    var s' := CommitStep(s);
    assert Uncommitted(s');
    assert LogHolds(s', s.phase.k + 1);
  }

  lemma CommitPointIs(s: State, data: Block)
    requires LogFits(s) && s.phase == Logging(|s.lh|) && s.lh != [] && data == SetHead(s.Contents(s.l.start), s.lh)
    ensures CommitStep(s) == WriteBlock(s, s.l.start, data).(phase := Installing(0), g := s.g.AllDurable())
  {
    hide SetHead;
  }

  /** Writing a block of the log region. */
  lemma LogRegionWritten(s: State, s': State, b: nat, data: Block)
    requires Shape(s) && CacheOk(s) && b < |s.disk| && !s.Home(b) && s'.g.cur == s.g.cur && |s'.g.stable| == |s.disk|
    requires s'.l == s.l && s'.left == s.left && s'.outstanding == s.outstanding && s'.lh == s.lh
    requires (s'.Up() ==> s.Up())
    requires s'.disk == s.disk[b := data] && s'.cache == s.cache[b := s.Buffer(b).(data := data)]
    ensures Shape(s') && CacheOk(s')
  {
    assert !s.Buffer(b).dirty;
    assert LogFits(s');
    hide CacheOk, Shape;
    WriteKeepsCache(s, s', b, data);
  }

  lemma CommitPointCache(s: State)
    requires Shape(s) && CacheOk(s) && s.phase == Logging(|s.lh|) && s.lh != []
    ensures Shape(CommitStep(s)) && CacheOk(CommitStep(s))
  {
    hide CommitStep, SetHead, CacheOk;
    assert !s.Home(s.l.start);
    var data := SetHead(s.Contents(s.l.start), s.lh);
    CommitPointIs(s, data);
    LogRegionWritten(s, CommitStep(s), s.l.start, data);
  }

  /** With every block logged and nobody in progress, all of `cur` is on disk or in the log. */
  lemma CommitPoint(s: State, s': State)
    requires Shape(s) && Shape(s') && s.left == map[] && Distinct(s.lh)
    requires Uncommitted(s) && LogHolds(s, |s.lh|)
    requires forall b: nat :: s.Home(b) ==> s.Contents(b) == s.g.cur[b]
    requires forall b :: b in s.cache ==> !s.cache[b].dirty
    requires s' == WriteHead(s).(phase := Installing(0), g := s.g.AllDurable())
    ensures InstallingOk(s', 0)
  {
    hide SetHead, LogImage, HomeImage, IsHome, Distinct;
    UnloggedMatchDisk(s);
    StillPinned(s, s');
    var was := s.Contents(s.l.start);
    assert s'.disk == s.disk[s.l.start := SetHead(was, s.lh)];
    hide Uncommitted, LoggedPinned, WriteHead;
    HeaderCommits(s.disk, s'.disk, s.l, s.lh, s.g.cur, was);
  }

  lemma StillPinned(s: State, s': State)
    requires LogFits(s) && LoggedPinned(s, 0) && s' == WriteHead(s).(phase := Installing(0), g := s.g.AllDurable())
    ensures LoggedPinned(s', 0)
  {
    hide SetHead;
  }

  lemma UnloggedMatchDisk(s: State)
    requires Shape(s) && Uncommitted(s)
    requires forall b: nat :: s.Home(b) ==> s.Contents(b) == s.g.cur[b]
    requires forall b :: b in s.cache ==> !s.cache[b].dirty
    ensures forall b: nat :: s.Home(b) && b !in s.lh ==> s.disk[b] == s.g.cur[b]
  {
  }

  lemma CommitNothing(s: State)
    requires Shape(s) && CacheOk(s) && PhaseOk(s) && s.phase == Logging(0) && s.lh == []
    ensures var s' := CommitStep(s); Shape(s') && CacheOk(s') && PhaseOk(s')
  {
    var s' := CommitStep(s);
    assert forall b: nat :: s.Home(b) ==> s.Contents(b) == s.g.cur[b];
    assert Uncommitted(s');
  }

  lemma InstallOneCache(s: State)
    requires Shape(s) && CacheOk(s) && PhaseOk(s) && s.phase.Installing? && s.phase.k < |s.lh|
    ensures Shape(CommitStep(s)) && CacheOk(CommitStep(s))
    ensures CommitStep(s).disk == s.disk[s.lh[s.phase.k] := s.g.cur[s.lh[s.phase.k]]]
    ensures LoggedPinned(CommitStep(s), s.phase.k + 1)
  {
    var b, s' := s.lh[s.phase.k], CommitStep(s);
    assert s.Contents(s.l.start + 1 + s.phase.k) == s.g.cur[b];
    assert b in s.cache;
    InstallIs(s, s.g.cur[b]);
    assert LoggedPinned(s, s.phase.k) && Distinct(s.lh);
    hide CommitStep, PhaseOk;
    StillPinnedAfter(s, s', s.phase.k);
    hide LoggedPinned;
    InstalledCache(s, s', b);
  }

  /** Unpinning the installed block leaves those after it pinned. */
  lemma StillPinnedAfter(s: State, s': State, k: nat)
    requires LoggedPinned(s, k) && Distinct(s.lh) && k < |s.lh| && s'.lh == s.lh
    requires forall x :: x in s.cache && x != s.lh[k] ==> x in s'.cache && s'.cache[x] == s.cache[x]
    ensures LoggedPinned(s', k + 1)
  {
  }

  lemma InstallIs(s: State, data: Block)
    requires LogFits(s) && s.phase.Installing? && s.phase.k < |s.lh| && data == s.Contents(s.l.start + 1 + s.phase.k)
    ensures var b, s' := s.lh[s.phase.k], CommitStep(s);
            s' == s.(disk := s.disk[b := data], phase := Installing(s.phase.k + 1),
                     cache := s.cache[b := s.Buffer(b).(data := data, pinned := false)])
  {
    var b := s.lh[s.phase.k];
    assert s.cache[b := s.Buffer(b).(data := data)][b := s.Buffer(b).(data := data, pinned := false)]
        == s.cache[b := s.Buffer(b).(data := data, pinned := false)];
  }

  lemma InstalledCache(s: State, s': State, b: nat)
    requires Shape(s) && CacheOk(s) && b < |s.disk| && b in s.cache && s.left == map[]
    requires s' == s.(disk := s.disk[b := s.g.cur[b]], phase := s'.phase,
                      cache := s.cache[b := s.Buffer(b).(data := s.g.cur[b], pinned := false)])
    requires s'.Up() ==> s.Up()
    ensures Shape(s') && CacheOk(s')
  {
    assert !s.cache[b].dirty;
    assert LogFits(s');
    hide CacheOk, Shape;
    WriteKeepsCache(s, s', b, s.g.cur[b]);
  }

  lemma InstallOne(s: State, s': State)
    requires Shape(s) && Shape(s') && s.phase.Installing? && s.phase.k < |s.lh|
    requires InstallingOk(s, s.phase.k)
    requires s'.disk == s.disk[s.lh[s.phase.k] := s.g.cur[s.lh[s.phase.k]]]
    requires s'.lh == s.lh && s'.g == s.g && s'.l == s.l && s'.left == s.left
    requires LoggedPinned(s', s.phase.k + 1)
    ensures InstallingOk(s', s.phase.k + 1)
  {
    LogImageKept(s.disk, s'.disk, s.l, s.lh, s.g.cur, s.lh[s.phase.k]);
    HomeImageGrows(s.disk, s'.disk, s.l, s.lh, s.phase.k, s.g.cur);
  }

  lemma ClearAfterInstall(s: State)
    requires Shape(s) && CacheOk(s) && PhaseOk(s) && s.phase == Installing(|s.lh|)
    ensures var s' := CommitStep(s); Shape(s') && CacheOk(s') && PhaseOk(s')
  {
    hide LogImage;
    var s' := CommitStep(s);
    assert s'.disk == s.disk[s.l.start := SetHead(s.Contents(s.l.start), [])];
    assert Uncommitted(s');
  }

  lemma LoggingDone(s: State)
    requires Shape(s) && CacheOk(s) && PhaseOk(s) && s.phase == Logging(|s.lh|)
    ensures var s' := CommitStep(s); Shape(s') && CacheOk(s') && PhaseOk(s')
  {
    if s.lh == [] {
      CommitNothing(s);
    } else {
      CommitPointCache(s);
      CommitPoint(s, CommitStep(s));
    }
  }

  lemma CommitPhase(s: State)
    requires Shape(s) && CacheOk(s) && PhaseOk(s) && s.Committing()
    ensures var s' := CommitStep(s); Shape(s') && CacheOk(s') && PhaseOk(s')
  {
    if s.phase.Logging? && s.phase.k < |s.lh| {
      LoggingBlockCache(s);
      LoggingBlock(s);
    } else if s.phase.Logging? {
      LoggingDone(s);
    } else if s.phase.Installing? && s.phase.k < |s.lh| {
      InstallOneCache(s);
      InstallOne(s, CommitStep(s));
    } else if s.phase.Installing? {
      ClearAfterInstall(s);
    }
  }

  lemma StepCommit(s: State)
    requires Inv(s) && Enabled(s, Commit)
    ensures Inv(Do(s, Commit))
  {
    CommitPhase(s);
    if s.phase.Logging? {
      EventsAllDurable(s.g);
    }
  }

  // --- Crash and recovery ----------------------------------------------------------------------

  /** The crash theorem for one state: whatever the phase, recovery would restore `stable`. */
  lemma ViewIsStable(s: State, b: nat)
    requires Shape(s) && PhaseOk(s) && s.Home(b)
    ensures HeadOk(s.disk, s.l) && View(s.disk, s.l, b) == s.g.stable[b]
  {
    if s.phase.Installing? {
      LogImageView(s.disk, s.l, s.lh, s.phase.k, s.g.cur, b);
    } else if s.Up() {
      assert s.disk[s.l.start][1..1] == [];
    }
  }

  lemma HeadAlwaysOk(s: State)
    requires Shape(s) && PhaseOk(s)
    ensures HeadOk(s.disk, s.l)
  {
    if s.Up() && !s.phase.Installing? {
      assert s.disk[s.l.start][1..1] == [];
    }
  }

  lemma CrashPhase(s: State)
    requires Shape(s) && PhaseOk(s) && s.g.durable <= |s.g.events|
    ensures var s' := Do(s, Crash); Shape(s') && CacheOk(s') && PhaseOk(s')
  {
    HeadAlwaysOk(s);
    assert Restores(s.disk, s.l, s.g.stable) by {
      forall b: nat | s.Home(b)
        ensures View(s.disk, s.l, b) == s.g.stable[b]
      {
        ViewIsStable(s, b);
      }
    }
  }

  lemma StepCrash(s: State)
    requires Inv(s)
    ensures Inv(Do(s, Crash))
  {
    EventsCut(s.g, s.left.Keys);
    CrashPhase(s);
    hide Shape, CacheOk, PhaseOk, EventsOk, ReplayOk;
  }

  lemma ReplayOneCache(s: State, s': State)
    requires Shape(s) && CacheOk(s) && RecoverableOk(s) && s.phase.Replaying? && s.phase.k < |s.lh|
    requires s' == InstallBlock(s, s.phase.k, true).(phase := Replaying(s.phase.k + 1))
    ensures Shape(s') && CacheOk(s')
    ensures s'.disk == s.disk[s.lh[s.phase.k] := s.disk[s.l.start + 1 + s.phase.k]]
    ensures s' == s.(disk := s'.disk, cache := s'.cache, phase := Replaying(s.phase.k + 1))
    ensures forall b: nat :: b in s'.cache && b < |s.disk| ==> s'.cache[b].data == s'.disk[b]
  {
    var b, from := s.lh[s.phase.k], s.l.start + 1 + s.phase.k;
    assert IsHome(s.l, |s.disk|, b) && s.Contents(from) == s.disk[from];
    assert b in s.cache ==> !s.cache[b].dirty;
    hide Restores, IsHome;
    ReplayedCache(s, s', b, s.disk[from]);
  }

  lemma ReplayedCache(s: State, s': State, b: nat, data: Block)
    requires Shape(s) && CacheOk(s) && b < |s.disk| && !s.Up() && (b in s.cache ==> !s.cache[b].dirty)
    requires forall x: nat :: x in s.cache && x < |s.disk| ==> s.cache[x].data == s.disk[x]
    requires s' == s.(disk := s.disk[b := data], cache := s.cache[b := s.Buffer(b).(data := data)], phase := s'.phase)
    requires !s'.Up()
    ensures Shape(s') && CacheOk(s')
    ensures forall x: nat :: x in s'.cache && x < |s.disk| ==> s'.cache[x].data == s'.disk[x]
  {
    assert LogFits(s') && !s.Buffer(b).dirty;
    hide Shape, CacheOk, LogFits;
    WriteKeepsCache(s, s', b, data);
    ReplayedData(s, s', b, data);
  }

  lemma ReplayedData(s: State, s': State, b: nat, data: Block)
    requires b < |s.disk| && forall x: nat :: x in s.cache && x < |s.disk| ==> s.cache[x].data == s.disk[x]
    requires s'.disk == s.disk[b := data] && s'.cache == s.cache[b := s.Buffer(b).(data := data)]
    ensures forall x: nat :: x in s'.cache && x < |s.disk| ==> s'.cache[x].data == s'.disk[x]
  {
  }

  lemma ReplayOneDisk(s: State, s': State, k: nat)
    requires LayoutOk(s.l, |s.disk|) && Restores(s.disk, s.l, s.g.stable)
    requires s.lh == Head(s.disk, s.l) && k < |s.lh| && Installed(s.disk, s.l, s.lh, k)
    requires s'.disk == s.disk[s.lh[k] := s.disk[s.l.start + 1 + k]] && s'.l == s.l && s'.lh == s.lh
    ensures Restores(s'.disk, s'.l, s.g.stable) && s'.lh == Head(s'.disk, s'.l)
    ensures Installed(s'.disk, s'.l, s'.lh, k + 1)
  {
    InstallKeepsView(s.disk, s'.disk, s.l, k, s.g.stable);
    InstallExtendsPrefix(s.disk, s'.disk, s.l, s.lh, k);
  }

  lemma ReplayOne(s: State, s': State)
    requires Shape(s) && CacheOk(s) && PhaseOk(s) && s.phase.Replaying? && s.phase.k < |s.lh|
    requires s' == InstallBlock(s, s.phase.k, true).(phase := Replaying(s.phase.k + 1))
    ensures Shape(s') && CacheOk(s') && PhaseOk(s')
  {
    hide Lookup, Restores, Installed, Head, HeadOk, InstallBlock;
    ReplayOneCache(s, s');
    ReplayOneDisk(s, s', s.phase.k);
  }

  lemma ReplayDone(s: State)
    requires Shape(s) && CacheOk(s) && PhaseOk(s) && s.phase == Replaying(|s.lh|)
    ensures var s' := RecoverStep(s); Shape(s') && CacheOk(s') && PhaseOk(s')
  {
    hide Lookup;
    var s' := RecoverStep(s);
    assert s.lh[..|s.lh|] == s.lh;
    assert s'.disk == s.disk[s.l.start := SetHead(s.disk[s.l.start], [])];
    assert Uncommitted(s');
  }

  lemma ReplayStart(s: State)
    requires Shape(s) && CacheOk(s) && PhaseOk(s) && s.phase.Booting?
    ensures var s' := RecoverStep(s); Shape(s') && CacheOk(s') && PhaseOk(s')
  {
    var s' := RecoverStep(s);
    assert s'.lh[..0] == [];
  }

  lemma StepRecover(s: State)
    requires Inv(s) && Enabled(s, Recover)
    ensures Inv(Do(s, Recover))
  {
    if s.phase.Booting? {
      ReplayStart(s);
    } else if s.phase.k < |s.lh| {
      ReplayOne(s, RecoverStep(s));
    } else {
      ReplayDone(s);
    }
  }

  // --- Whole runs ------------------------------------------------------------------------------

  lemma InitInv(s: State)
    requires Init(s)
    ensures Inv(s)
  {
    assert s.g.events[..0] == [];
  }

  lemma StepInv(s: State, a: Action)
    requires Inv(s) && Enabled(s, a)
    ensures Inv(Do(s, a))
  {
    hide Inv, Do, Enabled;
    match a {
      case Begin(p) => StepBegin(s, p);
      case Modify(p, b, data) => StepModify(s, p, b, data);
      case LogWrite(p, b) => StepLogWrite(s, p, b);
      case End(p) => StepEnd(s, p);
      case Commit => StepCommit(s);
      case Crash => StepCrash(s);
      case Recover => StepRecover(s);
      case _ => StepCache(s, a);
    }
  }

  lemma {:induction false} RunInv(run: seq<State>, acts: seq<Action>, i: nat)
    requires IsRun(run, acts) && i < |run|
    ensures Inv(run[i])
  {
    hide Inv, Init, Do, Enabled, LogFits, HeadOk;
    if i == 0 {
      InitInv(run[0]);
    } else {
      RunInv(run, acts, i - 1);
      assert Step(run[i - 1], acts[i - 1], run[i]);
      StepInv(run[i - 1], acts[i - 1]);
    }
  }

  /** In a reachable state nothing but the enabling condition stands in the way of a step. */
  lemma CanStep(s: State, a: Action)
    requires Inv(s) && Enabled(s, a)
    ensures Step(s, a, Do(s, a))
  {
    HeadAlwaysOk(s);
  }

  lemma ExtendRun(run: seq<State>, acts: seq<Action>, a: Action, s': State)
    requires IsRun(run, acts) && Step(run[|acts|], a, s')
    ensures IsRun(run + [s'], acts + [a])
  {
  }
}
