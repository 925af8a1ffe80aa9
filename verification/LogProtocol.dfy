/** The logging protocol as a state machine: any number of processes, a buffer cache that may
    recycle any unreferenced block, a committer that writes one block per step, crashes between
    any two steps, and recovery that may itself be cut short. */
module LogProtocol {
  import opened LogDisk

  /** Who holds a buffer's sleep lock. */
  datatype Owner = Nobody | By(p: nat)

  /** A cached block. `pinned` is the reference `bpin` took; `dirty` marks data changed since the
      last `log_write` and exists only to state what callers promise. */
  datatype Entry = Entry(data: Block, pinned: bool, owner: Owner, dirty: bool)

  /** `Booting` and `Replaying(k)` are `recover_from_log`; `Logging(k)`, `Installing(k)` and
      `Finishing` are the stages of `commit`, with `k` blocks already done. */
  datatype Phase = Idle | Logging(k: nat) | Installing(k: nat) | Finishing | Booting | Replaying(k: nat)

  datatype Event = Began(p: nat) | Wrote(p: nat, b: nat, data: Block) | Ended(p: nat)

  /** What has been asked of the store so far, kept to state theorems. */
  datatype History = History(
    started: set<nat>,
    base: seq<Block>,       // recovered contents at first boot
    events: seq<Event>,
    durable: nat,           // how many of the events the disk has
    cur: seq<Block>,        // the last data written to every block
    stable: seq<Block>)     // the data recovery would restore
  {
    ghost function Add(e: Event): History { this.(events := events + [e], cur := Apply(cur, e)) }
    function AllDurable(): History { this.(durable := |events|, stable := cur) }
    function Cut(): History
      requires durable <= |events|
    {
      this.(events := events[..durable], cur := stable)
    }
  }

  /** The first block of fields is the kernel's; the second is bookkeeping for the theorems. */
  datatype State = State(
    l: Layout,
    disk: seq<Block>,
    cache: map<int, Entry>,
    lh: seq<int>,
    outstanding: int,
    phase: Phase,
    panicked: bool,

    quota: nat,             // distinct blocks one operation may add to the log
    left: map<nat, nat>,    // what remains of the quota; its keys are the operations in progress
    g: History)
  {
    predicate Committing() { phase.Logging? || phase.Installing? || phase.Finishing? }
    predicate Up() { !phase.Booting? && !phase.Replaying? }
    ghost predicate Home(b: int) { IsHome(l, |disk|, b) }

    /** What `bread` would return for `b`. */
    function Contents(b: nat): Block
      requires b < |disk|
    {
      if b in cache then cache[b].data else disk[b]
    }

    /** The buffer `bread` returns, loaded from disk if it is not cached. */
    function Buffer(b: nat): Entry
      requires b < |disk|
    {
      if b in cache then cache[b] else Entry(disk[b], false, Nobody, false)
    }

    predicate Free(b: nat) { b in cache ==> cache[b].owner == Nobody }
  }

  datatype Action =
    | Begin(p: nat)
    | Read(p: nat, b: nat)
    | Modify(p: nat, b: nat, data: Block)
    | LogWrite(p: nat, b: nat)
    | Release(p: nat, b: nat)
    | Recycle(b: nat)
    | End(p: nat)
    | Commit
    | Crash
    | Recover

  ghost function Apply(c: seq<Block>, e: Event): (r: seq<Block>)
    ensures |r| == |c|
  {
    if e.Wrote? && e.b < |c| then c[e.b := e.data] else c
  }

  /** The simple store: every write of a history applied in order. */
  ghost function Replay(base: seq<Block>, h: seq<Event>): (r: seq<Block>)
    ensures |r| == |base|
  {
    if h == [] then base else Apply(Replay(base, h[..|h| - 1]), h[|h| - 1])
  }

  /** No operation straddles the end of `h`: whoever has an event in `h` has ended in `h`. */
  ghost predicate Closed(h: seq<Event>) {
    forall i :: 0 <= i < |h| ==> Ended(h[i].p) in h
  }

  /** What the kernel's own control flow and the callers' discipline allow. */
  ghost predicate Enabled(s: State, a: Action)
    requires LayoutOk(s.l, |s.disk|)
  {
    if a.Crash? then true else
    && !s.panicked
    && match a {
         case Begin(p) =>
           s.Up() && !s.Committing() && p !in s.g.started
           && |s.lh| + (s.outstanding + 1) * MAXOPBLOCKS <= LOGSIZE
         case Read(p, b) => s.Up() && b < |s.disk| && s.Free(b)
         case Modify(p, b, _) =>
           p in s.left && b in s.cache && s.cache[b].owner == By(p) && s.Home(b)
         case LogWrite(p, b) =>
           p in s.left && b in s.cache && s.cache[b].owner == By(p) && s.Home(b)
           && (b !in s.lh ==> 0 < s.left[p])
         case Release(p, b) => s.Up() && b in s.cache && s.cache[b].owner == By(p) && !s.cache[b].dirty
         case Recycle(b) => b in s.cache && s.cache[b].owner == Nobody && !s.cache[b].pinned
         case End(p) =>
           p in s.left && forall b :: b in s.cache && s.cache[b].owner == By(p) ==> !s.cache[b].dirty
         case Commit => s.Committing() && CommitTargetsFree(s)
         case Recover => !s.Up()
       }
  }

  /** `bread` blocks until the buffers a commit step needs are unlocked. */
  ghost predicate CommitTargetsFree(s: State)
    requires LayoutOk(s.l, |s.disk|)
  {
    && s.Free(s.l.start)
    && match s.phase {
         case Logging(k) => k < |s.lh| ==> s.lh[k] >= 0 && s.Free(s.lh[k]) && s.Free(s.l.start + 1 + k)
         case Installing(k) => k < |s.lh| ==> s.lh[k] >= 0 && s.Free(s.lh[k]) && s.Free(s.l.start + 1 + k)
         case _ => true
       }
  }

  /** `bwrite`: the buffer's new contents reach the disk. */
  function WriteBlock(s: State, b: nat, data: Block): State
    requires b < |s.disk|
  {
    s.(disk := s.disk[b := data], cache := s.cache[b := s.Buffer(b).(data := data)])
  }

  function WriteHead(s: State): State
    requires LayoutOk(s.l, |s.disk|) && |s.lh| < BLOCK_WORDS
  {
    WriteBlock(s, s.l.start, SetHead(s.Contents(s.l.start), s.lh))
  }

  /** One iteration of `install_trans`. */
  function InstallBlock(s: State, k: nat, recovering: bool): State
    requires k < |s.lh| && 0 <= s.lh[k] < |s.disk| && s.l.start + 1 + k < |s.disk|
  {
    var s1 := WriteBlock(s, s.lh[k], s.Contents(s.l.start + 1 + k));
    var e := s1.cache[s.lh[k]];
    if recovering then s1 else s1.(cache := s1.cache[s.lh[k] := e.(pinned := false)])
  }

  /** Header lists that fit the header block and the region, and name existing blocks. */
  ghost predicate LogFits(s: State) {
    && LayoutOk(s.l, |s.disk|)
    && |s.lh| <= LOGSIZE && |s.lh| < s.l.size
    && AllHome(s.l, |s.disk|, s.lh)
  }

  ghost function CommitStep(s: State): State
    requires LogFits(s)
  {
    match s.phase {
      case Logging(k) =>
        if k < |s.lh| then
          WriteBlock(s, s.l.start + 1 + k, s.Contents(s.lh[k])).(phase := Logging(k + 1))
        else if s.lh == [] then
          s.(phase := Finishing, g := s.g.AllDurable())
        else
          WriteHead(s).(phase := Installing(0), g := s.g.AllDurable())
      case Installing(k) =>
        if k < |s.lh| then InstallBlock(s, k, false).(phase := Installing(k + 1))
        else WriteHead(s.(lh := [])).(phase := Finishing)
      case _ => s.(phase := Idle)
    }
  }

  ghost function RecoverStep(s: State): State
    requires LogFits(s) && HeadOk(s.disk, s.l)
  {
    match s.phase {
      case Replaying(k) =>
        if k < |s.lh| then InstallBlock(s, k, true).(phase := Replaying(k + 1))
        else WriteHead(s.(lh := [])).(phase := Idle)
      case _ => s.(lh := Head(s.disk, s.l), phase := Replaying(0))
    }
  }

  ghost function BeginStep(s: State, p: nat): State {
    s.(outstanding := s.outstanding + 1, left := s.left[p := s.quota],
       g := s.g.(started := s.g.started + {p}).Add(Began(p)))
  }

  ghost function ModifyStep(s: State, p: nat, b: nat, data: Block): State
    requires b in s.cache
  {
    s.(cache := s.cache[b := s.cache[b].(data := data, dirty := true)], g := s.g.Add(Wrote(p, b, data)))
  }

  ghost function LogWriteStep(s: State, p: nat, b: nat): State
    requires p in s.left && b in s.cache && (b !in s.lh ==> 0 < s.left[p])
  {
    var e := s.cache[b].(dirty := false);
    if |s.lh| >= LOGSIZE || |s.lh| >= s.l.size - 1 || s.outstanding < 1 then s.(panicked := true)
    else if b in s.lh then s.(cache := s.cache[b := e])
    else s.(lh := s.lh + [b], cache := s.cache[b := e.(pinned := true)],
            left := s.left[p := s.left[p] - 1])
  }

  ghost function EndStep(s: State, p: nat): State
    requires p in s.left
  {
    var s1 := s.(outstanding := s.outstanding - 1, left := s.left - {p}, g := s.g.Add(Ended(p)));
    if s.Committing() then s1.(panicked := true)
    else if s1.outstanding == 0 then s1.(phase := Logging(0))
    else s1
  }

  ghost function Do(s: State, a: Action): State
    requires LogFits(s) && (!s.Up() ==> HeadOk(s.disk, s.l))
    requires Enabled(s, a)
    requires s.g.durable <= |s.g.events|
  {
    match a {
      case Begin(p) => BeginStep(s, p)
      case Read(p, b) => s.(cache := s.cache[b := s.Buffer(b).(owner := By(p))])
      case Modify(p, b, data) => ModifyStep(s, p, b, data)
      case LogWrite(p, b) => LogWriteStep(s, p, b)
      case Release(p, b) => s.(cache := s.cache[b := s.cache[b].(owner := Nobody)])
      case Recycle(b) => s.(cache := s.cache - {b})
      case End(p) => EndStep(s, p)
      case Commit => CommitStep(s)
      case Crash =>
        s.(cache := map[], lh := [], outstanding := 0, phase := Booting, panicked := false,
           left := map[], g := s.g.Cut())
      case Recover => RecoverStep(s)
    }
  }

  /** Any disk whose header is well formed, about to be recovered for the first time. */
  ghost predicate Init(s: State) {
    && LayoutOk(s.l, |s.disk|) && HeadOk(s.disk, s.l)
    && s.cache == map[] && s.lh == [] && s.outstanding == 0 && s.phase == Booting && !s.panicked
    && s.left == map[] && s.g.started == {} && s.g.events == [] && s.g.durable == 0
    && s.g.cur == s.g.stable == s.g.base && Restores(s.disk, s.l, s.g.base)
  }

  ghost predicate Step(s: State, a: Action, s': State) {
    && LogFits(s) && (!s.Up() ==> HeadOk(s.disk, s.l)) && s.g.durable <= |s.g.events|
    && Enabled(s, a) && s' == Do(s, a)
  }

  /** `run[i]` is the state before `acts[i]`, starting at first boot. */
  ghost predicate IsRun(run: seq<State>, acts: seq<Action>) {
    && |run| == |acts| + 1
    && Init(run[0])
    && forall i :: 0 <= i < |acts| ==> Step(run[i], acts[i], run[i + 1])
  }

  // --- Invariant -------------------------------------------------------------------------------

  ghost predicate Shape(s: State) {
    && LogFits(s)
    && |s.g.cur| == |s.g.stable| == |s.disk|
    && s.outstanding == |s.left|
    && (forall b :: b in s.cache ==> 0 <= b < |s.disk|)
  }

  /** `cur` and `stable` are the simple store after all events and after the durable ones. */
  ghost predicate ReplayOk(g: History) {
    && g.durable <= |g.events|
    && g.cur == Replay(g.base, g.events)
    && g.stable == Replay(g.base, g.events[..g.durable])
  }

  /** The events belong to operations that are in progress or have ended, nobody acts after ending,
      and no operation straddles the durable part. */
  ghost predicate EventsOk(g: History, active: set<nat>) {
    && active <= g.started
    && (forall i :: 0 <= i < |g.events| ==> g.events[i].p in g.started)
    && (forall i :: 0 <= i < |g.events| ==> g.events[i].p in active || Ended(g.events[i].p) in g.events)
    && (forall i :: 0 <= i < |g.events| && g.events[i].Ended? ==> g.events[i].p !in active)
    && (forall i, j :: 0 <= i < j < |g.events| && g.events[i].Ended? ==> g.events[j].p != g.events[i].p)
    && g.durable <= |g.events| && Closed(g.events[..g.durable])
  }

  ghost predicate CacheOk(s: State) {
    && |s.g.cur| == |s.disk|
    && (forall b: nat :: b in s.cache && b < |s.disk| && !s.Home(b) ==>
          s.cache[b].data == s.disk[b] && !s.cache[b].dirty)
    && (forall b :: b in s.cache && s.cache[b].dirty ==>
          s.cache[b].owner.By? && s.cache[b].owner.p in s.left)
    && (s.Up() ==> forall b: nat :: s.Home(b) ==> s.Contents(b) == s.g.cur[b])
  }

  ghost predicate LoggedPinned(s: State, from: nat) {
    forall i :: from <= i < |s.lh| ==>
      s.lh[i] >= 0 && s.lh[i] in s.cache && s.cache[s.lh[i]].pinned
  }

  /** Log block `j` holds the data last written to the block it stands for. */
  ghost predicate LogHolds(s: State, k: nat)
    requires LogFits(s) && |s.g.cur| == |s.disk| && k <= |s.lh|
  {
    forall j :: 0 <= j < k ==> s.disk[s.l.start + 1 + j] == s.g.cur[s.lh[j]]
  }

  /** Before the commit point: the disk still shows the previous transaction. */
  ghost predicate Uncommitted(s: State)
    requires LayoutOk(s.l, |s.disk|)
  {
    && |s.g.stable| == |s.disk|
    && s.disk[s.l.start][0] == 0
    && (forall b: nat :: s.Home(b) ==> s.disk[b] == s.g.stable[b])
    && LoggedPinned(s, 0)
    && (forall b: nat :: s.Home(b) && b in s.cache && b !in s.lh && !s.cache[b].dirty ==>
          s.cache[b].data == s.disk[b])
  }

  ghost predicate Settled(s: State) {
    && s.left == map[] && s.g.durable == |s.g.events| && s.g.cur == s.g.stable
  }

  /** From the commit point on: header and log blocks describe the transaction, and blocks not yet
      installed are still pinned. */
  ghost predicate InstallingOk(s: State, k: nat)
    requires Shape(s)
  {
    && Distinct(s.lh) && Settled(s) && LoggedPinned(s, k)
    && LogImage(s.disk, s.l, s.lh, s.g.cur)
    && HomeImage(s.disk, s.l, s.lh, k, s.g.cur)
  }

  ghost predicate RecoverableOk(s: State)
    requires Shape(s)
  {
    && Settled(s) && Restores(s.disk, s.l, s.g.stable)
    && (forall b: nat :: b in s.cache && b < |s.disk| ==> s.cache[b].data == s.disk[b])
  }

  ghost predicate PhaseOk(s: State)
    requires Shape(s)
  {
    match s.phase {
      case Idle =>
        && Distinct(s.lh) && Uncommitted(s)
        && (s.left == map[] ==> s.lh == [] && Settled(s))
      case Logging(k) =>
        && Distinct(s.lh) && Uncommitted(s) && s.left == map[]
        && k <= |s.lh| && LogHolds(s, k)
      case Installing(k) => InstallingOk(s, k)
      case Finishing => Settled(s) && s.lh == [] && Uncommitted(s)
      case Booting => s.lh == [] && s.cache == map[] && RecoverableOk(s)
      case Replaying(k) =>
        RecoverableOk(s) && s.lh == Head(s.disk, s.l) && Installed(s.disk, s.l, s.lh, k)
    }
  }

  ghost predicate Inv(s: State) {
    Shape(s) && ReplayOk(s.g) && EventsOk(s.g, s.left.Keys) && CacheOk(s) && PhaseOk(s)
  }
}
