/** Reference counting of open files: descriptors and mapped regions of all processes share one table
    of files, and the inode or pipe end behind a file is given up at its last close. One system call
    at a time. */
module FileTable {

  const NFILE: nat := 100
  const NOFILE: nat := 16
  const VMA_MAX: nat := 16

  /** What a file stands for; the number names the pipe end or the inode. */
  datatype Kind = FdNone | FdPipe(n: nat) | FdInode(n: nat) | FdDevice(n: nat)

  /** A place that can name a file: a descriptor or a mapped region of process `p`. */
  datatype Slot = Fd(p: nat, i: nat) | Vma(p: nat, i: nat)

  type Slots = map<Slot, nat>

  // ---------- counting ----------

  ghost function Naming(slots: Slots, f: nat): set<Slot> { set s | s in slots && slots[s] == f }

  /** How many slots name `f`. */
  ghost function Refs(slots: Slots, f: nat): nat { |Naming(slots, f)| }

  lemma RefsAdd(slots: Slots, s: Slot, f: nat, g: nat)
    requires s !in slots
    ensures Refs(slots[s := f], g) == Refs(slots, g) + if g == f then 1 else 0
  {
    assert Naming(slots[s := f], g) == if g == f then Naming(slots, g) + {s} else Naming(slots, g);
  }

  lemma RefsRemove(slots: Slots, s: Slot, g: nat)
    requires s in slots
    ensures Refs(slots, g) == Refs(slots - {s}, g) + if g == slots[s] then 1 else 0
  {
    RefsAdd(slots - {s}, s, slots[s], g);
    assert (slots - {s})[s := slots[s]] == slots;
  }

  lemma NamedIsCounted(slots: Slots, s: Slot)
    requires s in slots
    ensures Refs(slots, slots[s]) >= 1
  {
    RefsRemove(slots, s, slots[s]);
  }

  /** The count of a file is the number of slots naming it plus the references the running call still
      holds in hand. */
  ghost predicate Counted(ref: seq<nat>, slots: Slots, hand: multiset<nat>) {
    && |ref| == NFILE
    && (forall s :: s in slots ==> slots[s] < NFILE && s.i < if s.Fd? then NOFILE else VMA_MAX)
    && (forall f: nat :: f < NFILE ==> ref[f] == Refs(slots, f) + hand[f])
  }

  /** A slot takes over a reference from the caller's hand. */
  lemma SlotTaken(ref: seq<nat>, slots: Slots, hand: multiset<nat>, s: Slot, f: nat, rest: multiset<nat>)
    requires Counted(ref, slots, hand)
    requires s !in slots && s.i < if s.Fd? then NOFILE else VMA_MAX
    requires f < NFILE && hand == rest + multiset{f}
    ensures Counted(ref, slots[s := f], rest)
  {
    hide Refs;
    forall g: nat | g < NFILE
      ensures ref[g] == Refs(slots[s := f], g) + rest[g]
    {
      RefsAdd(slots, s, f, g);
    }
  }

  lemma SlotDropped(ref: seq<nat>, slots: Slots, hand: multiset<nat>, s: Slot)
    requires Counted(ref, slots, hand)
    requires s in slots
    ensures Counted(ref, slots - {s}, hand + multiset{slots[s]})
  {
    hide Refs;
    var left := hand + multiset{slots[s]};
    forall g: nat | g < NFILE
      ensures ref[g] == Refs(slots - {s}, g) + left[g]
    {
      RefsRemove(slots, s, g);
    }
  }

  lemma CountedUp(ref: seq<nat>, slots: Slots, hand: multiset<nat>, f: nat)
    requires Counted(ref, slots, hand)
    requires f < NFILE
    ensures Counted(ref[f := ref[f] + 1], slots, hand + multiset{f})
  {
    hide Refs;
  }

  lemma CountedDown(ref: seq<nat>, slots: Slots, hand: multiset<nat>, f: nat, rest: multiset<nat>)
    requires Counted(ref, slots, hand)
    requires f < NFILE && hand == rest + multiset{f}
    ensures ref[f] >= 1
    ensures Counted(ref[f := ref[f] - 1], slots, rest)
  {
    hide Refs;
    assert hand[f] == rest[f] + 1;
  }

  // ---------- what a file stands for ----------

  /** Outside the half-built files `raw`, a file has a kind exactly when something refers to it. */
  ghost predicate Typed(ref: seq<nat>, kind: seq<Kind>, raw: set<nat>) {
    && |ref| == |kind| == NFILE
    && (forall f :: f in raw ==> f < NFILE && ref[f] == 1)
    && (forall f: nat :: f < NFILE ==> (kind[f] == FdNone <==> ref[f] == 0 || f in raw))
  }

  /** Every file that was ever completed, in order; the number of each one in use; and the numbers of
      those whose pipe end or inode was given up. */
  datatype Past = Past(built: seq<Kind>, live: map<nat, nat>, gone: seq<nat>)

  /** `puts` lists the pipe ends closed and inodes put so far. */
  ghost predicate PastOk(kind: seq<Kind>, puts: seq<Kind>, past: Past) {
    && |kind| == NFILE
    && LiveOk(kind, past)
    && GoneOk(puts, past)
    && (forall t: nat :: t < |past.built| ==> past.built[t] != FdNone)
    && (forall t: nat :: t < |past.built| ==> t in past.gone || t in past.live.Values)
  }

  /** The files in use are exactly those with a kind, each under its own number. */
  ghost predicate LiveOk(kind: seq<Kind>, past: Past)
    requires |kind| == NFILE
  {
    && (forall f: nat :: f in past.live <==> f < NFILE && kind[f] != FdNone)
    && (forall f :: f in past.live ==>
        past.live[f] < |past.built| && past.built[past.live[f]] == kind[f] && past.live[f] !in past.gone)
    && (forall f, g :: f in past.live && g in past.live && f != g ==> past.live[f] != past.live[g])
  }

  /** Each file was given up at most once, and what was given up is what it stood for. */
  ghost predicate GoneOk(puts: seq<Kind>, past: Past) {
    && |puts| == |past.gone|
    && (forall i :: 0 <= i < |puts| ==> past.gone[i] < |past.built| && puts[i] == past.built[past.gone[i]])
    && (forall i, j :: 0 <= i < j < |puts| ==> past.gone[i] != past.gone[j])
  }

  ghost function Built(past: Past, f: nat, k: Kind): Past {
    Past(past.built + [k], past.live[f := |past.built|], past.gone)
  }

  ghost function GivenUp(past: Past, f: nat): Past
    requires f in past.live
  {
    Past(past.built, past.live - {f}, past.gone + [past.live[f]])
  }

  lemma BuiltOk(kind: seq<Kind>, puts: seq<Kind>, past: Past, f: nat, k: Kind)
    requires PastOk(kind, puts, past)
    requires f < NFILE && kind[f] == FdNone && k != FdNone
    ensures PastOk(kind[f := k], puts, Built(past, f, k))
  {
    var p' := Built(past, f, k);
    forall t: nat | t < |p'.built|
      ensures t in p'.gone || t in p'.live.Values
    {
      if t == |past.built| {
        assert p'.live[f] == t;
      } else if t in past.live.Values {
        var g :| g in past.live && past.live[g] == t;
        assert g in p'.live && p'.live[g] == t;
      }
    }
  }

  lemma GivenUpOk(kind: seq<Kind>, puts: seq<Kind>, past: Past, f: nat)
    requires PastOk(kind, puts, past)
    requires f < NFILE && kind[f] != FdNone
    ensures f in past.live
    ensures PastOk(kind[f := FdNone], puts + [kind[f]], GivenUp(past, f))
  {
    var p' := GivenUp(past, f);
    forall t: nat | t < |p'.built|
      ensures t in p'.gone || t in p'.live.Values
    {
      if t == past.live[f] {
        assert p'.gone[|past.gone|] == t;
      } else if t in past.gone {
        var i :| 0 <= i < |past.gone| && past.gone[i] == t;
        assert p'.gone[i] == t;
      } else {
        var g :| g in past.live && past.live[g] == t;
        assert g in p'.live && p'.live[g] == t;
      }
    }
  }

  /** The whole table, as it stands between two steps of a system call. */
  ghost predicate Ok(ref: seq<nat>, kind: seq<Kind>, slots: Slots, puts: seq<Kind>, past: Past,
                     hand: multiset<nat>, raw: set<nat>)
  {
    Counted(ref, slots, hand) && Typed(ref, kind, raw) && PastOk(kind, puts, past)
  }

  /** Between system calls, a file's pipe end or inode has been given up if and only if no slot names
      the file any more; each was given up at most once. */
  lemma GivenUpAtLastClose(ref: seq<nat>, kind: seq<Kind>, slots: Slots, puts: seq<Kind>, past: Past, t: nat)
    requires Ok(ref, kind, slots, puts, past, multiset{}, {})
    requires t < |past.built|
    ensures t in past.gone <==> !exists f, s :: f in past.live && past.live[f] == t && s in slots && slots[s] == f
    ensures multiset(past.gone)[t] <= 1
  {
    if t in past.gone {
      GoneOnce(past.gone, t);
    } else {
      assert t in past.live.Values;
      var f :| f in past.live && past.live[f] == t;
      assert kind[f] != FdNone && ref[f] != 0;
      assert Naming(slots, f) != {};
      var s :| s in Naming(slots, f);
      assert f in past.live && past.live[f] == t && s in slots && slots[s] == f;
    }
  }

  lemma {:induction false} GoneOnce(gone: seq<nat>, t: nat)
    requires forall i, j :: 0 <= i < j < |gone| ==> gone[i] != gone[j]
    ensures multiset(gone)[t] <= 1
  {
    if |gone| > 0 {
      var n := |gone| - 1;
      assert gone == gone[..n] + [gone[n]];
      GoneOnce(gone[..n], t);
      if gone[n] == t {
        assert t !in gone[..n];
        assert t !in multiset(gone[..n]);
      }
    }
  }

  // ---------- one step of a system call ----------

  lemma OkAllocated(ref: seq<nat>, kind: seq<Kind>, slots: Slots, puts: seq<Kind>, past: Past,
                    hand: multiset<nat>, raw: set<nat>, f: nat)
    requires Ok(ref, kind, slots, puts, past, hand, raw)
    requires f < NFILE && ref[f] == 0
    ensures Ok(ref[f := 1], kind, slots, puts, past, hand + multiset{f}, raw + {f})
  {
    hide Counted, PastOk;
    assert |ref| == NFILE;
    CountedUp(ref, slots, hand, f);
  }

  lemma OkBuilt(ref: seq<nat>, kind: seq<Kind>, slots: Slots, puts: seq<Kind>, past: Past,
                hand: multiset<nat>, raw: set<nat>, f: nat, k: Kind)
    requires Ok(ref, kind, slots, puts, past, hand, raw)
    requires f in raw && k != FdNone
    ensures |kind| == NFILE && f < NFILE
    ensures Ok(ref, kind[f := k], slots, puts, Built(past, f, k), hand, raw - {f})
  {
    hide Counted, PastOk, Built;
    BuiltOk(kind, puts, past, f, k);
  }

  lemma OkDup(ref: seq<nat>, kind: seq<Kind>, slots: Slots, puts: seq<Kind>, past: Past,
              hand: multiset<nat>, raw: set<nat>, f: nat)
    requires Ok(ref, kind, slots, puts, past, hand, raw)
    requires f < NFILE && f !in raw && |ref| == NFILE && ref[f] >= 1
    ensures Ok(ref[f := ref[f] + 1], kind, slots, puts, past, hand + multiset{f}, raw)
  {
    hide Counted, PastOk;
    CountedUp(ref, slots, hand, f);
  }

  ghost function ClosedPast(past: Past, f: nat, last: bool): Past {
    if last && f in past.live then GivenUp(past, f) else past
  }

  lemma OkClosed(ref: seq<nat>, kind: seq<Kind>, slots: Slots, puts: seq<Kind>, past: Past,
                 hand: multiset<nat>, raw: set<nat>, f: nat, rest: multiset<nat>)
    requires Ok(ref, kind, slots, puts, past, hand, raw)
    requires f < NFILE && hand == rest + multiset{f}
    ensures |ref| == |kind| == NFILE && ref[f] >= 1
    ensures ref[f] > 1 ==> Ok(ref[f := ref[f] - 1], kind, slots, puts, past, rest, raw - {f})
    ensures ref[f] == 1 ==>
      Ok(ref[f := 0], kind[f := FdNone], slots, if kind[f] == FdNone then puts else puts + [kind[f]],
         ClosedPast(past, f, true), rest, raw - {f})
  {
    hide Counted, GivenUp, LiveOk, GoneOk;
    CountedDown(ref, slots, hand, f, rest);
    if ref[f] == 1 {
      if kind[f] != FdNone {
        GivenUpOk(kind, puts, past, f);
      } else {
        NotLive(kind, puts, past, f);
        assert kind[f := FdNone] == kind;
      }
    }
  }

  lemma NotLive(kind: seq<Kind>, puts: seq<Kind>, past: Past, f: nat)
    requires PastOk(kind, puts, past) && f < NFILE
    ensures f in past.live <==> kind[f] != FdNone
  {
  }

  lemma OkSlot(ref: seq<nat>, kind: seq<Kind>, slots: Slots, puts: seq<Kind>, past: Past,
               hand: multiset<nat>, raw: set<nat>, s: Slot)
    requires Ok(ref, kind, slots, puts, past, hand, raw)
    requires s in slots
    ensures |ref| == NFILE && slots[s] < NFILE && ref[slots[s]] >= 1
    ensures s.i < if s.Fd? then NOFILE else VMA_MAX
  {
    hide Refs;
    NamedIsCounted(slots, s);
  }

  lemma OkTaken(ref: seq<nat>, kind: seq<Kind>, slots: Slots, puts: seq<Kind>, past: Past,
                hand: multiset<nat>, raw: set<nat>, s: Slot, f: nat, rest: multiset<nat>)
    requires Ok(ref, kind, slots, puts, past, hand, raw)
    requires s !in slots && s.i < if s.Fd? then NOFILE else VMA_MAX
    requires f < NFILE && hand == rest + multiset{f}
    ensures Ok(ref, kind, slots[s := f], puts, past, rest, raw)
  {
    hide Counted, Typed, PastOk;
    SlotTaken(ref, slots, hand, s, f, rest);
  }

  lemma OkDropped(ref: seq<nat>, kind: seq<Kind>, slots: Slots, puts: seq<Kind>, past: Past,
                  hand: multiset<nat>, raw: set<nat>, s: Slot)
    requires Ok(ref, kind, slots, puts, past, hand, raw)
    requires s in slots
    ensures Ok(ref, kind, slots - {s}, puts, past, hand + multiset{slots[s]}, raw)
  {
    hide Counted, Typed, PastOk;
    SlotDropped(ref, slots, hand, s);
  }

  /** `now` is `was` with the first `nv` regions and `nf` descriptors of `p` copied to `c`. */
  ghost predicate Copied(was: Slots, now: Slots, p: nat, c: nat, nv: nat, nf: nat) {
    && (forall s :: s in now && s.p != c ==> s in was && was[s] == now[s])
    && (forall s :: s in was ==> s in now && was[s] == now[s])
    && (forall i: nat :: Vma(c, i) in now <==> i < nv && Vma(p, i) in was)
    && (forall i: nat :: Vma(c, i) in now && Vma(p, i) in was ==> now[Vma(c, i)] == was[Vma(p, i)])
    && (forall i: nat :: Fd(c, i) in now <==> i < nf && Fd(p, i) in was)
    && (forall i: nat :: Fd(c, i) in now && Fd(p, i) in was ==> now[Fd(c, i)] == was[Fd(p, i)])
  }

  /** `now` is `was` without the first `nv` regions and `nf` descriptors of `p`. */
  ghost predicate Emptied(was: Slots, now: Slots, p: nat, nv: nat, nf: nat) {
    && (forall s :: s in now ==> s in was && was[s] == now[s])
    && (forall s :: s in was && s.p != p ==> s in now)
    && (forall i: nat :: Vma(p, i) in now <==> i >= nv && Vma(p, i) in was)
    && (forall i: nat :: Fd(p, i) in now <==> i >= nf && Fd(p, i) in was)
  }

  /** The table of open files and the slots of all processes. */
  class Files {
    var ref: seq<nat>
    var kind: seq<Kind>
    var slots: Slots
    /** The pipe ends closed and inodes put so far. */
    var puts: seq<Kind>
    ghost var past: Past

    ghost predicate Holds(hand: multiset<nat>, raw: set<nat>)
      reads this
    {
      Ok(ref, kind, slots, puts, past, hand, raw)
    }

    /** What holds between system calls. */
    ghost predicate Valid()
      reads this
    {
      Holds(multiset{}, {})
    }

    constructor ()
      ensures Valid()
      ensures slots == map[] && puts == []
    {
      ref := seq(NFILE, _ => 0);
      kind := seq(NFILE, _ => FdNone);
      slots := map[];
      puts := [];
      past := Past([], map[], []);
      new;
      forall f: nat | f < NFILE
        ensures ref[f] == Refs(slots, f)
      {
        assert Naming(slots, f) == {};
      }
    }

    method FileAlloc(ghost hand: multiset<nat>, ghost raw: set<nat>) returns (ok: bool, f: nat)
      requires Holds(hand, raw)
      modifies this`ref
      ensures ok ==> f < NFILE && |ref| == |old(ref)| == NFILE && old(ref)[f] == 0 && ref == old(ref)[f := 1]
      ensures ok ==> |kind| == NFILE && kind[f] == FdNone && forall g: nat :: g < f ==> old(ref)[g] > 0
      ensures ok ==> Holds(hand + multiset{f}, raw + {f})
      ensures !ok ==> ref == old(ref) && forall g: nat :: g < |ref| ==> ref[g] > 0
    {
      hide Counted, PastOk;
      f := 0;
      while f < NFILE
        invariant f <= NFILE
        invariant ref == old(ref)
        invariant forall g: nat :: g < f ==> ref[g] > 0
      {
        if ref[f] == 0 {
          OkAllocated(ref, kind, slots, puts, past, hand, raw, f);
          ref := ref[f := 1];
          return true, f;
        }
        f := f + 1;
      }
      return false, 0;
    }

    /** The lowest free descriptor of process `p` takes over the reference to `f`. */
    method FdAlloc(p: nat, f: nat) returns (fd: int)
      modifies this`slots
      ensures fd == -1 || 0 <= fd < NOFILE
      ensures fd < 0 ==> slots == old(slots) && forall j: nat :: j < NOFILE ==> Fd(p, j) in slots
      ensures fd >= 0 ==> Fd(p, fd) !in old(slots) && slots == old(slots)[Fd(p, fd) := f]
      ensures forall j: nat :: j < fd ==> Fd(p, j) in old(slots)
    {
      fd := 0;
      while fd < NOFILE
        invariant 0 <= fd <= NOFILE
        invariant slots == old(slots)
        invariant forall j: nat :: j < fd ==> Fd(p, j) in slots
      {
        if Fd(p, fd) !in slots {
          slots := slots[Fd(p, fd) := f];
          return;
        }
        fd := fd + 1;
      }
      fd := -1;
    }

    /** A count below one would be a panic. */
    method FileDup(f: nat, ghost hand: multiset<nat>, ghost raw: set<nat>)
      requires Holds(hand, raw)
      requires f < NFILE && f !in raw && |ref| == NFILE && ref[f] >= 1
      modifies this`ref
      ensures |old(ref)| == NFILE && ref == old(ref)[f := old(ref)[f] + 1]
      ensures Holds(hand + multiset{f}, raw)
    {
      hide Ok;
      OkDup(ref, kind, slots, puts, past, hand, raw, f);
      ref := ref[f := ref[f] + 1];
    }

    /** Gives one reference back; the last one gives up what the file stood for, if it stood for
        anything yet. */
    method FileClose(f: nat, ghost hand: multiset<nat>, ghost raw: set<nat>, ghost rest: multiset<nat>)
      requires Holds(hand, raw)
      requires f < NFILE && hand == rest + multiset{f}
      modifies this`ref, this`kind, this`puts, this`past
      ensures |old(ref)| == |old(kind)| == NFILE && old(ref)[f] >= 1
      ensures ref == old(ref)[f := old(ref)[f] - 1]
      ensures kind == if old(ref)[f] > 1 then old(kind) else old(kind)[f := FdNone]
      ensures puts == old(puts) + if old(ref)[f] > 1 || old(kind)[f] == FdNone then [] else [old(kind)[f]]
      ensures Holds(rest, raw - {f})
    {
      hide Ok, ClosedPast;
      OkClosed(ref, kind, slots, puts, past, hand, raw, f, rest);
      assert puts + [] == puts;
      ref := ref[f := ref[f] - 1];
      if ref[f] > 0 {
        return;
      }
      past := ClosedPast(past, f, true);
      var k := kind[f];
      kind := kind[f := FdNone];
      if k != FdNone {
        puts := puts + [k];
      }
    }

    /** Completes a half-built file. */
    method Complete(f: nat, k: Kind, ghost hand: multiset<nat>, ghost raw: set<nat>)
      requires Holds(hand, raw)
      requires f in raw && k != FdNone
      modifies this`kind, this`past
      ensures f < NFILE == |old(kind)| && kind == old(kind)[f := k]
      ensures Holds(hand, raw - {f})
    {
      hide Ok, Built;
      OkBuilt(ref, kind, slots, puts, past, hand, raw, f, k);
      past := Built(past, f, k);
      kind := kind[f := k];
    }

    // ---------- system calls ----------

    method SysDup(p: nat, fd: int) returns (r: int)
      requires Valid()
      modifies this
      ensures Valid()
      ensures kind == old(kind) && puts == old(puts)
      ensures r < 0 <==> fd < 0 || Fd(p, fd) !in old(slots) || forall j: nat :: j < NOFILE ==> Fd(p, j) in old(slots)
      ensures r < 0 ==> slots == old(slots) && ref == old(ref)
      ensures r >= 0 ==> Fd(p, r) !in old(slots) && slots == old(slots)[Fd(p, r) := old(slots)[Fd(p, fd)]]
      ensures forall j: nat :: j < r ==> Fd(p, j) in old(slots)
    {
      hide Ok;
      if fd < 0 || fd >= NOFILE || Fd(p, fd) !in slots {
        if fd >= NOFILE {
          BigFd(p, fd);
        }
        return -1;
      }
      var f := slots[Fd(p, fd)];
      OkSlot(ref, kind, slots, puts, past, multiset{}, {}, Fd(p, fd));
      OkDup(ref, kind, slots, puts, past, multiset{}, {}, f);
      r := FdAlloc(p, f);
      if r < 0 {
        return;
      }
      ref := ref[f := ref[f] + 1];
      OkTaken(ref, kind, old(slots), puts, past, multiset{} + multiset{f}, {}, Fd(p, r), f, multiset{});
    }

    lemma BigFd(p: nat, fd: nat)
      requires Valid() && fd >= NOFILE
      ensures Fd(p, fd) !in slots
    {
    }

    method SysClose(p: nat, fd: int) returns (r: int)
      requires Valid()
      modifies this
      ensures Valid()
      ensures r == if fd < 0 || Fd(p, fd) !in old(slots) then -1 else 0
      ensures r < 0 ==> slots == old(slots) && puts == old(puts) && ref == old(ref) && kind == old(kind)
      ensures r == 0 ==> slots == old(slots) - {Fd(p, fd)}
    {
      hide Ok;
      if fd < 0 || fd >= NOFILE || Fd(p, fd) !in slots {
        if fd >= NOFILE {
          BigFd(p, fd);
        }
        return -1;
      }
      var f := slots[Fd(p, fd)];
      OkSlot(ref, kind, slots, puts, past, multiset{}, {}, Fd(p, fd));
      OkDropped(ref, kind, slots, puts, past, multiset{}, {}, Fd(p, fd));
      slots := slots - {Fd(p, fd)};
      FileClose(f, multiset{} + multiset{f}, {}, multiset{});
      assert {} - {f} == {};
      return 0;
    }

    /** From the point where the inode `k` has been found; putting the inode back on failure is left
        to the caller. A failure leaves no trace. */
    method SysOpen(p: nat, k: Kind) returns (r: int)
      requires Valid()
      requires k.FdInode? || k.FdDevice?
      modifies this
      ensures Valid()
      ensures puts == old(puts)
      ensures r < 0 <==>
        || (forall f: nat :: f < |old(ref)| ==> old(ref)[f] > 0)
        || (forall j: nat :: j < NOFILE ==> Fd(p, j) in old(slots))
      ensures r < 0 ==> slots == old(slots) && ref == old(ref) && kind == old(kind)
      ensures r >= 0 ==>
        Fd(p, r) !in old(slots) && Fd(p, r) in slots && slots == old(slots)[Fd(p, r) := slots[Fd(p, r)]]
      ensures forall j: nat :: j < r ==> Fd(p, j) in old(slots)
      ensures r >= 0 ==>
        && |old(kind)| == NFILE && slots[Fd(p, r)] < NFILE
        && old(kind)[slots[Fd(p, r)]] == FdNone && kind == old(kind)[slots[Fd(p, r)] := k]
    {
      hide Ok;
      var ok, f := FileAlloc(multiset{}, {});
      if !ok {
        return -1;
      }
      r := FdAlloc(p, f);
      if r < 0 {
        FileClose(f, multiset{} + multiset{f}, {} + {f}, multiset{});
        assert ref == old(ref) && kind == old(kind);
        assert {} + {f} - {f} == {};
        return;
      }
      OkTaken(ref, kind, old(slots), puts, past, multiset{} + multiset{f}, {} + {f}, Fd(p, r), f, multiset{});
      Complete(f, k, multiset{}, {} + {f});
      assert {} + {f} - {f} == {};
    }

    /** `memory` says whether the pipe's page could be allocated. */
    method PipeAlloc(a: Kind, b: Kind, memory: bool) returns (ok: bool, rf: nat, wf: nat)
      requires Valid()
      requires a.FdPipe? && b.FdPipe?
      modifies this
      ensures slots == old(slots) && puts == old(puts)
      ensures !ok ==> Valid() && ref == old(ref) && kind == old(kind)
      ensures !ok && memory ==> forall f: nat, g: nat :: f < g < |ref| ==> ref[f] > 0 || ref[g] > 0
      ensures ok ==> Holds(multiset{rf, wf}, {})
      ensures ok ==> rf < NFILE && wf < NFILE && rf != wf && |old(kind)| == |old(ref)| == NFILE
      ensures ok ==> old(ref)[rf] == 0 && old(ref)[wf] == 0 && ref == old(ref)[rf := 1][wf := 1]
      ensures ok ==> old(kind)[rf] == FdNone && old(kind)[wf] == FdNone && kind == old(kind)[rf := a][wf := b]
    {
      hide Ok;
      wf := 0;
      ok, rf := FileAlloc(multiset{}, {});
      if !ok {
        return;
      }
      ok, wf := FileAlloc(multiset{} + multiset{rf}, {} + {rf});
      if !ok {
        FileClose(rf, multiset{} + multiset{rf}, {} + {rf}, multiset{});
        assert ref == old(ref) && kind == old(kind);
        assert {} + {rf} - {rf} == {};
        return;
      }
      if !memory {
        FileClose(rf, multiset{} + multiset{rf} + multiset{wf}, {} + {rf} + {wf}, multiset{wf});
        FileClose(wf, multiset{wf}, {} + {rf} + {wf} - {rf}, multiset{});
        assert ref == old(ref) && kind == old(kind);
        assert {} + {rf} + {wf} - {rf} - {wf} == {};
        return false, 0, 0;
      }
      Complete(rf, a, multiset{} + multiset{rf} + multiset{wf}, {} + {rf} + {wf});
      Complete(wf, b, multiset{} + multiset{rf} + multiset{wf}, {} + {rf} + {wf} - {rf});
      assert {} + {rf} + {wf} - {rf} - {wf} == {};
      assert multiset{} + multiset{rf} + multiset{wf} == multiset{rf, wf};
    }

    /** Closes the two files of a pipe nothing names any more. */
    method ClosePipe(rf: nat, wf: nat)
      requires Holds(multiset{rf, wf}, {})
      requires rf < NFILE && wf < NFILE && rf != wf && |ref| == |kind| == NFILE
      requires ref[rf] == 1 && ref[wf] == 1 && kind[rf] != FdNone && kind[wf] != FdNone
      modifies this`ref, this`kind, this`puts, this`past
      ensures Valid()
      ensures |old(ref)| == |old(kind)| == NFILE
      ensures ref == old(ref)[rf := 0][wf := 0] && kind == old(kind)[rf := FdNone][wf := FdNone]
      ensures puts == old(puts) + [old(kind)[rf], old(kind)[wf]]
    {
      hide Ok;
      FileClose(rf, multiset{rf, wf}, {}, multiset{wf});
      assert {} - {rf} == {};
      FileClose(wf, multiset{wf}, {}, multiset{});
      assert {} - {wf} == {};
    }

    /** `copied` says whether both descriptors could be stored in user memory. A pipe that could not be
        handed out is closed at both ends again. */
    method SysPipe(p: nat, a: Kind, b: Kind, memory: bool, copied: bool)
      returns (r: int, fd0: int, fd1: int, made: bool)
      requires Valid()
      requires a.FdPipe? && b.FdPipe?
      modifies this
      ensures Valid()
      ensures r < 0 ==> slots == old(slots) && ref == old(ref) && kind == old(kind)
      ensures r < 0 ==> puts == old(puts) + if made then [a, b] else []
      ensures r < 0 && memory && copied ==>
        || (forall f: nat, g: nat :: f < g < |ref| ==> ref[f] > 0 || ref[g] > 0)
        || (forall i: nat, j: nat :: i < j < NOFILE ==> Fd(p, i) in slots || Fd(p, j) in slots)
      ensures r >= 0 ==> puts == old(puts) && 0 <= fd0 < fd1 && Fd(p, fd0) !in old(slots) && Fd(p, fd1) !in old(slots)
      ensures r >= 0 ==>
        && Fd(p, fd0) in slots && Fd(p, fd1) in slots
        && slots == old(slots)[Fd(p, fd0) := slots[Fd(p, fd0)]][Fd(p, fd1) := slots[Fd(p, fd1)]]
      ensures r >= 0 ==>
        && |old(kind)| == NFILE && slots[Fd(p, fd0)] < NFILE && slots[Fd(p, fd1)] < NFILE
        && slots[Fd(p, fd0)] != slots[Fd(p, fd1)] && kind == old(kind)[slots[Fd(p, fd0)] := a][slots[Fd(p, fd1)] := b]
    {
      hide Ok;
      var rf, wf;
      made, rf, wf := PipeAlloc(a, b, memory);
      if !made {
        return -1, -1, -1, made;
      }
      fd0 := FdAlloc(p, rf);
      if fd0 < 0 {
        ClosePipe(rf, wf);
        assert ref == old(ref) && kind == old(kind);
        return -1, -1, -1, made;
      }
      fd1 := FdAlloc(p, wf);
      if fd1 < 0 {
        slots := slots - {Fd(p, fd0)};
        assert slots == old(slots);
        ClosePipe(rf, wf);
        assert ref == old(ref) && kind == old(kind);
        return -1, -1, -1, made;
      }
      if !copied {
        slots := slots - {Fd(p, fd0)};
        slots := slots - {Fd(p, fd1)};
        assert slots == old(slots);
        ClosePipe(rf, wf);
        assert ref == old(ref) && kind == old(kind);
        return -1, -1, -1, made;
      }
      OkTaken(ref, kind, old(slots), puts, past, multiset{rf, wf}, {}, Fd(p, fd0), rf, multiset{wf});
      OkTaken(ref, kind, old(slots)[Fd(p, fd0) := rf], puts, past, multiset{wf}, {}, Fd(p, fd1), wf, multiset{});
      return 0, fd0, fd1, made;
    }

    /** The slot and count part of mapping a file. `denied` says that a shared writable mapping of a
        read-only file is asked for. The source looks through the descriptor unchecked, so one that is not
        open is a panic, and so is a process with every region in use. */
    method SysMmap(p: nat, fd: nat, denied: bool) returns (panicked: bool, ok: bool, i: nat)
      requires Valid()
      modifies this
      ensures Valid()
      ensures kind == old(kind) && puts == old(puts)
      ensures panicked <==>
        Fd(p, fd) !in old(slots) || (!denied && forall j: nat :: j < VMA_MAX ==> Vma(p, j) in old(slots))
      ensures ok <==> !panicked && !denied
      ensures !ok ==> slots == old(slots) && ref == old(ref)
      ensures ok ==>
        && Fd(p, fd) in old(slots) && i < VMA_MAX && Vma(p, i) !in old(slots)
        && slots == old(slots)[Vma(p, i) := old(slots)[Fd(p, fd)]]
      ensures ok ==> forall j: nat :: j < i ==> Vma(p, j) in old(slots)
    {
      hide Ok;
      i := 0;
      if Fd(p, fd) !in slots {
        return true, false, i;
      }
      var f := slots[Fd(p, fd)];
      if denied {
        return false, false, i;
      }
      while i < VMA_MAX
        invariant i <= VMA_MAX
        invariant forall j: nat :: j < i ==> Vma(p, j) in slots
        modifies {}
      {
        if Vma(p, i) !in slots {
          break;
        }
        i := i + 1;
      }
      if i == VMA_MAX {
        return true, false, i;
      }
      OkSlot(ref, kind, slots, puts, past, multiset{}, {}, Fd(p, fd));
      FileDup(f, multiset{}, {});
      OkTaken(ref, kind, slots, puts, past, multiset{} + multiset{f}, {}, Vma(p, i), f, multiset{});
      slots := slots[Vma(p, i) := f];
      return false, true, i;
    }

    /** The last part of unmapping, on the region's 64-bit page counter: the region lets go of its file
        when the counter, less one, is not zero. */
    method Retire(p: nat, i: nat, refcnt: nat) returns (left: nat)
      requires Valid()
      requires Vma(p, i) in slots
      requires refcnt < 0x1_0000_0000_0000_0000
      modifies this
      ensures Valid()
      ensures slots == if refcnt == 1 then old(slots) else old(slots) - {Vma(p, i)}
      ensures refcnt == 1 ==> ref == old(ref) && kind == old(kind) && puts == old(puts)
    {
      hide Ok;
      left := if refcnt == 0 then 0xFFFF_FFFF_FFFF_FFFF else refcnt - 1;
      if left != 0 {
        DropSlot(Vma(p, i));
      }
    }

    method DropSlot(s: Slot)
      requires Valid()
      requires s in slots
      modifies this
      ensures Valid()
      ensures slots == old(slots) - {s}
    {
      hide Ok;
      var f := slots[s];
      OkSlot(ref, kind, slots, puts, past, multiset{}, {}, s);
      OkDropped(ref, kind, slots, puts, past, multiset{}, {}, s);
      slots := slots - {s};
      FileClose(f, multiset{} + multiset{f}, {}, multiset{});
      assert {} - {f} == {};
    }

    method CopySlot(from: Slot, to: Slot)
      requires Valid()
      requires from in slots && to !in slots && to.i == from.i && (to.Fd? <==> from.Fd?)
      modifies this
      ensures Valid()
      ensures kind == old(kind) && puts == old(puts)
      ensures slots == old(slots)[to := old(slots)[from]]
    {
      hide Ok;
      var f := slots[from];
      OkSlot(ref, kind, slots, puts, past, multiset{}, {}, from);
      FileDup(f, multiset{}, {});
      OkTaken(ref, kind, slots, puts, past, multiset{} + multiset{f}, {}, to, f, multiset{});
      slots := slots[to := f];
    }

    /** The child `c` gets the regions and descriptors of `p`. */
    method Fork(p: nat, c: nat)
      requires Valid()
      requires forall s :: s in slots ==> s.p != c
      modifies this
      ensures Valid()
      ensures kind == old(kind) && puts == old(puts)
      ensures Copied(old(slots), slots, p, c, VMA_MAX, NOFILE)
    {
      hide Ok;
      var i := 0;
      while i < VMA_MAX
        invariant i <= VMA_MAX
        invariant Valid() && kind == old(kind) && puts == old(puts)
        invariant Copied(old(slots), slots, p, c, i, 0)
      {
        if Vma(p, i) in slots {
          CopySlot(Vma(p, i), Vma(c, i));
        }
        i := i + 1;
      }
      i := 0;
      while i < NOFILE
        invariant i <= NOFILE
        invariant Valid() && kind == old(kind) && puts == old(puts)
        invariant Copied(old(slots), slots, p, c, VMA_MAX, i)
      {
        if Fd(p, i) in slots {
          CopySlot(Fd(p, i), Fd(c, i));
        }
        i := i + 1;
      }
    }

    /** A dead process names no file; every other slot is as before. */
    method Exit(p: nat)
      requires Valid()
      modifies this
      ensures Valid()
      ensures forall s :: s in slots <==> s in old(slots) && s.p != p
      ensures forall s :: s in slots ==> slots[s] == old(slots)[s]
    {
      hide Ok;
      var i := 0;
      while i < VMA_MAX
        invariant i <= VMA_MAX
        invariant Valid()
        invariant Emptied(old(slots), slots, p, i, 0)
      {
        if Vma(p, i) in slots {
          DropSlot(Vma(p, i));
        }
        i := i + 1;
      }
      i := 0;
      while i < NOFILE
        invariant i <= NOFILE
        invariant Valid()
        invariant Emptied(old(slots), slots, p, VMA_MAX, i)
      {
        if Fd(p, i) in slots {
          DropSlot(Fd(p, i));
        }
        i := i + 1;
      }
      forall s | s in slots
        ensures s.p != p
      {
        OkSlot(ref, kind, slots, puts, past, multiset{}, {}, s);
      }
    }
  }
}
