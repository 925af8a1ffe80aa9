/** The memory of any number of processes: every allocatable page is free, belongs to the kernel, or is
    held by exactly one process, whatever sequence of creations, resizes, forks and exits there was. */
module VmProcs {
  import opened Basics
  import opened Sv39
  import opened Vm

  /** What the kernel keeps of a process's memory. */
  datatype User = User(pagetable: nat, sz: nat, trapframe: nat)

  /** Pages `all` are split into free ones, those of `rest`, and one set per process. */
  ghost predicate Parts(all: set<nat>, f: set<nat>, rest: set<nat>, held: map<nat, set<nat>>) {
    && f <= all && rest <= all && f !! rest
    && (forall a :: a in held ==> held[a] <= all && held[a] !! f && held[a] !! rest)
    && (forall a, b :: a in held && b in held && a != b ==> held[a] !! held[b])
    && (forall p :: p in all ==> p in f || p in rest || exists a :: a in held && p in held[a])
  }

  lemma PartsChanged(all: set<nat>, f: set<nat>, rest: set<nat>, held: map<nat, set<nat>>, a: nat, f': set<nat>,
                     h: set<nat>)
    requires Parts(all, f, rest, held) && a in held && f' + h == f + held[a] && f' !! h
    ensures Parts(all, f', rest, held[a := h])
  {
    var held' := held[a := h];
    forall p | p in all
      ensures p in f' || p in rest || exists b :: b in held' && p in held'[b]
    {
      if p in f + held[a] {
        assert p in h ==> p in held'[a];
      } else if p !in rest {
        var b :| b in held && p in held[b];
        assert b in held' && p in held'[b];
      }
    }
  }

  lemma PartsAdded(all: set<nat>, f: set<nat>, rest: set<nat>, held: map<nat, set<nat>>, a: nat, f': set<nat>,
                   h: set<nat>)
    requires Parts(all, f, rest, held) && a !in held && f' + h == f && f' !! h
    ensures Parts(all, f', rest, held[a := h])
  {
    var held' := held[a := h];
    forall p | p in all
      ensures p in f' || p in rest || exists b :: b in held' && p in held'[b]
    {
      if p in f {
        assert p in h ==> p in held'[a];
      } else if p !in rest {
        var b :| b in held && p in held[b];
        assert b in held' && p in held'[b];
      }
    }
  }

  lemma PartsRemoved(all: set<nat>, f: set<nat>, rest: set<nat>, held: map<nat, set<nat>>, a: nat, f': set<nat>)
    requires Parts(all, f, rest, held) && a in held && f' == f + held[a]
    ensures Parts(all, f', rest, held - {a})
  {
    var held' := held - {a};
    forall p | p in all
      ensures p in f' || p in rest || exists b :: b in held' && p in held'[b]
    {
      if p !in f' && p !in rest {
        var b :| b in held && p in held[b];
        assert b in held' && p in held'[b];
      }
    }
  }

  /** The process's table is in order, and `h` is all it holds: tables, user pages and the trapframe. */
  ghost predicate UserOk(m: Mem, f: set<nat>, u: User, t: Tree, h: set<nat>) {
    && t.root == u.pagetable && UserTable(m, f, t, Pages(u.sz)) && u.trapframe in m && u.trapframe !in f
    && u.trapframe !in Held(m, t, Pages(u.sz)) && h == Held(m, t, Pages(u.sz)) + {u.trapframe}
  }

  ghost predicate AllOk(m: Mem, f: set<nat>, procs: map<nat, User>, trees: map<nat, Tree>, held: map<nat, set<nat>>) {
    && procs.Keys == trees.Keys == held.Keys
    && forall a :: a in procs ==> UserOk(m, f, procs[a], trees[a], held[a])
  }

  /** A process whose pages are not touched does not notice. */
  lemma Unaffected(m: Mem, f: set<nat>, m': Mem, f': set<nat>, touched: set<nat>, u: User, t: Tree, h: set<nat>)
    requires UserOk(m, f, u, t, h) && OthersKept(m, touched, m') && h !! touched && h !! f'
    ensures UserOk(m', f', u, t, h) && Repr(m, t) && Repr(m', t) && MapOf(m', t) == MapOf(m, t)
  {
    hide UserTable, MapOf, Held;
    UserTableParts(m, f, t, Pages(u.sz));
    Bystander(m, f, m', f', touched, t, Pages(u.sz));
    UserTableParts(m', f', t, Pages(u.sz));
  }

  /** Translations and contents are the same. */
  ghost predicate Same(m: Mem, m': Mem, t: Tree, h: set<nat>) {
    && Repr(m, t) && Repr(m', t) && MapOf(m', t) == MapOf(m, t)
    && forall p :: p in h && p in m ==> p in m' && m'[p] == m[p]
  }

  /** Nobody but `a` noticed anything. */
  ghost predicate Isolated(m: Mem, m': Mem, trees: map<nat, Tree>, held: map<nat, set<nat>>, a: nat) {
    forall b :: b in trees && b in held && b != a ==> Same(m, m', trees[b], held[b])
  }

  lemma OneSame(m: Mem, f: set<nat>, m': Mem, f': set<nat>, touched: set<nat>, u: User, t: Tree, h: set<nat>)
    requires UserOk(m, f, u, t, h) && OthersKept(m, touched, m') && h !! touched && h !! f'
    ensures UserOk(m', f', u, t, h) && Same(m, m', t, h)
  {
    hide UserOk, MapOf;
    Unaffected(m, f, m', f', touched, u, t, h);
  }

  lemma OthersOk(m: Mem, f: set<nat>, m': Mem, f': set<nat>, rest: set<nat>, procs: map<nat, User>,
                 trees: map<nat, Tree>,
                 held: map<nat, set<nat>>, a: nat, touched: set<nat>)
    requires Parts(m.Keys, f, rest, held) && AllOk(m, f, procs, trees, held) && OthersKept(m, touched, m')
    requires f' <= touched
    requires touched <= f + if a in held then held[a] else {}
    ensures forall b :: b in procs && b != a ==> UserOk(m', f', procs[b], trees[b], held[b])
    ensures Isolated(m, m', trees, held, a)
  {
    hide UserOk, Same, OthersKept;
    forall b | b in procs && b != a
      ensures UserOk(m', f', procs[b], trees[b], held[b]) && Same(m, m', trees[b], held[b])
    {
      assert held[b] !! touched;
      OneSame(m, f, m', f', touched, procs[b], trees[b], held[b]);
    }
  }

  lemma NewUser(m: Mem, f: set<nat>, u: User, t: Tree, h: set<nat>)
    requires t.root == u.pagetable && UserTable(m, f, t, Pages(u.sz)) && u.trapframe in m && u.trapframe !in f
    requires h == Held(m, t, Pages(u.sz)) && u.trapframe !in h
    ensures UserOk(m, f, u, t, h + {u.trapframe}) && h !! f
  {
    hide UserTable, Held, MapOf;
    FrameIsHeld(m, f, t, Pages(u.sz));
  }

  lemma UserParts(m: Mem, f: set<nat>, u: User, t: Tree, h: set<nat>)
    requires UserOk(m, f, u, t, h)
    ensures Repr(m, t) && t.root == u.pagetable && UserTable(m, f, t, Pages(u.sz)) && u.trapframe in m
    ensures u.trapframe !in f
    ensures u.trapframe !in Held(m, t, Pages(u.sz)) && h == Held(m, t, Pages(u.sz)) + {u.trapframe}
  {
  }

  /** The state of all memory: contents, free pages, and for each process its record, tree and pages. */
  datatype Image = Image(mem: Mem, free: set<nat>, procs: map<nat, User>, trees: map<nat, Tree>, held: map<nat,
      set<nat>>)

  ghost predicate Ok(s: Image, rest: set<nat>) {
    Parts(s.mem.Keys, s.free, rest, s.held) && AllOk(s.mem, s.free, s.procs, s.trees, s.held)
  }

  /** `s'` differs from `s` in process `a` and the free pages only. */
  ghost predicate OnlyTouched(s: Image, s': Image, a: nat) {
    && s'.procs - {a} == s.procs - {a} && s'.trees - {a} == s.trees - {a} && s'.held - {a} == s.held - {a}
    && Isolated(s.mem, s'.mem, s.trees, s.held, a) && s'.mem.Keys == s.mem.Keys
  }

  /** No process is affected by what happens to free pages. */
  lemma FreePagesOnly(s: Image, s': Image, rest: set<nat>, a: nat)
    requires Ok(s, rest) && a !in s.procs && OthersKept(s.mem, s.free, s'.mem) && s' == s.(mem := s'.mem)
    ensures Ok(s', rest) && OnlyTouched(s, s', a)
  {
    hide Parts, UserOk, OthersKept, Isolated;
    KeysKept(s.mem, s.free, s'.mem);
    OthersOk(s.mem, s.free, s'.mem, s.free, rest, s.procs, s.trees, s.held, a, s.free);
  }

  lemma KeysKept(m: Mem, touched: set<nat>, m': Mem)
    requires OthersKept(m, touched, m')
    ensures m'.Keys == m.Keys
  {
  }

  lemma Entered(s: Image, s': Image, rest: set<nat>, a: nat, u: User, t: Tree, h: set<nat>)
    requires Ok(s, rest) && a !in s.procs && OthersKept(s.mem, s.free, s'.mem)
    requires UserOk(s'.mem, s'.free, u, t, h) && s'.free + h == s.free && s'.free !! h
    requires s' == Image(s'.mem, s'.free, s.procs[a := u], s.trees[a := t], s.held[a := h])
    ensures Ok(s', rest) && OnlyTouched(s, s', a)
  {
    hide Parts, UserOk, OthersKept, Isolated;
    KeysKept(s.mem, s.free, s'.mem);
    OthersOk(s.mem, s.free, s'.mem, s'.free, rest, s.procs, s.trees, s.held, a, s.free);
    PartsAdded(s.mem.Keys, s.free, rest, s.held, a, s'.free, h);
    assert s'.procs - {a} == s.procs - {a} && s'.trees - {a} == s.trees - {a} && s'.held - {a} == s.held - {a};
  }

  lemma Reshaped(s: Image, s': Image, rest: set<nat>, a: nat, u: User, t: Tree, h: set<nat>)
    requires Ok(s, rest) && a in s.procs && a in s.held && OthersKept(s.mem, s.free + s.held[a], s'.mem)
    requires UserOk(s'.mem, s'.free, u, t, h) && s'.free + h == s.free + s.held[a] && s'.free !! h
    requires s' == Image(s'.mem, s'.free, s.procs[a := u], s.trees[a := t], s.held[a := h])
    ensures Ok(s', rest) && OnlyTouched(s, s', a)
  {
    hide Parts, UserOk, OthersKept, Isolated;
    KeysKept(s.mem, s.free + s.held[a], s'.mem);
    OthersOk(s.mem, s.free, s'.mem, s'.free, rest, s.procs, s.trees, s.held, a, s.free + s.held[a]);
    PartsChanged(s.mem.Keys, s.free, rest, s.held, a, s'.free, h);
    assert s'.procs - {a} == s.procs - {a} && s'.trees - {a} == s.trees - {a} && s'.held - {a} == s.held - {a};
  }

  lemma Left(s: Image, s': Image, rest: set<nat>, a: nat)
    requires Ok(s, rest) && a in s.procs && a in s.held && OthersKept(s.mem, s.free + s.held[a], s'.mem)
    requires s'.free == s.free + s.held[a]
    requires s' == Image(s'.mem, s'.free, s.procs - {a}, s.trees - {a}, s.held - {a})
    ensures Ok(s', rest) && OnlyTouched(s, s', a)
  {
    hide Parts, UserOk, OthersKept, Isolated;
    KeysKept(s.mem, s.free + s.held[a], s'.mem);
    OthersOk(s.mem, s.free, s'.mem, s'.free, rest, s.procs, s.trees, s.held, a, s.free + s.held[a]);
    PartsRemoved(s.mem.Keys, s.free, rest, s.held, a, s'.free);
  }

  /** The process itself: same translations and contents below both sizes, fresh pages above; it fails only
      for want of memory. */
  ghost predicate Grew(s: Image, s': Image, a: nat, n: int, ok: bool) {
    && a in s.procs && a in s'.procs && a in s.trees && a in s'.trees
    && Repr(s.mem, s.trees[a]) && Repr(s'.mem, s'.trees[a])
    && s'.procs[a] == s.procs[a].(sz := if ok && s.procs[a].sz + n >= 0 then s.procs[a].sz + n else s.procs[a].sz)
    && SameMemory(s.mem, MapOf(s.mem, s.trees[a]), s'.mem, MapOf(s'.mem, s'.trees[a]), Pages(s.procs[a].sz),
        Pages(s'.procs[a].sz))
    && FreshPages(s'.mem, MapOf(s'.mem, s'.trees[a]), Pages(s.procs[a].sz), Pages(s'.procs[a].sz))
    && (!ok ==> n > 0 && |s.free| < 3 * (Pages(s.procs[a].sz + n) - Pages(s.procs[a].sz)))
  }

  /** Every process has the trampoline and its own trapframe mapped in their places. */
  ghost predicate Wired(s: Image, trampoline: nat) {
    forall a :: a in s.procs ==> WiredOne(s, a, trampoline)
  }

  ghost predicate WiredOne(s: Image, a: nat, trampoline: nat) {
    && a in s.procs && a in s.trees && Repr(s.mem, s.trees[a])
    && FixedPages(MapOf(s.mem, s.trees[a]), trampoline, s.procs[a].trapframe)
  }

  lemma WiredKept(s: Image, s': Image, rest: set<nat>, a: nat, trampoline: nat)
    requires Ok(s, rest) && Wired(s, trampoline) && OnlyTouched(s, s', a)
    requires a in s'.procs ==> WiredOne(s', a, trampoline)
    ensures Wired(s', trampoline)
  {
    hide Parts, UserOk, FixedPages, MapOf, Repr;
    forall b | b in s'.procs
      ensures WiredOne(s', b, trampoline)
    {
      if b != a {
        assert b in s'.procs - {a} && b in s.procs - {a} && (s'.procs - {a})[b] == (s.procs - {a})[b];
        assert WiredOne(s, b, trampoline) && b in s.trees - {a} && (s'.trees - {a})[b] == (s.trees - {a})[b];
        assert Same(s.mem, s'.mem, s.trees[b], s.held[b]);
      }
    }
  }

  lemma ResizedParts(m: Mem, f: set<nat>, t: Tree, m': Mem, f': set<nat>, t': Tree, n: nat, n': nat)
    requires Repr(m, t) && Repr(m', t') && Resized(m, f, t, m', f', t', n, n')
    ensures UserTable(m', f', t', n') && t'.root == t.root && f' + Held(m', t', n') == f + Held(m, t, n)
    ensures OthersKept(m, f + Held(m, t, n), m') && SameMemory(m, MapOf(m, t), m', MapOf(m', t'), n, n')
  {
  }

  lemma WiredNow(s: Image, a: nat, trampoline: nat)
    requires a in s.procs && a in s.trees && Repr(s.mem, s.trees[a])
    requires FixedPages(MapOf(s.mem, s.trees[a]), trampoline, s.procs[a].trapframe)
    ensures WiredOne(s, a, trampoline)
  {
  }

  lemma GrewNow(s: Image, s': Image, a: nat, n: int, ok: bool)
    requires a in s.procs && a in s'.procs && a in s.trees && a in s'.trees
    requires Repr(s.mem, s.trees[a]) && Repr(s'.mem, s'.trees[a])
    requires s'.procs[a] == s.procs[a].(sz := if ok && s.procs[a].sz + n >= 0 then s.procs[a].sz + n else s.procs[a].sz)
    requires var o, o' := Pages(s.procs[a].sz), Pages(s'.procs[a].sz);
             && SameMemory(s.mem, MapOf(s.mem, s.trees[a]), s'.mem, MapOf(s'.mem, s'.trees[a]), o, o')
             && FreshPages(s'.mem, MapOf(s'.mem, s'.trees[a]), o, o')
    requires !ok ==> n > 0 && |s.free| < 3 * (Pages(s.procs[a].sz + n) - Pages(s.procs[a].sz))
    ensures Grew(s, s', a, n, ok)
  {
  }

  /** A resized table leaves the machine in order. */
  lemma Regrown(s: Image, s': Image, rest: set<nat>, a: nat, sz: nat, t: Tree, trampoline: nat)
    requires Ok(s, rest) && Wired(s, trampoline) && a in s.procs && a in s.trees
    requires Repr(s.mem, s.trees[a]) && Repr(s'.mem, t)
    requires Resized(s.mem, s.free, s.trees[a], s'.mem, s'.free, t, Pages(s.procs[a].sz), Pages(sz))
    requires var h := Held(s'.mem, t, Pages(sz)) + {s.procs[a].trapframe};
             s' == Image(s'.mem, s'.free, s.procs[a := s.procs[a].(sz := sz)], s.trees[a := t], s.held[a := h])
    ensures Ok(s', rest) && OnlyTouched(s, s', a) && Wired(s', trampoline)
    ensures SameMemory(s.mem, MapOf(s.mem, s.trees[a]), s'.mem, MapOf(s'.mem, t), Pages(s.procs[a].sz), Pages(sz))
  {
    hide UserTable, Held, MapOf, Ok, UserOk, OnlyTouched, OthersKept, SameMemory, Wired, FixedPages, Resized, Repr,
         WiredOne, Pages;
    var u, o, table := s.procs[a], s.trees[a], Held(s'.mem, t, Pages(sz));
    OneUser(s, rest, a);
    OneWired(s, a, trampoline);
    ResizedParts(s.mem, s.free, o, s'.mem, s'.free, t, Pages(u.sz), Pages(sz));
    KeptMore(s.mem, s.free + Held(s.mem, o, Pages(u.sz)), s'.mem, s.free + s.held[a]);
    KeysKept(s.mem, s.free + s.held[a], s'.mem);
    FrameIsHeld(s'.mem, s'.free, t, Pages(sz));
    NewUser(s'.mem, s'.free, u.(sz := sz), t, table);
    WiredResized(s.mem, s.free, o, s'.mem, s'.free, t, Pages(u.sz), Pages(sz), trampoline, u.trapframe);
    Reshaped(s, s', rest, a, u.(sz := sz), t, table + {u.trapframe});
    WiredNow(s', a, trampoline);
    WiredKept(s, s', rest, a, trampoline);
  }

  lemma KeptMore(m: Mem, s: set<nat>, m': Mem, all: set<nat>)
    requires OthersKept(m, s, m') && s <= all
    ensures OthersKept(m, all, m')
  {
  }

  lemma OneWired(s: Image, a: nat, trampoline: nat)
    requires Wired(s, trampoline) && a in s.procs
    ensures a in s.trees && Repr(s.mem, s.trees[a])
    ensures FixedPages(MapOf(s.mem, s.trees[a]), trampoline, s.procs[a].trapframe)
  {
    assert WiredOne(s, a, trampoline);
  }

  /** The two pages lie above user memory, so resizing does not move them. */
  lemma WiredResized(m: Mem, f: set<nat>, t: Tree, m': Mem, f': set<nat>, t': Tree, n: nat, n': nat, trampoline: nat,
                     trapframe: nat)
    requires UserTable(m, f, t, n) && Repr(m', t') && Resized(m, f, t, m', f', t', n, n')
    requires FixedPages(MapOf(m, t), trampoline, trapframe)
    ensures FixedPages(MapOf(m', t'), trampoline, trapframe)
  {
    hide MapOf, MakePte, PtePage, Held, OthersKept, Private, Repr;
  }

  /** What each operation does to the state of all memory; one that names no process, or a pid in use, is
      refused. */
  ghost predicate Stepped(s: Image, op: Op, ok: bool, s': Image) {
    match op
    case Create(pid) =>
      if pid in s.procs then !ok && s' == s
      else
        && OnlyTouched(s, s', pid)
        && if ok then pid in s'.procs && s'.procs[pid].sz == 0 else s' == s.(mem := s'.mem) && |s.free| < 6
    case Sbrk(pid, n) =>
      if pid !in s.procs then !ok && s' == s
      else OnlyTouched(s, s', pid) && Grew(s, s', pid, n, ok)
    case Fork(pid, child) =>
      if pid !in s.procs || child in s.procs then !ok && s' == s
      else
        && OnlyTouched(s, s', child)
        && if ok then Twins(s', pid, child) else s' == s.(mem := s'.mem) && |s.free| < 6 + 3 * Pages(s.procs[pid].sz)
    case Exit(pid) =>
      if pid !in s.procs then !ok && s' == s
      else ok && OnlyTouched(s, s', pid) && pid !in s'.procs && pid in s.held && s'.free == s.free + s.held[pid]
  }

  /** The child has the parent's size, flags and contents, on pages of its own. */
  ghost predicate Twins(s: Image, a: nat, b: nat) {
    && a in s.procs && b in s.procs && a in s.trees && b in s.trees && s.procs[a].sz == s.procs[b].sz
    && CopyMade(s.mem, s.trees[a], s.trees[b], Pages(s.procs[a].sz))
  }

  ghost predicate CopyMade(m: Mem, o: Tree, t: Tree, n: nat) {
    Repr(m, o) && Repr(m, t) && Copied(m, MapOf(m, o), m, MapOf(m, t), n)
  }

  lemma MadeCopy(m0: Mem, f0: set<nat>, o: Tree, m: Mem, f: set<nat>, t: Tree, n: nat)
    requires UserTable(m0, f0, o, n) && UserTable(m, f, o, n) && UserTable(m, f, t, n) && OthersKept(m0, f0, m)
    requires MapOf(m, o) == MapOf(m0, o) && Copied(m0, MapOf(m, o), m, MapOf(m, t), n)
    ensures CopyMade(m, o, t, n)
  {
    hide UserTable, MapOf, Copied, OthersKept, Repr;
    UserTableParts(m, f, o, n);
    UserTableParts(m, f, t, n);
    CopiedNow(m0, f0, o, MapOf(m, o), m, MapOf(m, t), n);
  }

  lemma EmptyUser(m: Mem, f: set<nat>, u: User, t: Tree)
    requires t.root == u.pagetable && u.sz == 0 && UserTable(m, f, t, 0) && u.trapframe in m
    requires u.trapframe !in f + Tables(t)
    ensures UserOk(m, f, u, t, Tables(t) + {u.trapframe}) && f !! Tables(t)
  {
    hide UserTable, MapOf, UserOk;
    UserTableParts(m, f, t, 0);
    NoFrames(MapOf(m, t), 0);
    PageBound(0, 0);
    NewUser(m, f, u, t, Tables(t));
  }

  lemma CopiedNow(m0: Mem, f0: set<nat>, o: Tree, otr: map<nat, nat>, m: Mem, tr: map<nat, nat>, n: nat)
    requires UserTable(m0, f0, o, n) && MapOf(m0, o) == otr && OthersKept(m0, f0, m) && Copied(m0, otr, m, tr, n)
    ensures Copied(m, otr, m, tr, n)
  {
    hide MapOf, PtePage, PteFlags;
    FrameIsHeld(m0, f0, o, n);
  }

  lemma KeptBoth(m: Mem, s: set<nat>, m1: Mem, s1: set<nat>, m2: Mem, all: set<nat>)
    requires OthersKept(m, s, m1) && OthersKept(m1, s1, m2) && s <= all && s1 <= all
    ensures OthersKept(m, all, m2)
  {
  }

  lemma KeptSame(m: Mem)
    ensures OthersKept(m, {}, m)
  {
  }

  /** What the process held, seen from its table. */
  lemma OneUser(s: Image, rest: set<nat>, a: nat)
    requires Ok(s, rest) && a in s.procs
    ensures a in s.trees && a in s.held && UserOk(s.mem, s.free, s.procs[a], s.trees[a], s.held[a])
    ensures UserTable(s.mem, s.free, s.trees[a], Pages(s.procs[a].sz)) && s.trees[a].root == s.procs[a].pagetable
    ensures Repr(s.mem, s.trees[a])
    ensures s.held[a] == Held(s.mem, s.trees[a], Pages(s.procs[a].sz)) + {s.procs[a].trapframe} && s.held[a] !! s.free
    ensures s.procs[a].trapframe in s.mem && s.procs[a].trapframe !in Held(s.mem, s.trees[a], Pages(s.procs[a].sz))
  {
    hide UserTable, Held, MapOf, UserOk, Repr;
    assert UserOk(s.mem, s.free, s.procs[a], s.trees[a], s.held[a]);
    UserParts(s.mem, s.free, s.procs[a], s.trees[a], s.held[a]);
  }

  /** When all have exited, every page the kernel does not keep is free. */
  lemma NobodyLeft(s: Image, rest: set<nat>)
    requires Ok(s, rest) && s.procs == map[]
    ensures s.free == s.mem.Keys - rest
  {
    assert s.held.Keys == {};
  }

  class Machine {
    const k: Kernel
    const trampoline: nat
    var procs: map<nat, User>
    ghost var trees: map<nat, Tree>
    ghost var held: map<nat, set<nat>>
    ghost const rest: set<nat>      // pages the kernel keeps for itself

    ghost function Now(): Image
      reads this, k
    {
      Image(k.mem, k.FreeSet(), procs, trees, held)
    }

    ghost predicate Valid()
      reads this, k
    {
      k.Valid() && Ok(Now(), rest) && Wired(Now(), trampoline)
    }

    constructor (k: Kernel, trampoline: nat)
      requires k.Valid() && k.FreeSet() <= k.mem.Keys
      ensures Valid() && this.k == k && this.trampoline == trampoline && procs == map[]
      ensures rest == k.mem.Keys - k.FreeSet()
    {
      this.trampoline := trampoline;
      this.k, procs, trees, held := k, map[], map[], map[];
      rest := k.mem.Keys - k.FreeSet();
    }

    /** A trapframe and an empty user page table, or nothing. */
    method NewTable() returns (ok: bool, u: User, ghost t: Tree, ghost h: set<nat>)
      requires k.Valid()
      modifies k
      ensures k.Valid() && OthersKept(old(k.mem), old(k.FreeSet()), k.mem)
      ensures !ok ==> k.FreeSet() == old(k.FreeSet()) && |old(k.free)| < 6
      ensures ok ==>
        && UserOk(k.mem, k.FreeSet(), u, t, h) && k.FreeSet() !! h && k.FreeSet() + h == old(k.FreeSet()) && u.sz == 0
        && Repr(k.mem, t) && FixedPages(MapOf(k.mem, t), trampoline, u.trapframe)
    {
      hide UserTable, Held, MapOf, UserOk, OthersKept, Chain, MakePte, InRam;
      ghost var m0, f0 := k.mem, k.FreeSet();
      u, t, h := User(0, 0, 0), Tree(0, map[], map[]), {};
      var tf := k.Kalloc();
      ghost var m1, f1 := k.mem, k.FreeSet();
      if tf == 0 {
        KeptSame(m0);
        KeptBoth(m0, {}, m0, {}, m0, f0);
        return false, u, t, h;
      }
      var pagetable;
      pagetable, t := k.ProcPagetable(trampoline, tf);
      ghost var m2 := k.mem;
      KeptBoth(m0, {tf}, m1, f1, m2, f0);
      StillThere(m1, f1, m2, tf);
      if pagetable == 0 {
        k.Kfree(tf);
        KeptBoth(m0, f0, m2, {tf}, k.mem, f0);
        return false, u, t, h;
      }
      ok, u := true, User(pagetable, 0, tf);
      h := Tables(t) + {tf};
      UserTableParts(k.mem, k.FreeSet(), t, 0);
      EmptyUser(k.mem, k.FreeSet(), u, t);
    }

    /** The memory part of `allocproc`. */
    method AllocProc(pid: nat) returns (ok: bool)
      requires Valid() && pid !in procs
      modifies this, k
      ensures Valid() && OnlyTouched(old(Now()), Now(), pid)
      ensures !ok ==> Now() == old(Now()).(mem := k.mem) && |old(Now()).free| < 6
      ensures ok ==> pid in procs && procs[pid].sz == 0
    {
      hide Ok, UserOk, OnlyTouched, OthersKept, Wired, FixedPages, Chain;
      ghost var s0 := Now();
      k.FreeCount();
      var u;
      ghost var t, h;
      ok, u, t, h := NewTable();
      if !ok {
        FreePagesOnly(s0, Now(), rest, pid);
        WiredKept(s0, Now(), rest, pid, trampoline);
        return;
      }
      procs, trees, held := procs[pid := u], trees[pid := t], held[pid := h];
      Entered(s0, Now(), rest, pid, u, t, h);
      WiredKept(s0, Now(), rest, pid, trampoline);
    }

    /** `growproc`. */
    method GrowProc(pid: nat, n: int) returns (ok: bool)
      requires Valid() && pid in procs && -0x8000_0000 <= n < 0x8000_0000
      modifies this, k
      ensures Valid() && OnlyTouched(old(Now()), Now(), pid) && Grew(old(Now()), Now(), pid, n, ok)
    {
      hide Held, MapOf, Ok, OnlyTouched, Chain, Wired, FixedPages, FreshPages, Resized, Grew, Repr, UserTable, UserOk;
      ghost var s0 := Now();
      k.FreeCount();
      OneUser(s0, rest, pid);
      var u := procs[pid];
      ghost var t := trees[pid];
      var sz;
      ghost var t';
      ok, sz, t' := k.GrowProc(u.pagetable, u.sz, n, t);
      procs, trees := procs[pid := u.(sz := sz)], trees[pid := t'];
      held := held[pid := Held(k.mem, t', Pages(sz)) + {u.trapframe}];
      Regrown(s0, Now(), rest, pid, sz, t', trampoline);
      GrewNow(s0, Now(), pid, n, ok);
    }

    /** A trapframe and a table with a copy of the parent's memory, or nothing. */
    method TableCopy(u: User, ghost o: Tree)
      returns (ok: bool, u': User, ghost t: Tree, ghost h: set<nat>)
      requires k.Valid() && o.root == u.pagetable && UserTable(k.mem, k.FreeSet(), o, Pages(u.sz))
      modifies k
      ensures k.Valid() && OthersKept(old(k.mem), old(k.FreeSet()), k.mem)
      ensures !ok ==> k.FreeSet() == old(k.FreeSet()) && |old(k.free)| < 6 + 3 * Pages(u.sz)
      ensures ok ==>
        && UserOk(k.mem, k.FreeSet(), u', t, h) && k.FreeSet() !! h && k.FreeSet() + h == old(k.FreeSet())
        && u'.sz == u.sz
      ensures ok ==> CopyMade(k.mem, o, t, Pages(u.sz)) && Repr(k.mem, t)
      ensures ok ==> FixedPages(MapOf(k.mem, t), trampoline, u'.trapframe)
    {
      hide UserTable, Held, MapOf, UserOk, OthersKept, Chain, Copied, InRam, CopyMade, Repr, Tables, FixedPages;
      ghost var m0, f0 := k.mem, k.FreeSet();
      u', t, h := User(0, 0, 0), Tree(0, map[], map[]), {};
      var tf := k.Kalloc();
      ghost var m1, f1 := k.mem, k.FreeSet();
      if tf == 0 {
        KeptSame(m0);
        KeptBoth(m0, {}, m0, {}, m0, f0);
        return false, u', t, h;
      }
      UserTableParts(m0, f0, o, Pages(u.sz));
      FrameIsHeld(m0, f0, o, Pages(u.sz));
      Bystander(m0, f0, m1, f1, {tf}, o, Pages(u.sz));
      var pagetable;
      pagetable, t := k.ForkMemory(u.pagetable, u.sz, trampoline, tf, o);
      ghost var m2 := k.mem;
      KeptBoth(m0, {tf}, m1, f1, m2, f0);
      StillThere(m1, f1, m2, tf);
      if pagetable == 0 {
        k.Kfree(tf);
        KeptBoth(m0, f0, m2, {tf}, k.mem, f0);
        return false, u', t, h;
      }
      ok, u' := true, User(pagetable, u.sz, tf);
      UserTableParts(k.mem, k.FreeSet(), t, Pages(u.sz));
      h := Held(k.mem, t, Pages(u.sz)) + {tf};
      NewUser(k.mem, k.FreeSet(), u', t, Held(k.mem, t, Pages(u.sz)));
      MadeCopy(m1, f1, o, k.mem, k.FreeSet(), t, Pages(u.sz));
    }

    /** The memory part of `fork`. */
    method Fork(pid: nat, child: nat) returns (ok: bool)
      requires Valid() && pid in procs && child !in procs
      modifies this, k
      ensures Valid() && OnlyTouched(old(Now()), Now(), child)
      ensures !ok ==> Now() == old(Now()).(mem := k.mem) && |old(Now()).free| < 6 + 3 * Pages(old(procs)[pid].sz)
      ensures ok ==> Twins(Now(), pid, child)
    {
      hide UserTable, Ok, UserOk, OnlyTouched, OthersKept, CopyMade, Held, Repr, Wired, FixedPages, MapOf, Chain;
      ghost var s0 := Now();
      k.FreeCount();
      OneUser(s0, rest, pid);
      var u := procs[pid];
      var u';
      ghost var t, h;
      ok, u', t, h := TableCopy(u, trees[pid]);
      if !ok {
        FreePagesOnly(s0, Now(), rest, child);
        WiredKept(s0, Now(), rest, child, trampoline);
        return;
      }
      procs, trees, held := procs[child := u'], trees[child := t], held[child := h];
      Entered(s0, Now(), rest, child, u', t, h);
      WiredKept(s0, Now(), rest, child, trampoline);
    }

    /** The memory part of `freeproc`: everything the process held is free again. */
    method FreeProc(pid: nat)
      requires Valid() && pid in procs
      modifies this, k
      ensures Valid() && OnlyTouched(old(Now()), Now(), pid) && pid !in procs
      ensures pid in old(held) && k.FreeSet() == old(k.FreeSet()) + old(held)[pid]
    {
      hide UserTable, Held, MapOf, Ok, UserOk, OnlyTouched, OthersKept, Chain, Wired, FixedPages;
      ghost var s0 := Now();
      OneUser(s0, rest, pid);
      var u := procs[pid];
      ghost var t := trees[pid];
      k.Kfree(u.trapframe);
      ghost var m1 := k.mem;
      Bystander(s0.mem, s0.free, m1, k.FreeSet(), {u.trapframe}, t, Pages(u.sz));
      UserTableParts(m1, k.FreeSet(), t, Pages(u.sz));
      k.ProcFreePagetable(u.pagetable, u.sz, t);
      KeptBoth(s0.mem, {u.trapframe}, m1, Held(m1, t, Pages(u.sz)), k.mem, s0.free + s0.held[pid]);
      procs, trees, held := procs - {pid}, trees - {pid}, held - {pid};
      Left(s0, Now(), rest, pid);
      WiredKept(s0, Now(), rest, pid, trampoline);
    }

    /** Any sequence of operations, by any number of processes. Each does what `Stepped` says. */
    method Run(ops: seq<Op>) returns (oks: seq<bool>, ghost hist: seq<Image>)
      requires Valid()
      requires forall i :: 0 <= i < |ops| && ops[i].Sbrk? ==> -0x8000_0000 <= ops[i].n < 0x8000_0000
      modifies this, k
      ensures Valid() && k.mem.Keys == old(k.mem.Keys)
      ensures procs == map[] ==> k.FreeSet() == k.mem.Keys - rest
      ensures |oks| == |ops| && |hist| == |ops| + 1 && hist[0] == old(Now()) && hist[|ops|] == Now()
      ensures forall i :: 0 <= i < |ops| ==> Stepped(hist[i], ops[i], oks[i], hist[i + 1])
    {
      hide Ok, Grew, Twins, Isolated, Stepped, Wired;
      oks, hist := [], [Now()];
      for i := 0 to |ops|
        invariant Valid() && k.mem.Keys == old(k.mem.Keys)
        invariant |oks| == i && |hist| == i + 1 && hist[0] == old(Now()) && hist[i] == Now()
        invariant forall j :: 0 <= j < i ==> Stepped(hist[j], ops[j], oks[j], hist[j + 1])
      {
        var ok := Perform(ops[i]);
        oks, hist := oks + [ok], hist + [Now()];
      }
      if procs == map[] {
        NobodyLeft(Now(), rest);
      }
    }

    method Perform(op: Op) returns (ok: bool)
      requires Valid() && (op.Sbrk? ==> -0x8000_0000 <= op.n < 0x8000_0000)
      modifies this, k
      ensures Valid() && k.mem.Keys == old(k.mem.Keys) && Stepped(old(Now()), op, ok, Now())
    {
      hide Ok, Grew, Twins, Isolated, Wired;
      ok := false;
      match op
      case Create(pid) =>
        if pid !in procs {
          ok := AllocProc(pid);
        }
      case Sbrk(pid, n) =>
        if pid in procs {
          ok := GrowProc(pid, n);
        }
      case Fork(pid, child) =>
        if pid in procs && child !in procs {
          ok := Fork(pid, child);
        }
      case Exit(pid) =>
        if pid in procs {
          FreeProc(pid);
          ok := true;
        }
    }
  }

  datatype Op = Create(pid: nat) | Sbrk(pid: nat, n: int) | Fork(pid: nat, child: nat) | Exit(pid: nat)

  lemma StillThere(m: Mem, touched: set<nat>, m': Mem, p: nat)
    requires OthersKept(m, touched, m') && p in m
    ensures p in m'
  {
  }
}
