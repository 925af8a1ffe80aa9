/** What the hardware makes of a page table: the Sv39 translation of the RISC-V privileged architecture
    (section "Virtual Address Translation Process"), without accessed and dirty bits. */
module Mmu {
  import opened Basics
  import opened Sv39
  import opened Vm

  datatype Access = Fetch | Load | Store

  datatype Hit = Hit(pa: nat, flags: nat)

  /** Bytes that an entry at `level` translates. */
  function Reach(level: nat): (bytes: nat)
    ensures bytes > 0
  {
    if level == 0 then 4096 else 512 * Reach(level - 1)
  }

  /** The five low bits of an entry. */
  predicate V(e: nat) { e % 2 == 1 }
  predicate R(e: nat) { e / 2 % 2 == 1 }
  predicate W(e: nat) { e / 4 % 2 == 1 }
  predicate X(e: nat) { e / 8 % 2 == 1 }
  predicate U(e: nat) { e / 16 % 2 == 1 }

  /** The physical address and the flags found for `va` from the table in page `a` on, or a fault. */
  function Translate(m: Mem, a: nat, level: nat, va: nat): Option<Hit>
    decreases level
  {
    if a !in m then None
    else
      var e := m[a][va / Reach(level) % 512];
      if !V(e) || (W(e) && !R(e)) then None
      else if R(e) || X(e) then
        var pa := e / 1024 * 4096;
        if pa % Reach(level) != 0 then None else Some(Hit(pa + va % Reach(level), e % 1024))
      else if level == 0 then None
      else Translate(m, e / 1024, level - 1, va)
  }

  /** A process in user mode may do this at `va`. */
  predicate UserMay(m: Mem, root: nat, va: nat, access: Access) {
    match Translate(m, root, 2, va)
    case None => false
    case Some(hit) =>
      U(hit.flags) && match access { case Load => R(hit.flags) case Store => W(hit.flags) case Fetch => X(hit.flags) }
  }

  /** The eight-byte word a load at `va` gets. */
  function Sees(m: Mem, root: nat, va: nat): Option<nat> {
    match Translate(m, root, 2, va)
    case None => None
    case Some(hit) => if hit.pa / 4096 in m then Some(m[hit.pa / 4096][hit.pa % 4096 / 8]) else None
  }

  lemma Bits(e: nat)
    ensures (V(e) <==> PteValid(e)) && (R(e) || W(e) || X(e) <==> PteLeaf(e))
  {
    var y, z, r := e / 2, e / 2 / 8, e / 2 % 8;
    Shifts(e);
    Parity(4 * z, r);
    Halves(4 * z, r);
    Parity(2 * z, r / 2);
    Halves(2 * z, r / 2);
    Parity(z, r / 2 / 2);
    ThreeBits(r);
  }

  lemma Shifts(e: nat)
    ensures e / 4 == e / 2 / 2 && e / 8 == e / 2 / 2 / 2
  {
  }

  lemma ThreeBits(r: nat)
    requires r < 8
    ensures r % 2 == 1 || r / 2 % 2 == 1 || r / 2 / 2 % 2 == 1 <==> r != 0
  {
  }

  lemma Spans()
    ensures Reach(0) == 0x1000 && Reach(1) == 0x20_0000 && Reach(2) == 0x4000_0000
  {
  }

  /** What leaf entry `e` makes of an address in its page. */
  function Through(e: nat, va: nat): Option<Hit> {
    if W(e) && !R(e) then None else Some(Hit(e / 1024 * 4096 + va % 4096, e % 1024))
  }

  /** One level: an entry that points to a table leads there, an invalid one is a fault. */
  lemma Descends(m: Mem, a: nat, level: nat, va: nat)
    requires a in m && level > 0
    ensures var e := m[a][va / Reach(level) % 512];
            && (!PteValid(e) ==> Translate(m, a, level, va) == None)
            && (PteValid(e) && !PteLeaf(e) ==> Translate(m, a, level, va) == Translate(m, PtePage(e), level - 1, va))
  {
    hide V, R, W, X;
    Bits(m[a][va / Reach(level) % 512]);
  }

  lemma Lands(m: Mem, a: nat, va: nat)
    requires a in m
    ensures var e := m[a][va / 0x1000 % 512];
            && (!PteValid(e) ==> Translate(m, a, 0, va) == None)
            && (PteValid(e) && PteLeaf(e) ==> Translate(m, a, 0, va) == Through(e, va))
  {
    hide V, R, W, X;
    Bits(m[a][va / 0x1000 % 512]);
  }

  /** The hardware translates exactly the pages of the map, to the frame and with the flags it says; an
      entry that is writable but not readable, which the architecture reserves, is a fault. */
  lemma HardwareAgrees(m: Mem, t: Tree, va: nat, q: nat)
    requires Repr(m, t) && q < MAXVPN && q * 4096 <= va < (q + 1) * 4096
    ensures Translate(m, t.root, 2, va) == if q in MapOf(m, t) then Through(MapOf(m, t)[q], va) else None
  {
    hide Through, V, R, W, X, PteValid, PteLeaf, PtePage, At, Translate;
    Spans();
    IndexFields(va, q);
    var i, k, n := va / 0x4000_0000 % 512, va / 0x20_0000 % 512, va / 0x1000 % 512;
    assert At(q) == Vp(i, k, n);
    Descends(m, t.root, 2, va);
    assert q in MapOf(m, t) <==> Leaf(m, t, At(q)).Some?;
    if i in t.mid {
      assert PointsTo(m[t.root][i], t.mid[i]);
      Descends(m, t.mid[i], 1, va);
      if (i, k) in t.low {
        assert PointsTo(m[t.mid[i]][k], t.low[(i, k)]);
        Lands(m, t.low[(i, k)], va);
      }
    }
  }

  /** The low bits of an entry are those of its flags. */
  lemma LowBits(e: nat)
    ensures var r := e % 1024; R(e) == R(r) && W(e) == W(r)
  {
    var d, r := e / 1024, e % 1024;
    assert e == 1024 * d + r;
    Halves(512 * d, r);
    Halves(256 * d, r / 2);
    Shifts(e);
    Shifts(r);
    Parity(256 * d, r / 2);
    Parity(128 * d, r / 2 / 2);
  }

  lemma Halves(k: nat, r: nat)
    ensures (2 * k + r) / 2 == k + r / 2
  {
  }

  lemma Parity(k: nat, r: nat)
    ensures (2 * k + r) % 2 == r % 2
  {
  }

  lemma FreshThrough(e: nat, va: nat)
    requires e % 1024 == 0x17
    ensures Through(e, va) == Some(Hit(e / 1024 * 4096 + va % 4096, 0x17))
    ensures R(0x17) && W(0x17) && !X(0x17) && U(0x17)
    ensures (e / 1024 * 4096 + va % 4096) / 4096 == e / 1024 && (e / 1024 * 4096 + va % 4096) % 4096 == va % 4096
  {
    LowBits(e);
    Offset(e / 1024, va % 4096);
  }

  /** At every address of memory that `sbrk` handed out the process can load and store, not execute, and
      loads find zero. */
  lemma FreshIsUsable(m: Mem, t: Tree, lo: nat, hi: nat, va: nat)
    requires Repr(m, t) && FreshPages(m, MapOf(m, t), lo, hi) && hi <= MAXVPN && lo * 4096 <= va < hi * 4096
    ensures UserMay(m, t.root, va, Load) && UserMay(m, t.root, va, Store) && !UserMay(m, t.root, va, Fetch)
    ensures Sees(m, t.root, va) == Some(0)
  {
    hide Translate, MapOf, Through, U, R, W, X, Separate, Spells;
    var q := va / 4096;
    HardwareAgrees(m, t, va, q);
    FreshThrough(MapOf(m, t)[q], va);
  }

  lemma FixedFlags(p: nat)
    ensures MakePte(p, PTE_R + PTE_X) == 1024 * p + 11 && MakePte(p, PTE_R + PTE_W) == 1024 * p + 7
  {
  }

  lemma FlagsOf(p: nat, f: nat)
    requires f < 1024
    ensures (1024 * p + f) % 1024 == f && (1024 * p + f) / 1024 == p
  {
  }

  /** In the trampoline and the trapframe user code can do nothing; the kernel finds the one executable and
      the other writable, each in its frame. */
  lemma FixedIsForTheKernel(m: Mem, t: Tree, trampoline: nat, trapframe: nat, va: nat, access: Access)
    requires Repr(m, t) && FixedPages(MapOf(m, t), trampoline, trapframe)
    requires TRAPFRAME_PAGE * 4096 <= va < MAXVPN * 4096
    ensures !UserMay(m, t.root, va, access)
    ensures var hit := Translate(m, t.root, 2, va);
            && hit.Some? && R(hit.value.flags)
            && (va >= 0x3F_FFFF_F000 ==>
                  X(hit.value.flags) && !W(hit.value.flags) && hit.value.pa == trampoline * 4096 + va % 4096)
            && (va < 0x3F_FFFF_F000 ==>
                  W(hit.value.flags) && !X(hit.value.flags) && hit.value.pa == trapframe * 4096 + va % 4096)
  {
    hide Translate, MapOf, MakePte, Repr;
    var q := va / 4096;
    HardwareAgrees(m, t, va, q);
    FixedFlags(trampoline);
    FixedFlags(trapframe);
    FlagsOf(trampoline, 11);
    FlagsOf(trapframe, 7);
    LowBits(1024 * trampoline + 11);
    LowBits(1024 * trapframe + 7);
  }

  /** Entries with equal flags, to frames with equal contents. */
  lemma SameThrough(m: Mem, e: nat, e': nat, va: nat)
    requires e % 1024 == e' % 1024 && e / 1024 in m && e' / 1024 in m && m[e / 1024] == m[e' / 1024]
    ensures Through(e, va).Some? <==> Through(e', va).Some?
    ensures Through(e, va).Some? ==>
      var h, h' := Through(e, va).value, Through(e', va).value;
      h.flags == h'.flags && h.pa / 4096 == e / 1024 && h'.pa / 4096 == e' / 1024 && h.pa % 4096 == h'.pa % 4096
  {
    hide R, W;
    LowBits(e);
    LowBits(e');
    Offset(e / 1024, va % 4096);
    Offset(e' / 1024, va % 4096);
  }

  lemma Offset(p: nat, x: nat)
    requires x < 4096
    ensures (p * 4096 + x) / 4096 == p && (p * 4096 + x) % 4096 == x
  {
  }

  /** A forked child may do at every address what its parent may, and finds the same there. */
  lemma ChildSeesTheSame(m: Mem, o: Tree, t: Tree, n: nat, va: nat, access: Access)
    requires Repr(m, o) && Repr(m, t) && Copied(m, MapOf(m, o), m, MapOf(m, t), n) && n <= MAXVPN && va < n * 4096
    ensures UserMay(m, t.root, va, access) <==> UserMay(m, o.root, va, access)
    ensures Sees(m, t.root, va) == Sees(m, o.root, va)
  {
    hide Translate, MapOf, U, W, R, X, Through, Separate, Spells;
    var q := va / 4096;
    HardwareAgrees(m, o, va, q);
    HardwareAgrees(m, t, va, q);
    assert q in Range(0, n);
    SameThrough(m, MapOf(m, o)[q], MapOf(m, t)[q], va);
  }
}
