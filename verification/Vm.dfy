/** `kalloc.c` and `vm.c` over one physical memory: a free list threaded through the free pages
    themselves, and page tables built and torn down in place. */
module Vm {
  import opened Basics
  import opened Sv39

  const ZERO_PAGE: Page := seq(ENTRIES, _ => 0)
  const FREE_JUNK: nat := 0x0101_0101_0101_0101
  const ALLOC_JUNK: nat := 0x0505_0505_0505_0505

  /** Starting at `head`, word 0 of each free page leads to the next, and 0 ends the list. */
  ghost predicate Chain(m: Mem, head: nat, free: seq<nat>)
    decreases |free|
  {
    if free == [] then head == 0
    else head == free[0] && head in m && head !in free[1..] && Chain(m, m[head][0], free[1..])
  }

  /** The free list names each page once. */
  lemma {:induction false} ChainSize(m: Mem, head: nat, free: seq<nat>)
    requires Chain(m, head, free)
    ensures |SetOf(free)| == |free|
    decreases |free|
  {
    if free != [] {
      ChainSize(m, m[head][0], free[1..]);
      assert SetOf(free) == {free[0]} + SetOf(free[1..]);
    }
  }

  lemma {:induction false} ChainFrame(m: Mem, m': Mem, head: nat, free: seq<nat>)
    requires Chain(m, head, free)
    requires forall p :: p in free && p in m ==> p in m' && m'[p] == m[p]
    ensures Chain(m', head, free) && forall p :: p in free ==> p in m
    decreases |free|
  {
    if free != [] {
      assert forall p :: p in free[1..] ==> p in free;
      ChainFrame(m, m', m[head][0], free[1..]);
      assert free == [free[0]] + free[1..];
    }
  }

  ghost function SetOf(s: seq<nat>): set<nat> { set p | p in s }

  predicate Within(lo: nat, q: nat, hi: nat) { lo <= q < hi }

  ghost function Range(lo: nat, hi: nat): set<nat> { set q: nat | q < hi && Within(lo, q, hi) }

  /** The machine's RAM, from KERNBASE to PHYSTOP. */
  const FIRST_PAGE: nat := 0x8_0000
  const RAM_PAGES: nat := 0x8000

  /** Allocatable memory lies in RAM; in particular page 0 is not part of it. */
  ghost predicate InRam(m: Mem) {
    forall p :: p in m ==> FIRST_PAGE <= p < FIRST_PAGE + RAM_PAGES
  }

  /** Pages outside `touched` keep their contents, and no page appears or vanishes. */
  ghost predicate OthersKept(m: Mem, touched: set<nat>, m': Mem) {
    && m'.Keys == m.Keys
    && forall p :: p in m && p !in touched ==> m'[p] == m[p]
  }

  /** Exactly the pages that left the free set became new tables of the tree or joined `data`. */
  ghost predicate Accounted(f: set<nat>, t: Tree, f': set<nat>, t': Tree, data: set<nat>) {
    && t'.root == t.root && Tables(t) <= Tables(t')
    && f == f' + (Tables(t') - Tables(t)) + data
    && data !! f' && data !! Tables(t')
  }

  /** The tree has at most gained table pages taken from the free set. */
  ghost predicate Grown(m: Mem, f: set<nat>, t: Tree, m': Mem, f': set<nat>, t': Tree) {
    Accounted(f, t, f', t', {}) && OthersKept(m, Tables(t) + f, m')
  }

  lemma GrownRefl(m: Mem, f: set<nat>, t: Tree)
    ensures Grown(m, f, t, m, f, t)
  {
  }

  lemma GrownTrans(m: Mem, f: set<nat>, t: Tree, m1: Mem, f1: set<nat>, t1: Tree, m2: Mem, f2: set<nat>, t2: Tree)
    requires Grown(m, f, t, m1, f1, t1) && Grown(m1, f1, t1, m2, f2, t2)
    ensures Grown(m, f, t, m2, f2, t2)
  {
  }

  /** The table page `walk` has reached with `level` levels still to go. */
  ghost predicate Reached(t: Tree, va: nat, level: nat, page: nat)
    requires level <= 2
  {
    if level == 2 then page == t.root
    else if level == 1 then Px(2, va) in t.mid && page == t.mid[Px(2, va)]
    else (Px(2, va), Px(1, va)) in t.low && page == t.low[(Px(2, va), Px(1, va))]
  }

  lemma TopIndex(va: nat)
    requires va < MAXVA
    ensures Px(2, va) < TOP_ENTRIES
  {
  }

  /** An entry of a table page on the path is valid exactly when the next table exists. */
  lemma NextTable(m: Mem, t: Tree, va: nat, level: nat, page: nat)
    requires Repr(m, t) && 1 <= level <= 2 && Reached(t, va, level, page)
    ensures page in m && page in Tables(t)
    ensures var e := m[page][Px(level, va)];
            && (PteValid(e) ==> Reached(t, va, level - 1, PtePage(e)))
            && (!PteValid(e) ==> (Px(2, va), Px(1, va)) !in t.low && (level == 2 ==> Px(2, va) !in t.mid))
  {
  }

  lemma LeafFlags(e: nat)
    requires PteLeaf(e)
    ensures PteFlags(e) != 1
  {
    EvenPart(e / 1024, e % 1024);
    Modulus8(64 * (e / 1024), e % 1024 / 2);
  }

  /** A mapped page's entry is where `walk` finds it, valid and a leaf. */
  lemma MappedEntry(m: Mem, t: Tree, va: nat, q: nat)
    requires Repr(m, t) && va == q * PGSIZE && q in MapOf(m, t)
    ensures (Px(2, va), Px(1, va)) in t.low
    ensures var page := t.low[(Px(2, va), Px(1, va))];
            && page in m && MapOf(m, t)[q] == m[page][Px(0, va)]
            && PteValid(m[page][Px(0, va)]) && PteFlags(m[page][Px(0, va)]) != 1
  {
    hide Px, At, PteValid, PteLeaf, PteFlags;
    IndexFields(va, q);
    assert Leaf(m, t, At(q)).Some?;
    LeafFlags(m[t.low[(Px(2, va), Px(1, va))]][Px(0, va)]);
  }

  /** `walk` finds the entry of a page; it is valid exactly when the page is mapped. */
  lemma MappedAt(m: Mem, t: Tree, va: nat, q: nat)
    requires Repr(m, t) && q < MAXVPN && va == q * PGSIZE
    ensures q in MapOf(m, t) <==>
      && (Px(2, va), Px(1, va)) in t.low && t.low[(Px(2, va), Px(1, va))] in m
      && PteValid(m[t.low[(Px(2, va), Px(1, va))]][Px(0, va)])
  {
    hide PteValid, Px, At;
    IndexFields(va, q);
  }

  lemma SlotAt(m: Mem, t: Tree, va: nat, page: nat)
    requires Repr(m, t) && Reached(t, va, 0, page)
    ensures page in m && (Px(2, va), Px(1, va)) in t.low && page == t.low[(Px(2, va), Px(1, va))]
  {
    hide Px;
  }

  lemma FlagsAreLeafPerm(m: Mem, t: Tree, q: nat, e: nat)
    requires Repr(m, t) && q in MapOf(m, t) && MapOf(m, t)[q] == e
    ensures LeafPerm(PteFlags(e)) && PteFlags(e) / 2 * 2 + 1 == PteFlags(e)
  {
    hide At, PteValid, PteLeaf;
    assert Leaf(m, t, At(q)) == Some(e);
    assert PteValid(e) && PteLeaf(e);
    FlagBits(e);
  }

  lemma FlagBits(e: nat)
    requires PteValid(e) && PteLeaf(e)
    ensures LeafPerm(PteFlags(e)) && PteFlags(e) / 2 * 2 + 1 == PteFlags(e)
  {
    var d, r := e / 1024, e % 1024;
    EvenPart(d, r);
    Modulus8(64 * d, r / 2);
  }

  lemma TablesInMem(m: Mem, t: Tree)
    requires InMem(m, t)
    ensures Tables(t) <= m.Keys
  {
  }

  /** A page popped off the free list, zeroed and hung into slot `k` of the table page above it. */
  lemma Hang(m: Mem, m': Mem, t: Tree, t': Tree, top: Option<nat>, k: nat, child: nat, f: set<nat>, f': set<nat>)
    requires Repr(m, t) && Tables(t) !! f && k < ENTRIES
    requires child in m && child !in f' && f == f' + {child}
    requires top.None? ==> k < TOP_ENTRIES && k !in t.mid && t' == t.(mid := t.mid[k := child])
    requires top.Some? ==> top.value in t.mid && (top.value, k) !in t.low
                           && t' == t.(low := t.low[(top.value, k) := child])
    requires var z := m[child := ZERO_PAGE]; var page := if top.None? then t.root else t.mid[top.value];
             m' == z[page := z[page][k := MakePte(child, 0)]]
    ensures Repr(m', t') && Tables(t') !! f' && MapOf(m', t') == MapOf(m, t) && Grown(m, f, t, m', f', t')
  {
    hide MapOf, Separate, Spells, MakePte;
    var z := m[child := ZERO_PAGE];
    assert child !in Tables(t);
    ReprFrame(m, z, t);
    if top.None? {
      AddMid(z, m', t, t', k, child);
    } else {
      AddLow(z, m', t, t', top.value, k, child);
    }
    assert (if top.None? then t.root else t.mid[top.value]) in Tables(t);
  }

  /** `tr` is `tr0` with `n` pages from `lo` on mapped onto consecutive memory from page `p` on. */
  ghost predicate RunAdded(tr0: map<nat, nat>, tr: map<nat, nat>, lo: nat, n: nat, p: nat, perm: nat) {
    && tr.Keys == tr0.Keys + Range(lo, lo + n)
    && (forall q :: q in tr0 && q !in Range(lo, lo + n) ==> tr[q] == tr0[q])
    && (forall q :: q in Range(lo, lo + n) ==> tr[q] == MakePte(p + (q - lo), perm))
  }

  lemma RunNothing(tr: map<nat, nat>, lo: nat, p: nat, perm: nat)
    ensures RunAdded(tr, tr, lo, 0, p, perm)
  {
  }

  /** These `n` pages exist and are not mapped. */
  ghost predicate Clear(tr: map<nat, nat>, lo: nat, n: nat) {
    forall q: nat :: lo <= q < lo + n ==> q < MAXVPN && q !in tr
  }

  lemma ClearNothing(tr: map<nat, nat>, lo: nat)
    ensures Clear(tr, lo, 0)
  {
  }

  lemma ClearAt(tr: map<nat, nat>, lo: nat, n: nat)
    requires Clear(tr, lo, n) && lo + n < MAXVPN
    ensures lo + n !in tr ==> Clear(tr, lo, n + 1)
  {
  }

  /** The page after the run is mapped if it was, and otherwise extends the run. */
  lemma RunAt(tr0: map<nat, nat>, tr: map<nat, nat>, lo: nat, n: nat, p: nat, perm: nat)
    requires RunAdded(tr0, tr, lo, n, p, perm)
    ensures lo + n in tr <==> lo + n in tr0
    ensures lo + n !in tr0 ==> RunAdded(tr0, tr[lo + n := MakePte(p + n, perm)], lo, n + 1, p, perm)
  {
    hide MakePte;
  }

  /** The memory pages that virtual pages `lo <= q < hi` are mapped to. */
  ghost function Frames(tr: map<nat, nat>, lo: nat, hi: nat): set<nat> {
    set q | q in tr && Within(lo, q, hi) :: PtePage(tr[q])
  }

  lemma NoFrames(tr: map<nat, nat>, lo: nat)
    ensures Range(lo, lo) == {} && Frames(tr, lo, lo) == {}
  {
  }

  lemma FramesNext(tr: map<nat, nat>, lo: nat, hi: nat)
    requires lo <= hi && hi in tr
    ensures Frames(tr, lo, hi + 1) == Frames(tr, lo, hi) + {PtePage(tr[hi])}
    ensures Range(lo, hi + 1) == Range(lo, hi) + {hi}
  {
    assert Within(lo, hi, hi + 1);
    forall p | p in Frames(tr, lo, hi)
      ensures p in Frames(tr, lo, hi + 1)
    {
      var q :| q in tr && Within(lo, q, hi) && PtePage(tr[q]) == p;
      assert Within(lo, q, hi + 1);
    }
  }

  /** Each of these pages has a memory page to itself, which is neither free nor a table. */
  ghost predicate Private(m: Mem, f: set<nat>, t: Tree, tr: map<nat, nat>, lo: nat, hi: nat) {
    && (forall q :: q in Range(lo, hi) ==>
          q in tr && PtePage(tr[q]) in m && PtePage(tr[q]) !in Tables(t) && PtePage(tr[q]) !in f)
    && (forall q, r :: q in Range(lo, hi) && r in Range(lo, hi) && q != r ==> PtePage(tr[q]) != PtePage(tr[r]))
  }

  lemma NotYetFreed(m: Mem, f: set<nat>, t: Tree, tr: map<nat, nat>, lo: nat, k: nat, hi: nat)
    requires Private(m, f, t, tr, lo, hi) && lo <= k < hi
    ensures k in tr
    ensures var p := PtePage(tr[k]); p in m && p !in Tables(t) && p !in f + Frames(tr, lo, k)
  {
    assert k in Range(lo, hi);
    assert forall q :: q in tr && Within(lo, q, k) ==> q in Range(lo, hi) && q != k;
  }

  lemma AccountNothing(f: set<nat>, t: Tree)
    ensures Accounted(f, t, f, t, {})
  {
  }

  /** A page taken first and the tables taken while mapping it, put together. */
  lemma AccountPage(f: set<nat>, t: Tree, f1: set<nat>, f2: set<nat>, t': Tree, p: nat)
    requires f == f1 + {p} && p !in f1 && Tables(t) !! f && Accounted(f1, t, f2, t', {})
    ensures Accounted(f, t, f2, t', {p}) && p !in f2 && p !in Tables(t')
    ensures Accounted(f, t, f2 + {p}, t', {})
  {
  }

  /** Flags and contents a freshly mapped page should have. */
  type Wanted = nat -> (nat, Page)

  /** From memory `m0`, free set `f0`, tree `t` and map `tr0`, exactly the pages `lo <= q < hi` have
      been added, each on a page of its own that was free, with the wanted flags and contents. */
  ghost predicate Added(m0: Mem, f0: set<nat>, t: Tree, tr0: map<nat, nat>,
                        m: Mem, f: set<nat>, t': Tree, tr: map<nat, nat>, lo: nat, hi: nat, want: Wanted)
  {
    && Private(m, f, t', tr, lo, hi)
    && tr - Range(lo, hi) == tr0
    && Accounted(f0, t, f, t', Frames(tr, lo, hi))
    && OthersKept(m0, Tables(t) + f0, m)
    && (forall q :: q in Range(lo, hi) ==> PteFlags(tr[q]) == want(q).0 && m[PtePage(tr[q])] == want(q).1)
  }

  lemma AddedNothing(m: Mem, f: set<nat>, t: Tree, tr: map<nat, nat>, lo: nat, want: Wanted)
    ensures Added(m, f, t, tr, m, f, t, tr, lo, lo, want)
  {
    NoFrames(tr, lo);
  }

  lemma FramesUpdate(tr: map<nat, nat>, lo: nat, hi: nat, e: nat)
    requires lo <= hi
    ensures Frames(tr[hi := e], lo, hi + 1) == Frames(tr, lo, hi) + {PtePage(e)}
    ensures Range(lo, hi + 1) == Range(lo, hi) + {hi} && hi !in Range(lo, hi)
  {
    var tr' := tr[hi := e];
    FramesNext(tr', lo, hi);
    forall p | p in Frames(tr, lo, hi)
      ensures p in Frames(tr', lo, hi)
    {
      var q :| q in tr && Within(lo, q, hi) && PtePage(tr[q]) == p;
      assert q in tr' && tr'[q] == tr[q];
    }
  }

  lemma FramesIn(tr: map<nat, nat>, lo: nat, hi: nat)
    ensures forall q :: q in tr && q in Range(lo, hi) ==> PtePage(tr[q]) in Frames(tr, lo, hi)
  {
  }

  /** One more page keeps the account. */
  lemma AccountNext(f0: set<nat>, t: Tree, f1: set<nat>, t1: Tree, d: set<nat>, f2: set<nat>, t2: Tree, e: set<nat>)
    requires Accounted(f0, t, f1, t1, d) && Accounted(f1, t1, f2, t2, e)
    ensures Accounted(f0, t, f2, t2, d + e)
  {
  }

  lemma AddedNext(m0: Mem, f0: set<nat>, t: Tree, tr0: map<nat, nat>,
                  m1: Mem, f1: set<nat>, t1: Tree, tr1: map<nat, nat>,
                  m2: Mem, f2: set<nat>, t2: Tree, tr2: map<nat, nat>, lo: nat, hi: nat, want: Wanted, p: nat,
                      perm: nat)
    requires lo <= hi && Added(m0, f0, t, tr0, m1, f1, t1, tr1, lo, hi, want)
    requires Accounted(f1, t1, f2, t2, {p}) && OthersKept(m1, Tables(t1) + f1, m2)
    requires hi !in tr1 && tr2 == tr1[hi := MakePte(p, perm)] && p in m2
    requires perm < 1024 && perm / 2 * 2 + 1 == want(hi).0 && m2[p] == want(hi).1
    ensures Added(m0, f0, t, tr0, m2, f2, t2, tr2, lo, hi + 1, want)
  {
    hide Tables, MakePte, PtePage, PteFlags, Accounted, Private;
    PteFields(p, perm);
    FramesUpdate(tr1, lo, hi, MakePte(p, perm));
    AccountNext(f0, t, f1, t1, Frames(tr1, lo, hi), f2, t2, {p});
    PrivateNext(m1, f1, t1, tr1, m2, f2, t2, lo, hi, p, MakePte(p, perm));
    assert tr2 - Range(lo, hi + 1) == tr0;
    AccountedSubset(f0, t, f1, t1, Frames(tr1, lo, hi));
  }

  lemma AccountedSubset(f: set<nat>, t: Tree, f': set<nat>, t': Tree, data: set<nat>)
    requires Accounted(f, t, f', t', data)
    ensures Tables(t') + f' <= Tables(t) + f && f' <= f
  {
  }

  lemma PrivateNext(m1: Mem, f1: set<nat>, t1: Tree, tr1: map<nat, nat>, m2: Mem, f2: set<nat>, t2: Tree,
                    lo: nat, hi: nat, p: nat, e: nat)
    requires lo <= hi && Private(m1, f1, t1, tr1, lo, hi) && PtePage(e) == p && p in m2
    requires Accounted(f1, t1, f2, t2, {p}) && OthersKept(m1, Tables(t1) + f1, m2)
    ensures Private(m2, f2, t2, tr1[hi := e], lo, hi + 1)
    ensures forall q :: q in Range(lo, hi) ==>
        q in tr1 && PtePage(tr1[q]) in m1 && m2[PtePage(tr1[q])] == m1[PtePage(tr1[q])]
  {
    hide Tables, PtePage;
    FramesUpdate(tr1, lo, hi, e);
  }

  lemma PageBound(k: nat, sz: nat)
    ensures k * PGSIZE < sz <==> k < Pages(sz)
    ensures Pages(k * PGSIZE) == k
  {
  }

  lemma PagesMonotone(x: nat, y: nat)
    requires x <= y
    ensures Pages(x) <= Pages(y)
  {
  }

  lemma NotYetAdded(m0: Mem, f0: set<nat>, t: Tree, tr0: map<nat, nat>,
                    m: Mem, f: set<nat>, t': Tree, tr: map<nat, nat>, lo: nat, hi: nat, top: nat, want: Wanted)
    requires Added(m0, f0, t, tr0, m, f, t', tr, lo, hi, want) && lo <= hi < top && Range(lo, top) !! tr0.Keys
    ensures hi !in tr
  {
    assert hi in Range(lo, top) && hi !in Range(lo, hi);
  }

  /** Unmapping and freeing what was added restores the map and owes nothing but tables. */
  lemma AddedUndone(m0: Mem, f0: set<nat>, t: Tree, tr0: map<nat, nat>,
                    m1: Mem, f1: set<nat>, t': Tree, tr: map<nat, nat>, m2: Mem, lo: nat, hi: nat, want: Wanted)
    requires Added(m0, f0, t, tr0, m1, f1, t', tr, lo, hi, want)
    requires OthersKept(m1, Tables(t') + Frames(tr, lo, hi), m2)
    ensures Accounted(f0, t, f1 + Frames(tr, lo, hi), t', {}) && tr - Range(lo, hi) == tr0
    ensures OthersKept(m0, Tables(t) + f0, m2)
  {
    hide Tables, Private, Frames;
  }

  /** What was added does not notice that the failed attempt to go on left tables behind. */
  lemma AddedGrows(m0: Mem, f0: set<nat>, t: Tree, tr0: map<nat, nat>, m1: Mem, f1: set<nat>, t1: Tree,
                   tr: map<nat, nat>,
                   m2: Mem, f2: set<nat>, t2: Tree, lo: nat, hi: nat, want: Wanted)
    requires Added(m0, f0, t, tr0, m1, f1, t1, tr, lo, hi, want)
    requires Accounted(f1, t1, f2, t2, {}) && OthersKept(m1, Tables(t1) + f1, m2)
    ensures Added(m0, f0, t, tr0, m2, f2, t2, tr, lo, hi, want)
  {
    hide Tables, Frames, PtePage, PteFlags;
    AccountNext(f0, t, f1, t1, Frames(tr, lo, hi), f2, t2, {});
    assert Frames(tr, lo, hi) + {} == Frames(tr, lo, hi);
    assert Private(m2, f2, t2, tr, lo, hi);
  }

  /** The parent's pages can be read safely while the child is built. */
  ghost predicate Copyable(m: Mem, f: set<nat>, t: Tree, otr: map<nat, nat>, n: nat) {
    forall q :: q in Range(0, n) ==>
      q in otr && PtePage(otr[q]) in m && PtePage(otr[q]) !in f && PtePage(otr[q]) !in Tables(t)
  }

  /** A copy has the flags and the contents of the original. */
  ghost function CopyOf(m: Mem, otr: map<nat, nat>): Wanted {
    (q: nat) => if q in otr && PtePage(otr[q]) in m then (PteFlags(otr[q]), m[PtePage(otr[q])]) else (0, ZERO_PAGE)
  }

  /** A tree whose pages were allocated before and belong to another table is left alone. */
  lemma KeptTree(m0: Mem, f0: set<nat>, t: Tree, m: Mem, f: set<nat>, t': Tree, o: Tree)
    requires Repr(m0, o) && Tables(o) !! f0 && Tables(o) !! Tables(t) && f <= f0
    requires OthersKept(m0, Tables(t) + f0, m)
    ensures Repr(m, o) && Tables(o) !! f && MapOf(m, o) == MapOf(m0, o)
  {
    hide Separate, Spells, MapOf;
    TablesInMem(m0, o);
    ReprFrame(m0, m, o);
  }

  lemma AddedKeepsTree(m0: Mem, f0: set<nat>, t: Tree, tr0: map<nat, nat>,
                       m: Mem, f: set<nat>, t': Tree, tr: map<nat, nat>, o: Tree, lo: nat, hi: nat, want: Wanted)
    requires Added(m0, f0, t, tr0, m, f, t', tr, lo, hi, want)
    requires Repr(m0, o) && Tables(o) !! f0 && Tables(o) !! Tables(t)
    ensures Repr(m, o) && Tables(o) !! f && Tables(o) !! Tables(t') && MapOf(m, o) == MapOf(m0, o)
    ensures OthersKept(m0, Tables(t) + f0, m)
  {
    hide Repr, MapOf, Tables, Private, Frames;
    KeptTree(m0, f0, t, m, f, t', o);
  }

  lemma ParentKept(m0: Mem, f0: set<nat>, t: Tree, m1: Mem, f1: set<nat>, t1: Tree, o: Tree,
                   tr0: map<nat, nat>, tr1: map<nat, nat>, otr: map<nat, nat>, hi: nat, n: nat, want: Wanted)
    requires Added(m0, f0, t, tr0, m1, f1, t1, tr1, 0, hi, want) && hi < n
    requires Repr(m0, o) && Tables(o) !! f0 && Tables(o) !! Tables(t) && otr == MapOf(m0, o)
    requires Copyable(m0, f0, t, otr, n)
    ensures Repr(m1, o) && Tables(o) !! f1 && Tables(o) !! Tables(t1) && MapOf(m1, o) == otr
    ensures hi in otr && PtePage(otr[hi]) in m1 && PtePage(otr[hi]) !in f1
  {
    hide Repr, MapOf, Tables, Private, Frames, PtePage;
    AddedKeepsTree(m0, f0, t, tr0, m1, f1, t1, tr1, o, 0, hi, want);
    assert hi in Range(0, n);
  }

  lemma WantedCopy(m0: Mem, f0: set<nat>, t: Tree, m1: Mem, f1: set<nat>, t1: Tree,
                   tr0: map<nat, nat>, tr1: map<nat, nat>, otr: map<nat, nat>, hi: nat, n: nat, want: Wanted)
    requires Added(m0, f0, t, tr0, m1, f1, t1, tr1, 0, hi, want) && hi < n
    requires Copyable(m0, f0, t, otr, n) && want == CopyOf(m0, otr)
    ensures hi in otr && PtePage(otr[hi]) in m1 && PteFlags(otr[hi]) < 1024
    ensures want(hi) == (PteFlags(otr[hi]), m1[PtePage(otr[hi])])
  {
    hide Tables, Private, Frames, PtePage;
    assert hi in Range(0, n);
  }

  // --- Tearing a tree down ---------------------------------------------------------------------

  /** `page` is the table of the given level on the path `i`, `k`. */
  ghost predicate Node(t: Tree, level: nat, i: nat, k: nat, page: nat) {
    if level == 2 then page == t.root
    else if level == 1 then i in t.mid && page == t.mid[i]
    else level == 0 && (i, k) in t.low && page == t.low[(i, k)]
  }

  /** The tables hanging below slots `0..n` of that table. */
  ghost function Below(t: Tree, level: nat, i: nat, n: nat): set<nat> {
    if level == 2 then (set x | x in t.mid && x < n :: t.mid[x]) + (set j | j in t.low && j.0 < n :: t.low[j])
    else if level == 1 then set j | j in t.low && j.0 == i && j.1 < n :: t.low[j]
    else {}
  }

  /** The table itself and everything below it. */
  ghost function Subtree(t: Tree, level: nat, i: nat, page: nat): set<nat> {
    {page} + Below(t, level, i, ENTRIES)
  }

  /** Where the recursion goes from slot `n`. */
  ghost function ChildTop(level: nat, i: nat, n: nat): nat { if level == 2 then n else i }

  /** With no leaf left, a valid entry leads to the child table and nothing else. */
  lemma SlotOf(m: Mem, t: Tree, level: nat, i: nat, k: nat, page: nat, n: nat)
    requires Repr(m, t) && MapOf(m, t) == map[] && Node(t, level, i, k, page) && level <= 2 && n < ENTRIES
    ensures page in m
    ensures var e := m[page][n];
            if PteValid(e) then !PteLeaf(e) && level > 0 && Node(t, level - 1, ChildTop(level, i, n), n, PtePage(e))
                                && Below(t, level, i, n + 1) == Below(t, level, i, n)
                                    + Subtree(t, level - 1, ChildTop(level, i, n), PtePage(e))
            else Below(t, level, i, n + 1) == Below(t, level, i, n)
  {
    hide PteValid, PteLeaf, PtePage;
    var e := m[page][n];
    if level == 0 {
      if PteValid(e) {
        LeafIsMapped(m, t, i, k, n);
      }
    } else if level == 1 {
      assert PteValid(e) ==> (i, n) in t.low;
      assert !PteValid(e) ==> (i, n) !in t.low;
    } else {
      SlotOfRoot(m, t, n);
    }
  }

  lemma SlotOfRoot(m: Mem, t: Tree, n: nat)
    requires Repr(m, t) && n < ENTRIES
    ensures var e := m[t.root][n];
            if PteValid(e) then n in t.mid && PtePage(e) == t.mid[n] && !PteLeaf(e)
                                && Below(t, 2, 0, n + 1) == Below(t, 2, 0, n) + Subtree(t, 1, n, PtePage(e))
            else Below(t, 2, 0, n + 1) == Below(t, 2, 0, n)
  {
    hide PteValid, PteLeaf, PtePage;
  }

  lemma LeafIsMapped(m: Mem, t: Tree, i: nat, k: nat, n: nat)
    requires Repr(m, t) && (i, k) in t.low && n < ENTRIES && PteValid(m[t.low[(i, k)]][n])
    ensures (i * ENTRIES + k) * ENTRIES + n in MapOf(m, t)
  {
    hide PteValid, At, Spells;
    var q := (i * ENTRIES + k) * ENTRIES + n;
    assert i in t.mid && i < TOP_ENTRIES && k < ENTRIES;
    AtOf(i, k, n);
    assert Leaf(m, t, At(q)).Some?;
  }

  lemma AtOf(i: nat, k: nat, n: nat)
    requires i < TOP_ENTRIES && k < ENTRIES && n < ENTRIES
    ensures (i * ENTRIES + k) * ENTRIES + n < MAXVPN && At((i * ENTRIES + k) * ENTRIES + n) == Vp(i, k, n)
  {
    var r := i * ENTRIES + k;
    assert (r * ENTRIES + n) / ENTRIES == r && r / ENTRIES == i;
  }

  /** The child's subtree is part of the table's, apart from what hangs below earlier slots. */
  lemma ChildApart(t: Tree, level: nat, i: nat, k: nat, page: nat, n: nat, child: nat)
    requires Separate(t) && 1 <= level <= 2 && n < ENTRIES && Node(t, level, i, k, page)
    requires Node(t, level - 1, ChildTop(level, i, n), n, child)
    ensures var sub := Subtree(t, level - 1, ChildTop(level, i, n), child);
            sub !! {page} + Below(t, level, i, n) && sub <= Below(t, level, i, ENTRIES)
  {
  }

  lemma PageApart(t: Tree, level: nat, i: nat, k: nat, page: nat)
    requires Separate(t) && level <= 2 && Node(t, level, i, k, page)
    ensures page !in Below(t, level, i, ENTRIES) && Below(t, level, i, 0) == {}
  {
  }

  lemma WholeTree(t: Tree)
    requires Separate(t)
    ensures Subtree(t, 2, 0, t.root) == Tables(t)
  {
  }

  lemma EmptyTable(m: Mem, t: Tree)
    requires t == Tree(t.root, map[], map[]) && t.root in m && m[t.root] == ZERO_PAGE
    ensures Repr(m, t) && MapOf(m, t) == map[] && Tables(t) == {t.root}
  {
  }

  const TRAMPOLINE_PAGE: nat := MAXVPN - 1
  const TRAPFRAME_PAGE: nat := MAXVPN - 2

  /** A user page table: `n` private pages from 0, plus the trampoline and trapframe pages, whose
      memory belongs to others. */
  ghost predicate UserTable(m: Mem, f: set<nat>, t: Tree, n: nat) {
    && Repr(m, t) && Tables(t) !! f && n <= TRAPFRAME_PAGE
    && MapOf(m, t).Keys == Range(0, n) + {TRAMPOLINE_PAGE, TRAPFRAME_PAGE}
    && Private(m, f, t, MapOf(m, t), 0, n)
  }

  /** The pages such a table holds: its own and its user memory. */
  ghost function Held(m: Mem, t: Tree, n: nat): set<nat>
    requires Repr(m, t)
  {
    Tables(t) + Frames(MapOf(m, t), 0, n)
  }

  /** All that has been taken from the free set `f0` is the table's own pages. */
  lemma StillTaken(m0: Mem, f0: set<nat>, m: Mem, f: set<nat>, t: Tree, m': Mem, f': set<nat>, t': Tree)
    requires f0 == f + Tables(t) && OthersKept(m0, f0, m) && Grown(m, f, t, m', f', t')
    ensures f0 == f' + Tables(t') && OthersKept(m0, f0, m')
  {
    hide Tables;
  }

  lemma LoseFixed(m: Mem, m': Mem, f: set<nat>, t: Tree, tr: map<nat, nat>, tr': map<nat, nat>, n: nat)
    requires tr.Keys == Range(0, n) + {TRAMPOLINE_PAGE, TRAPFRAME_PAGE} && n <= TRAPFRAME_PAGE
    requires tr' == tr - {TRAMPOLINE_PAGE} - {TRAPFRAME_PAGE} && Private(m, f, t, tr, 0, n) && m'.Keys == m.Keys
    ensures tr'.Keys == Range(0, n) && Private(m', f, t, tr', 0, n) && Frames(tr', 0, n) == Frames(tr, 0, n)
  {
    hide Tables, PtePage;
    assert forall q :: q in tr && Within(0, q, n) ==> q in tr' && tr'[q] == tr[q];
  }

  /** User pages present before and after kept their translation and contents; the trampoline and
      trapframe stay mapped. */
  ghost predicate SameMemory(m: Mem, tr: map<nat, nat>, m': Mem, tr': map<nat, nat>, n: nat, n': nat) {
    && (forall q :: q in tr && q in tr' && ((q < n && q < n') || TRAPFRAME_PAGE <= q) ==> tr'[q] == tr[q])
    && (forall q :: q in tr && q in tr' && q < n && q < n' && PtePage(tr[q]) in m ==>
          PtePage(tr[q]) in m' && m'[PtePage(tr[q])] == m[PtePage(tr[q])])
  }

  lemma UserTableParts(m: Mem, f: set<nat>, t: Tree, n: nat)
    requires UserTable(m, f, t, n)
    ensures Repr(m, t) && Tables(t) !! f && n <= TRAPFRAME_PAGE && Private(m, f, t, MapOf(m, t), 0, n)
    ensures MapOf(m, t).Keys == Range(0, n) + {TRAMPOLINE_PAGE, TRAPFRAME_PAGE}
    ensures Held(m, t, n) == Tables(t) + Frames(MapOf(m, t), 0, n)
  {
  }

  lemma {:induction false} RangeSize(lo: nat, n: nat)
    ensures |Range(lo, lo + n)| == n
    decreases n
  {
    if n == 0 {
      assert Range(lo, lo) == {};
    } else {
      RangeSize(lo, n - 1);
      assert Range(lo, lo + n) == Range(lo, lo + n - 1) + {lo + n - 1};
    }
  }

  lemma {:induction false} FramesSize(m: Mem, f: set<nat>, t: Tree, tr: map<nat, nat>, n: nat, hi: nat)
    requires Private(m, f, t, tr, 0, hi) && n <= hi
    ensures |Frames(tr, 0, n)| == n
    decreases n
  {
    if n == 0 {
      NoFrames(tr, 0);
    } else {
      FramesSize(m, f, t, tr, n - 1, hi);
      NotYetFreed(m, f, t, tr, 0, n - 1, hi);
      FramesNext(tr, 0, n - 1);
    }
  }

  /** A process cannot have more memory than the machine, and so cannot reach its trapframe with one
      `sbrk` either. */
  lemma BelowTrapframe(m: Mem, f: set<nat>, t: Tree, sz: nat, n: int)
    requires InRam(m) && UserTable(m, f, t, Pages(sz)) && n < 0x8000_0000
    ensures Pages(sz) <= RAM_PAGES && sz + n <= TRAPFRAME_PAGE * PGSIZE
  {
    hide MapOf, Tables, PtePage;
    var tr, k := MapOf(m, t), Pages(sz);
    FramesSize(m, f, t, tr, k, k);
    RangeSize(FIRST_PAGE, RAM_PAGES);
    assert Frames(tr, 0, k) <= Range(FIRST_PAGE, FIRST_PAGE + RAM_PAGES);
    SubsetSize(Frames(tr, 0, k), Range(FIRST_PAGE, FIRST_PAGE + RAM_PAGES));
  }

  lemma AboveUser(tr: map<nat, nat>, lo: nat, hi: nat)
    requires tr.Keys == Range(0, lo) + {TRAMPOLINE_PAGE, TRAPFRAME_PAGE} && hi <= TRAPFRAME_PAGE
    ensures Range(lo, hi) !! tr.Keys
  {
  }

  lemma PrivateTail(m: Mem, f: set<nat>, t: Tree, tr: map<nat, nat>, lo: nat, hi: nat)
    requires Private(m, f, t, tr, 0, hi)
    ensures Private(m, f, t, tr, lo, hi)
  {
    assert forall q :: q in Range(lo, hi) ==> q in Range(0, hi);
  }

  lemma FramesSplit(tr: map<nat, nat>, lo: nat, hi: nat)
    requires lo <= hi
    ensures Frames(tr, 0, hi) == Frames(tr, 0, lo) + Frames(tr, lo, hi)
  {
    assert forall q: nat :: Within(0, q, hi) <==> Within(0, q, lo) || Within(lo, q, hi);
  }

  /** How one change of size went: the table still is a user table, of `n'` pages, and no page of the
      free set and the table together was lost, gained or leaked. */
  ghost predicate Resized(m0: Mem, f0: set<nat>, t: Tree, m: Mem, f: set<nat>, t': Tree, n: nat, n': nat)
    requires Repr(m0, t) && Repr(m, t')
  {
    && UserTable(m, f, t', n') && t'.root == t.root
    && f + Held(m, t', n') == f0 + Held(m0, t, n)
    && OthersKept(m0, f0 + Held(m0, t, n), m)
    && SameMemory(m0, MapOf(m0, t), m, MapOf(m, t'), n, n')
  }

  lemma ResizeFailed(m0: Mem, f0: set<nat>, m: Mem, f: set<nat>, t: Tree, t': Tree, n: nat)
    requires UserTable(m0, f0, t, n) && Repr(m, t') && Tables(t') !! f && MapOf(m, t') == MapOf(m0, t)
    requires Accounted(f0, t, f, t', {}) && OthersKept(m0, Tables(t) + f0, m)
    ensures Resized(m0, f0, t, m, f, t', n, n)
  {
    hide MapOf, Separate, Spells, InMem, Tables, PtePage;
  }

  lemma GrowKeys(tr0: map<nat, nat>, tr: map<nat, nat>, lo: nat, hi: nat)
    requires tr0.Keys == Range(0, lo) + {TRAMPOLINE_PAGE, TRAPFRAME_PAGE} && lo <= hi <= TRAPFRAME_PAGE
    requires tr - Range(lo, hi) == tr0 && Range(lo, hi) <= tr.Keys
    ensures tr.Keys == Range(0, hi) + {TRAMPOLINE_PAGE, TRAPFRAME_PAGE}
    ensures forall q :: q in tr0 ==> q in tr && tr[q] == tr0[q]
    ensures Frames(tr, 0, lo) == Frames(tr0, 0, lo)
  {
    hide PtePage;
    assert Range(0, hi) == Range(0, lo) + Range(lo, hi);
    assert forall q :: q in tr && Within(0, q, lo) ==> q in tr0 && tr0[q] == tr[q];
    assert forall q :: q in tr0 && Within(0, q, lo) ==> q in tr && tr0[q] == tr[q];
  }

  /** Pages that were private before stay so next to freshly added ones. */
  lemma GrowPrivate(m0: Mem, f0: set<nat>, t: Tree, tr0: map<nat, nat>, m: Mem, f: set<nat>, t': Tree,
                    tr: map<nat, nat>,
                    lo: nat, hi: nat)
    requires lo <= hi && Private(m0, f0, t, tr0, 0, lo) && Private(m, f, t', tr, lo, hi) && m.Keys == m0.Keys
    requires Accounted(f0, t, f, t', Frames(tr, lo, hi)) && forall q :: q in tr0 ==> q in tr && tr[q] == tr0[q]
    ensures Private(m, f, t', tr, 0, hi)
  {
    hide PtePage, Tables, Frames;
    FramesIn(tr, lo, hi);
    AccountedSubset(f0, t, f, t', Frames(tr, lo, hi));
    forall q | q in Range(0, lo)
      ensures q in tr && PtePage(tr[q]) in m && PtePage(tr[q]) !in Tables(t') && PtePage(tr[q]) !in f
      ensures PtePage(tr[q]) !in Frames(tr, lo, hi)
    {
      assert PtePage(tr0[q]) !in Tables(t) && PtePage(tr0[q]) !in f0;
    }
    PrivateJoin(m, f, t', tr, lo, hi);
  }

  lemma PrivateJoin(m: Mem, f: set<nat>, t: Tree, tr: map<nat, nat>, lo: nat, hi: nat)
    requires lo <= hi && Private(m, f, t, tr, 0, lo) && Private(m, f, t, tr, lo, hi)
    requires forall q :: q in Range(0, lo) ==> PtePage(tr[q]) !in Frames(tr, lo, hi)
    ensures Private(m, f, t, tr, 0, hi)
  {
    hide PtePage, Tables, Frames;
    FramesIn(tr, lo, hi);
    assert forall q :: q in Range(0, hi) ==> q in Range(0, lo) || q in Range(lo, hi);
  }

  /** User memory as `sbrk` hands it out: entries with V, R, W and U set and nothing else, frames of zeros. */
  ghost predicate FreshPages(m: Mem, tr: map<nat, nat>, lo: nat, hi: nat) {
    forall q: nat :: lo <= q < hi ==>
      && q in tr && tr[q] % 1024 == 0x17 && tr[q] / 1024 in m
      && forall w :: 0 <= w < 512 ==> m[tr[q] / 1024][w] == 0
  }

  lemma AddedFresh(m0: Mem, f0: set<nat>, t: Tree, tr0: map<nat, nat>, m: Mem, f: set<nat>, t': Tree, tr: map<nat, nat>,
                   lo: nat, hi: nat)
    requires Added(m0, f0, t, tr0, m, f, t', tr, lo, hi, q => (PTE_R + PTE_U + PTE_W + 1, ZERO_PAGE))
    ensures FreshPages(m, tr, lo, hi)
  {
    hide Tables, Frames;
    forall q: nat | lo <= q < hi
      ensures q in Range(lo, hi)
    {
    }
  }

  lemma NoFreshPages(m: Mem, tr: map<nat, nat>, lo: nat, hi: nat)
    requires hi <= lo
    ensures FreshPages(m, tr, lo, hi)
  {
  }

  /** The two pages every user table maps besides user memory, neither of them for the user. */
  ghost predicate FixedPages(tr: map<nat, nat>, trampoline: nat, trapframe: nat) {
    && TRAMPOLINE_PAGE in tr && tr[TRAMPOLINE_PAGE] == MakePte(trampoline, PTE_R + PTE_X)
    && TRAPFRAME_PAGE in tr && tr[TRAPFRAME_PAGE] == MakePte(trapframe, PTE_R + PTE_W)
  }

  /** They stay when user memory is added below them. */
  lemma FixedAbove(m0: Mem, f0: set<nat>, t: Tree, tr0: map<nat, nat>, m: Mem, f: set<nat>, t': Tree, tr: map<nat, nat>,
                   hi: nat, want: Wanted, trampoline: nat, trapframe: nat)
    requires Added(m0, f0, t, tr0, m, f, t', tr, 0, hi, want) && hi <= TRAPFRAME_PAGE
    requires FixedPages(tr0, trampoline, trapframe)
    ensures FixedPages(tr, trampoline, trapframe)
  {
    hide Tables, Frames, MakePte, Private, Accounted, OthersKept, PteFlags, PtePage;
  }

  lemma GrowDone(m0: Mem, f0: set<nat>, m: Mem, f: set<nat>, t: Tree, t': Tree, lo: nat, hi: nat, want: Wanted)
    requires UserTable(m0, f0, t, lo) && Repr(m, t') && Tables(t') !! f && lo <= hi <= TRAPFRAME_PAGE
    requires Added(m0, f0, t, MapOf(m0, t), m, f, t', MapOf(m, t'), lo, hi, want)
    ensures Resized(m0, f0, t, m, f, t', lo, hi)
  {
    hide MapOf, Separate, Spells, InMem, Tables, PtePage, Frames, PteFlags;
    var tr0, tr := MapOf(m0, t), MapOf(m, t');
    GrowKeys(tr0, tr, lo, hi);
    GrowPrivate(m0, f0, t, tr0, m, f, t', tr, lo, hi);
    FramesSplit(tr, lo, hi);
  }

  lemma ShrinkKeys(m0: Mem, f0: set<nat>, t: Tree, tr0: map<nat, nat>, m: Mem, tr: map<nat, nat>, lo: nat, hi: nat)
    requires tr0.Keys == Range(0, hi) + {TRAMPOLINE_PAGE, TRAPFRAME_PAGE} && lo <= hi <= TRAPFRAME_PAGE
    requires tr == tr0 - Range(lo, hi) && Private(m0, f0, t, tr0, 0, hi) && m.Keys == m0.Keys
    ensures tr.Keys == Range(0, lo) + {TRAMPOLINE_PAGE, TRAPFRAME_PAGE}
    ensures Frames(tr, 0, lo) == Frames(tr0, 0, lo)
    ensures Private(m, f0 + Frames(tr0, lo, hi), t, tr, 0, lo)
    ensures Frames(tr, 0, lo) !! Frames(tr0, lo, hi)
  {
    hide PtePage, Tables;
    assert Range(0, hi) == Range(0, lo) + Range(lo, hi);
    assert forall q :: q in tr0 && Within(0, q, lo) ==> q in Range(0, lo) && q in tr && tr0[q] == tr[q];
    assert forall q :: q in tr0 && Within(lo, q, hi) ==> q in Range(0, hi);
  }

  lemma ShrinkDone(m0: Mem, f0: set<nat>, m: Mem, f: set<nat>, t: Tree, lo: nat, hi: nat)
    requires UserTable(m0, f0, t, hi) && Repr(m, t) && Tables(t) !! f && lo <= hi
    requires MapOf(m, t) == MapOf(m0, t) - Range(lo, hi)
    requires f == f0 + Frames(MapOf(m0, t), lo, hi) && OthersKept(m0, Tables(t) + Frames(MapOf(m0, t), lo, hi), m)
    ensures Resized(m0, f0, t, m, f, t, hi, lo)
  {
    hide MapOf, Separate, Spells, InMem, Tables, PtePage, Frames;
    ShrinkKeys(m0, f0, t, MapOf(m0, t), m, MapOf(m, t), lo, hi);
    FramesSplit(MapOf(m0, t), lo, hi);
    FramesIn(MapOf(m, t), 0, lo);
  }

  lemma Unresized(m: Mem, f: set<nat>, t: Tree, n: nat)
    requires UserTable(m, f, t, n)
    ensures Resized(m, f, t, m, f, t, n, n)
  {
  }

  /** The child's pages have the parent's flags and contents. */
  ghost predicate Copied(m0: Mem, otr: map<nat, nat>, m: Mem, tr: map<nat, nat>, n: nat) {
    forall q :: q in Range(0, n) ==>
      && q in otr && q in tr && PtePage(otr[q]) in m0 && PtePage(tr[q]) in m
      && PteFlags(tr[q]) == PteFlags(otr[q]) && m[PtePage(tr[q])] == m0[PtePage(otr[q])]
  }

  /** A table is unaffected by what happens to pages that were free. */
  lemma Untouched(m0: Mem, f0: set<nat>, m: Mem, f: set<nat>, o: Tree, n: nat)
    requires UserTable(m0, f0, o, n) && OthersKept(m0, f0, m) && f <= f0
    ensures UserTable(m, f, o, n) && MapOf(m, o) == MapOf(m0, o)
  {
    hide Separate, Spells, MapOf, PtePage;
    TablesInMem(m0, o);
    ReprFrame(m0, m, o);
  }

  /** A table is unaffected by whatever happens to pages it does not hold. */
  lemma Bystander(m0: Mem, f0: set<nat>, m: Mem, f: set<nat>, touched: set<nat>, o: Tree, n: nat)
    requires UserTable(m0, f0, o, n) && OthersKept(m0, touched, m) && Held(m0, o, n) !! touched && Held(m0, o, n) !! f
    ensures UserTable(m, f, o, n) && MapOf(m, o) == MapOf(m0, o) && Held(m, o, n) == Held(m0, o, n)
  {
    hide Separate, Spells, MapOf, PtePage;
    TablesInMem(m0, o);
    ReprFrame(m0, m, o);
    FrameIsHeld(m0, f0, o, n);
  }

  lemma FrameIsHeld(m: Mem, f: set<nat>, o: Tree, n: nat)
    requires UserTable(m, f, o, n)
    ensures Held(m, o, n) <= m.Keys && Held(m, o, n) !! f
    ensures forall q :: q in Range(0, n) ==> q in MapOf(m, o) && PtePage(MapOf(m, o)[q]) in Held(m, o, n)
  {
    hide Separate, Spells, MapOf, PtePage;
    TablesInMem(m, o);
    FramesApart(m, f, o, MapOf(m, o), n);
    assert forall q :: q in MapOf(m, o) && Within(0, q, n) ==> q in Range(0, n);
  }

  lemma KeptTrans(m0: Mem, s: set<nat>, m1: Mem, s1: set<nat>, m2: Mem)
    requires OthersKept(m0, s, m1) && OthersKept(m1, s1, m2) && s1 <= s
    ensures OthersKept(m0, s, m2)
  {
  }

  /** The parent can be copied into a table made of pages that were free. */
  lemma CanCopy(m0: Mem, f0: set<nat>, m: Mem, f: set<nat>, o: Tree, t: Tree, n: nat)
    requires UserTable(m0, f0, o, n) && UserTable(m, f, o, n) && MapOf(m, o) == MapOf(m0, o)
    requires f0 == f + Tables(t)
    ensures Tables(o) !! Tables(t) && Copyable(m, f, t, MapOf(m, o), n)
  {
    hide Separate, Spells, InMem, MapOf, PtePage, Tables;
  }

  lemma CopiedFrom(m0: Mem, f0: set<nat>, m1: Mem, f1: set<nat>, t1: Tree, otr: map<nat, nat>, tr1: map<nat, nat>,
                   m: Mem, f: set<nat>, t: Tree, tr: map<nat, nat>, n: nat)
    requires Added(m1, f1, t1, tr1, m, f, t, tr, 0, n, CopyOf(m1, otr)) && Copyable(m1, f1, t1, otr, n)
    requires OthersKept(m0, f0, m1) && forall q :: q in Range(0, n) ==> q in otr && PtePage(otr[q]) !in f0
    ensures Copied(m0, otr, m, tr, n)
  {
    hide Tables, PtePage, PteFlags, Frames;
  }

  /** A child built from free pages `f0` leaves the parent alone and is apart from it. */
  lemma Child(m0: Mem, f0: set<nat>, m1: Mem, f1: set<nat>, t1: Tree, m: Mem, f: set<nat>, t: Tree, k: nat, o: Tree,
              n: nat)
    requires UserTable(m0, f0, o, n) && OthersKept(m0, f0, m1) && f0 == f1 + Tables(t1)
    requires UserTable(m1, f1, t1, 0) && Repr(m, t) && Resized(m1, f1, t1, m, f, t, 0, k)
    ensures OthersKept(m0, f0, m) && f0 == f + Held(m, t, k)
    ensures UserTable(m, f, o, n) && MapOf(m, o) == MapOf(m0, o) && Held(m, t, k) !! Held(m, o, n)
  {
    hide Separate, Spells, InMem, MapOf, PtePage, Tables, SameMemory, UserTable;
    UserTableParts(m0, f0, o, n);
    UserTableParts(m1, f1, t1, 0);
    NoFrames(MapOf(m1, t1), 0);
    KeptTrans(m0, f0, m1, f0, m);
    Untouched(m0, f0, m, f, o, n);
    UserTableParts(m, f, o, n);
    FramesApart(m0, f0, o, MapOf(m0, o), n);
  }

  lemma FramesApart(m: Mem, f: set<nat>, t: Tree, tr: map<nat, nat>, n: nat)
    requires Private(m, f, t, tr, 0, n)
    ensures Frames(tr, 0, n) !! f
  {
    hide Tables, PtePage;
    assert forall q :: q in tr && Within(0, q, n) ==> q in Range(0, n);
  }

  lemma HeldByMap(m: Mem, m': Mem, t: Tree, n: nat)
    requires Repr(m, t) && Repr(m', t) && MapOf(m, t) == MapOf(m', t)
    ensures Held(m, t, n) == Held(m', t, n)
  {
    hide MapOf, Tables, Frames, Separate, Spells, InMem;
  }

  class Kernel {
    var mem: Mem           // the allocatable pages, from `end` to PHYSTOP
    var freelist: nat
    ghost var free: seq<nat>

    ghost predicate Valid()
      reads this
    {
      InRam(mem) && Chain(mem, freelist, free)
    }

    ghost function FreeSet(): set<nat>
      reads this
    {
      SetOf(free)
    }

    lemma FreeCount()
      requires Valid()
      ensures |FreeSet()| == |free|
    {
      ChainSize(mem, freelist, free);
    }

    /** Table pages are allocated pages. */
    ghost predicate Owns(t: Tree)
      reads this
    {
      Repr(mem, t) && Tables(t) !! FreeSet()
    }

    /** `kfree`: fill with junk and push onto the free list. */
    method Kfree(p: nat)
      requires Valid() && p in mem && p !in free
      modifies this
      ensures Valid() && free == [p] + old(free) && FreeSet() == old(FreeSet()) + {p}
      ensures OthersKept(old(mem), {p}, mem)
    {
      var junk: Page := seq(ENTRIES, _ => FREE_JUNK);
      mem := mem[p := junk[0 := freelist]];
      ChainFrame(old(mem), mem, freelist, free);
      freelist := p;
      free := [p] + free;
      assert free[1..] == old(free);
    }

    /** `kalloc`: pop the free list and fill with junk; 0 when there is no free page. */
    method Kalloc() returns (p: nat)
      requires Valid()
      modifies this
      ensures Valid() && OthersKept(old(mem), {p}, mem)
      ensures p == 0 <==> old(free) == []
      ensures p == 0 ==> mem == old(mem) && free == old(free)
      ensures p != 0 ==> p in mem && p !in free && old(free) == [p] + free && old(FreeSet()) == FreeSet() + {p}
    {
      p := freelist;
      ChainFrame(mem, mem, freelist, free);
      if p != 0 {
        ghost var before := mem;
        freelist := mem[p][0];
        free := free[1..];
        mem := mem[p := seq(ENTRIES, _ => ALLOC_JUNK)];
        ChainFrame(before, mem, freelist, free);
        assert old(free) == [p] + free;
      }
    }

    /** `freerange` over all of RAM, as `kinit` calls it. */
    method FreeRange(paStart: nat, paEnd: nat)
      requires Valid() && free == [] && mem.Keys == Range(Pages(paStart), paEnd / PGSIZE)
      modifies this
      ensures Valid() && FreeSet() == mem.Keys && mem.Keys == old(mem.Keys)
    {
      var start := Pages(paStart);
      var p := start;
      while (p + 1) * PGSIZE <= paEnd
        invariant start <= p && (p == start || p * PGSIZE <= paEnd)
        invariant Valid() && mem.Keys == old(mem.Keys) && FreeSet() == Range(start, p)
      {
        assert p in Range(start, paEnd / PGSIZE) && p !in FreeSet();
        Kfree(p);
        p := p + 1;
      }
      assert Range(start, p) == Range(start, paEnd / PGSIZE);
    }

    /** `kalloc` followed by clearing the page, as every user of a fresh page does. */
    method ZeroedPage() returns (p: nat)
      requires Valid()
      modifies this
      ensures Valid() && OthersKept(old(mem), {p}, mem)
      ensures p == 0 <==> old(free) == []
      ensures p == 0 ==> mem == old(mem) && free == old(free)
      ensures p != 0 ==> p in mem && p !in free && old(free) == [p] + free && old(FreeSet()) == FreeSet() + {p}
      ensures p != 0 ==> mem == old(mem)[p := ZERO_PAGE]
    {
      p := Kalloc();
      if p != 0 {
        ghost var junked := mem;
        mem := mem[p := ZERO_PAGE];
        ChainFrame(junked, mem, freelist, free);
      }
    }

    /** The allocation branch of `walk`: hang a zeroed page into slot `k` of the table at `page`. */
    method AddTable(page: nat, k: nat, ghost t: Tree, ghost top: Option<nat>) returns (child: nat, ghost t': Tree)
      requires Valid() && Owns(t) && k < ENTRIES
      requires top.None? ==> page == t.root && k < TOP_ENTRIES && k !in t.mid
      requires top.Some? ==> top.value in t.mid && page == t.mid[top.value] && (top.value, k) !in t.low
      modifies this
      ensures Valid() && Owns(t') && Grown(old(mem), old(FreeSet()), t, mem, FreeSet(), t')
      ensures MapOf(mem, t') == old(MapOf(mem, t))
      ensures child == 0 ==> free == [] == old(free) && t' == t
      ensures child != 0 ==> |old(free)| == |free| + 1
      ensures child != 0 ==> t' == if top.None? then t.(mid := t.mid[k := child])
                                   else t.(low := t.low[(top.value, k) := child])
    {
      child := ZeroedPage();
      t' := t;
      if child != 0 {
        ghost var zeroed := mem;
        t' := if top.None? then t.(mid := t.mid[k := child]) else t.(low := t.low[(top.value, k) := child]);
        mem := mem[page := mem[page][k := MakePte(child, 0)]];
        Hang(old(mem), mem, t, t', top, k, child, old(FreeSet()), FreeSet());
        assert page in Tables(t);
        ChainFrame(zeroed, mem, freelist, free);
      }
    }

    /** `walk`: find the bottom table for `va`, building missing tables if `alloc`. */
    method Walk(pagetable: nat, va: nat, alloc: bool, ghost t: Tree) returns (found: bool, page: nat, ghost t': Tree)
      requires Valid() && Owns(t) && t.root == pagetable && va < MAXVA
      modifies this
      ensures Valid() && Owns(t') && Grown(old(mem), old(FreeSet()), t, mem, FreeSet(), t')
      ensures MapOf(mem, t') == old(MapOf(mem, t))
      ensures found ==> Reached(t', va, 0, page)
      ensures !found ==> (Px(2, va), Px(1, va)) !in t'.low && (alloc ==> free == [] && |old(free)| <= 1)
      ensures |old(free)| <= |free| + 2
      ensures !alloc ==> mem == old(mem) && free == old(free) && t' == t
    {
      hide Px, Separate, Spells, MapOf, Chain;
      TopIndex(va);
      var level := 2;
      page := pagetable;
      t' := t;
      while level > 0
        invariant 0 <= level <= 2 && Valid() && Owns(t') && Reached(t', va, level, page)
        invariant Grown(old(mem), old(FreeSet()), t, mem, FreeSet(), t')
        invariant MapOf(mem, t') == old(MapOf(mem, t)) && |old(free)| <= |free| + 2 - level
        invariant !alloc ==> mem == old(mem) && free == old(free) && t' == t
      {
        NextTable(mem, t', va, level, page);
        var pte := mem[page][Px(level, va)];
        if PteValid(pte) {
          page := PtePage(pte);
        } else if !alloc {
          return false, 0, t';
        } else {
          ghost var m1, f1, t1 := mem, FreeSet(), t';
          page, t' := AddTable(page, Px(level, va), t', if level == 2 then None else Some(Px(2, va)));
          GrownTrans(old(mem), old(FreeSet()), t, m1, f1, t1, mem, FreeSet(), t');
          if page == 0 {
            return false, 0, t';
          }
        }
        level := level - 1;
      }
      found := true;
    }

    /** The store into the entry that `walk` found. */
    method StoreAt(page: nat, va: nat, e: nat, ghost t: Tree, ghost q: nat)
      requires Valid() && Owns(t) && q < MAXVPN && va == q * PGSIZE && Reached(t, va, 0, page)
      requires PteValid(e) ==> PteLeaf(e)
      modifies this`mem
      ensures Valid() && Owns(t) && OthersKept(old(mem), Tables(t), mem)
      ensures MapOf(mem, t) == if PteValid(e) then old(MapOf(mem, t))[q := e] else old(MapOf(mem, t)) - {q}
    {
      hide MapOf, Spells, Px, At;
      IndexFields(va, q);
      mem := mem[page := mem[page][Px(0, va) := e]];
      SetLeaf(old(mem), mem, t, q, e);
      assert page in Tables(t);
      ChainFrame(old(mem), mem, freelist, free);
    }

    /** One iteration of `mappages`, below MAXVA. It panics exactly on a page that is mapped. */
    method MapOne(pagetable: nat, va: nat, p: nat, perm: nat, ghost t: Tree, ghost q: nat)
      returns (panicked: bool, ok: bool, ghost t': Tree)
      requires Valid() && Owns(t) && t.root == pagetable && q < MAXVPN && va == q * PGSIZE && LeafPerm(perm)
      modifies this
      ensures (panicked <==> q in old(MapOf(mem, t))) && (ok ==> !panicked)
      ensures Valid() && Owns(t') && t'.root == t.root
      ensures Grown(old(mem), old(FreeSet()), t, mem, FreeSet(), t')
      ensures MapOf(mem, t') == if ok then old(MapOf(mem, t))[q := MakePte(p, perm)] else old(MapOf(mem, t))
      ensures !ok && !panicked ==> free == [] && |old(free)| <= 1
      ensures |old(free)| <= |free| + 2
    {
      var page;
      hide MapOf, Separate, Spells, InMem, Chain, MakePte, Px, Reached, PteValid;
      ok, page, t' := Walk(pagetable, va, true, t);
      MappedAt(mem, t', va, q);
      panicked := false;
      if ok {
        SlotAt(mem, t', va, page);
        if PteValid(mem[page][Px(0, va)]) {
          return true, false, t';
        }
        PteFields(p, perm);
        StoreAt(page, va, MakePte(p, perm), t', q);
      }
    }

    /** `mappages`. When memory runs out it stops early and leaves the first `done` pages mapped. It panics
        exactly when address or size is unaligned, the size is zero, or the next page to map lies beyond
        MAXVA or is mapped. */
    method MapPages(pagetable: nat, va: nat, size: nat, p: nat, perm: nat, ghost t: Tree)
      returns (panicked: bool, ok: bool, ghost done: nat, ghost t': Tree)
      requires Valid() && Owns(t) && t.root == pagetable && LeafPerm(perm)
      modifies this
      ensures Valid() && Owns(t') && Grown(old(mem), old(FreeSet()), t, mem, FreeSet(), t')
      ensures RunAdded(old(MapOf(mem, t)), MapOf(mem, t'), va / PGSIZE, done, p, perm)
      ensures panicked <==>
        || va % PGSIZE != 0 || size % PGSIZE != 0 || size == 0
        || (done < size / PGSIZE && (va / PGSIZE + done >= MAXVPN || va / PGSIZE + done in old(MapOf(mem, t))))
      ensures done <= size / PGSIZE && (ok <==> !panicked && done == size / PGSIZE)
      ensures Clear(old(MapOf(mem, t)), va / PGSIZE, done)
      ensures !ok && !panicked ==> free == []
    {
      hide MapOf, Separate, Spells, InMem, Chain, MakePte, Tables, Grown, RunAdded, Range, Clear;
      panicked, ok, done, t' := true, false, 0, t;
      ghost var lo, n := va / PGSIZE, size / PGSIZE;
      ghost var tr0, tr := MapOf(mem, t), MapOf(mem, t);
      GrownRefl(mem, FreeSet(), t);
      RunNothing(tr, lo, p, perm);
      ClearNothing(tr, lo);
      if va % PGSIZE != 0 || size % PGSIZE != 0 || size == 0 {
        return;
      }
      var a, pp := va, p;
      var last := va + size - PGSIZE;
      while true
        invariant done < n && a == (lo + done) * PGSIZE && pp == p + done
        invariant Valid() && Owns(t') && t'.root == t.root
        invariant Grown(old(mem), old(FreeSet()), t, mem, FreeSet(), t')
        invariant tr == MapOf(mem, t') && RunAdded(tr0, tr, lo, done, p, perm)
        invariant Clear(tr0, lo, done)
        decreases n - done
      {
        if a >= MAXVA {
          return true, false, done, t';
        }
        ghost var m1, f1, t1 := mem, FreeSet(), t';
        RunAt(tr0, tr, lo, done, p, perm);
        ClearAt(tr0, lo, done);
        panicked, ok, t' := MapOne(pagetable, a, pp, perm, t', lo + done);
        GrownTrans(old(mem), old(FreeSet()), t, m1, f1, t1, mem, FreeSet(), t');
        if !ok {
          return;
        }
        tr, done := tr[lo + done := MakePte(pp, perm)], done + 1;
        if a == last {
          return;
        }
        a := a + PGSIZE;
        pp := pp + 1;
      }
    }

    /** One iteration of `uvmunmap`. The three panics it guards against are unreachable. */
    method UnmapOne(pagetable: nat, va: nat, doFree: bool, ghost t: Tree, ghost q: nat)
      requires Valid() && Owns(t) && t.root == pagetable && q < MAXVPN && va == q * PGSIZE
      requires q in MapOf(mem, t)
      requires doFree ==> var p := PtePage(MapOf(mem, t)[q]); p in mem && p !in Tables(t) && p !in FreeSet()
      modifies this
      ensures Valid() && Owns(t) && MapOf(mem, t) == old(MapOf(mem, t)) - {q}
      ensures var p := PtePage(old(MapOf(mem, t))[q]);
              if doFree then FreeSet() == old(FreeSet()) + {p} && OthersKept(old(mem), Tables(t) + {p}, mem)
              else FreeSet() == old(FreeSet()) && OthersKept(old(mem), Tables(t), mem)
    {
      hide MapOf, Separate, Spells, InMem, Chain, Tables, PtePage, Px, Grown;
      MappedEntry(mem, t, va, q);
      TablesInMem(mem, t);
      var found, page, _ := Walk(pagetable, va, false, t);
      assert found;
      var pte := mem[page][Px(0, va)];
      assert PteValid(pte) && PteFlags(pte) != 1;
      if doFree {
        Kfree(PtePage(pte));
        ReprFrame(old(mem), mem, t);
      }
      StoreAt(page, va, 0, t, q);
    }

    /** `uvmunmap`: remove exactly the range, and give its memory back if asked to. */
    method UvmUnmap(pagetable: nat, va: nat, npages: nat, doFree: bool, ghost t: Tree, ghost lo: nat)
      requires Valid() && Owns(t) && t.root == pagetable && va == lo * PGSIZE && lo + npages <= MAXVPN
      requires Range(lo, lo + npages) <= MapOf(mem, t).Keys
      requires doFree ==> Private(mem, FreeSet(), t, MapOf(mem, t), lo, lo + npages)
      modifies this
      ensures Valid() && Owns(t) && MapOf(mem, t) == old(MapOf(mem, t)) - Range(lo, lo + npages)
      ensures var data := if doFree then Frames(old(MapOf(mem, t)), lo, lo + npages) else {};
              FreeSet() == old(FreeSet()) + data && OthersKept(old(mem), Tables(t) + data, mem)
    {
      hide MapOf, Separate, Spells, InMem, Chain, Tables, PtePage, Private, Frames;
      ghost var tr: map<nat, nat>, k := MapOf(mem, t), 0;
      var a := va;
      assert Range(lo, lo) == {} && Frames(tr, lo, lo) == {} by { NoFrames(tr, lo); }
      while a < va + npages * PGSIZE
        invariant k <= npages && a == (lo + k) * PGSIZE
        invariant Valid() && Owns(t) && MapOf(mem, t) == tr - Range(lo, lo + k)
        invariant var data := if doFree then Frames(tr, lo, lo + k) else {};
                  FreeSet() == old(FreeSet()) + data && OthersKept(old(mem), Tables(t) + data, mem)
      {
        assert lo + k in Range(lo, lo + npages) && lo + k !in Range(lo, lo + k);
        assert MapOf(mem, t)[lo + k] == tr[lo + k];
        if doFree {
          NotYetFreed(old(mem), old(FreeSet()), t, tr, lo, lo + k, lo + npages);
        }
        UnmapOne(pagetable, a, doFree, t, lo + k);
        FramesNext(tr, lo, lo + k);
        a := a + PGSIZE;
        k := k + 1;
      }
    }

    /** One iteration of `uvmalloc`: a zeroed page mapped at virtual page `q`, or nothing. */
    method AllocOne(pagetable: nat, a: nat, perm: nat, ghost t: Tree, ghost q: nat)
      returns (ok: bool, ghost t': Tree, ghost p: nat)
      requires Valid() && Owns(t) && t.root == pagetable && q < MAXVPN && a == q * PGSIZE
      requires LeafPerm(perm) && q !in MapOf(mem, t)
      modifies this
      ensures Valid() && Owns(t') && t'.root == t.root
      ensures Accounted(old(FreeSet()), t, FreeSet(), t', if ok then {p} else {})
      ensures MapOf(mem, t') == if ok then old(MapOf(mem, t))[q := MakePte(p, perm)] else old(MapOf(mem, t))
      ensures ok ==> p in mem && mem[p] == ZERO_PAGE
      ensures if ok then |old(free)| <= |free| + 3 else |old(free)| <= 2
      ensures OthersKept(old(mem), Tables(t) + old(FreeSet()), mem)
    {
      hide MapOf, Separate, Spells, InMem, Chain, Tables, MakePte, LeafPerm, Accounted;
      TablesInMem(mem, t);
      var pg := ZeroedPage();
      p, t' := pg, t;
      if pg == 0 {
        ok := false;
        AccountNothing(FreeSet(), t);
        return;
      }
      ReprFrame(old(mem), mem, t);
      ghost var f1, touched := FreeSet(), Tables(t) + old(FreeSet());
      assert pg in old(FreeSet()) && OthersKept(old(mem), touched, mem);
      var panicked;
      panicked, ok, t' := MapOne(pagetable, a, pg, perm, t, q);
      assert OthersKept(old(mem), touched, mem);
      AccountPage(old(FreeSet()), t, f1, FreeSet(), t', pg);
      if !ok {
        ghost var m2 := mem;
        TablesInMem(mem, t');
        Kfree(pg);
        ReprFrame(m2, mem, t');
      }
    }

    /** `uvmdealloc`: shrink from `oldsz` to `newsz`, freeing exactly the pages in between. */
    method UvmDealloc(pagetable: nat, oldsz: nat, newsz: nat, ghost t: Tree) returns (r: nat)
      requires Valid() && Owns(t) && t.root == pagetable && Pages(oldsz) <= MAXVPN
      requires Private(mem, FreeSet(), t, MapOf(mem, t), Pages(newsz), Pages(oldsz))
      modifies this
      ensures Valid() && Owns(t) && r == if newsz >= oldsz then oldsz else newsz
      ensures newsz >= oldsz ==> mem == old(mem) && free == old(free)
      ensures MapOf(mem, t) == old(MapOf(mem, t)) - Range(Pages(newsz), Pages(oldsz))
      ensures var data := Frames(old(MapOf(mem, t)), Pages(newsz), Pages(oldsz));
              FreeSet() == old(FreeSet()) + data && OthersKept(old(mem), Tables(t) + data, mem)
    {
      hide MapOf, Separate, Spells, InMem, Chain, Tables, PtePage;
      if newsz >= oldsz {
        assert Range(Pages(newsz), Pages(oldsz)) == {};
        return oldsz;
      }
      if Pages(newsz) < Pages(oldsz) {
        UvmUnmap(pagetable, Pages(newsz) * PGSIZE, Pages(oldsz) - Pages(newsz), true, t, Pages(newsz));
      }
      r := newsz;
    }

    /** `uvmalloc`: grow by zeroed pages, or undo everything and return 0 when memory runs out. */
    method UvmAlloc(pagetable: nat, oldsz: nat, newsz: nat, xperm: nat, ghost t: Tree)
      returns (r: nat, ghost ok: bool, ghost t': Tree)
      requires Valid() && Owns(t) && t.root == pagetable && Pages(newsz) <= MAXVPN
      requires xperm == 0 || xperm == PTE_W || xperm == PTE_X || xperm == PTE_W + PTE_X
      requires Range(Pages(oldsz), Pages(newsz)) !! MapOf(mem, t).Keys
      modifies this
      ensures Valid() && Owns(t')
      ensures newsz < oldsz ==> r == oldsz && mem == old(mem) && free == old(free) && t' == t
      ensures newsz >= oldsz ==> r == if ok then newsz else 0
      ensures newsz >= oldsz && ok ==>
                Added(old(mem), old(FreeSet()), t, old(MapOf(mem, t)), mem, FreeSet(), t', MapOf(mem, t'),
                      Pages(oldsz), Pages(newsz), q => (PTE_R + PTE_U + xperm + 1, ZERO_PAGE))
      ensures newsz >= oldsz && !ok ==>
                && MapOf(mem, t') == old(MapOf(mem, t))
                && Accounted(old(FreeSet()), t, FreeSet(), t', {})
                && OthersKept(old(mem), Tables(t) + old(FreeSet()), mem)
                && |old(free)| < 3 * (Pages(newsz) - Pages(oldsz))
    {
      hide MapOf, Separate, Spells, InMem, Chain, Tables, MakePte, PtePage, Added, Pages, Accounted, OthersKept, Range;
      t', ok := t, true;
      if newsz < oldsz {
        return oldsz, true, t;
      }
      var perm := PTE_R + PTE_U + xperm;
      ghost var want: Wanted := q => (PTE_R + PTE_U + xperm + 1, ZERO_PAGE);
      ghost var m0, f0, tr0 := mem, FreeSet(), MapOf(mem, t);
      var lo := Pages(oldsz);
      var a := lo * PGSIZE;
      ghost var hi := lo;
      AddedNothing(m0, f0, t, tr0, lo, want);
      while a < newsz
        invariant a == hi * PGSIZE && lo <= hi && Valid() && Owns(t') && t'.root == t.root
        invariant hi <= Pages(newsz) || hi == lo
        invariant |old(free)| <= |free| + 3 * (hi - lo)
        invariant Added(m0, f0, t, tr0, mem, FreeSet(), t', MapOf(mem, t'), lo, hi, want)
      {
        PageBound(hi, newsz);
        ghost var m1, f1, t1, tr1 := mem, FreeSet(), t', MapOf(mem, t');
        NotYetAdded(m0, f0, t, tr0, m1, f1, t1, tr1, lo, hi, Pages(newsz), want);
        var done;
        ghost var p;
        done, t', p := AllocOne(pagetable, a, perm, t', hi);
        if !done {
          AddedGrows(m0, f0, t, tr0, m1, f1, t1, tr1, mem, FreeSet(), t', lo, hi, want);
          Undo(pagetable, a, lo * PGSIZE, m0, f0, t, tr0, t', lo, hi, want);
          return 0, false, t';
        }
        AddedNext(m0, f0, t, tr0, m1, f1, t1, tr1, mem, FreeSet(), t', MapOf(mem, t'), lo, hi, want, p, perm);
        a := a + PGSIZE;
        hi := hi + 1;
      }
      PageBound(hi, newsz);
      PagesMonotone(oldsz, newsz);
      r := newsz;
    }

    /** The roll-back of `uvmalloc` and `uvmcopy`. */
    method Undo(pagetable: nat, from: nat, to: nat, ghost m0: Mem, ghost f0: set<nat>, ghost t: Tree,
                ghost tr0: map<nat, nat>,
                ghost t': Tree, ghost lo: nat, ghost hi: nat, ghost want: Wanted)
      requires Valid() && Owns(t') && t'.root == pagetable && from == hi * PGSIZE && to == lo * PGSIZE && hi <= MAXVPN
      requires Added(m0, f0, t, tr0, mem, FreeSet(), t', MapOf(mem, t'), lo, hi, want)
      modifies this
      ensures Valid() && Owns(t') && MapOf(mem, t') == tr0
      ensures Accounted(f0, t, FreeSet(), t', {}) && OthersKept(m0, Tables(t) + f0, mem)
    {
      hide MapOf, Separate, Spells, InMem, Chain, Tables, PtePage, Pages, Frames, Private, Accounted, OthersKept;
      ghost var m1, f1, tr1 := mem, FreeSet(), MapOf(mem, t');
      PageBound(hi, 0);
      PageBound(lo, 0);
      var _ := UvmDealloc(pagetable, from, to, t');
      AddedUndone(m0, f0, t, tr0, m1, f1, t', tr1, mem, lo, hi, want);
    }

    /** One iteration of `uvmcopy`: a copy of the parent's page `q` mapped in the child, or nothing. */
    method CopyOne(old_: nat, new_: nat, a: nat, ghost o: Tree, ghost t: Tree, ghost q: nat)
      returns (ok: bool, ghost t': Tree, ghost p: nat)
      requires Valid() && Owns(o) && Owns(t) && o.root == old_ && t.root == new_ && Tables(o) !! Tables(t)
      requires q < MAXVPN && a == q * PGSIZE && q !in MapOf(mem, t) && q in MapOf(mem, o)
      requires PtePage(MapOf(mem, o)[q]) in mem && PtePage(MapOf(mem, o)[q]) !in FreeSet()
      modifies this
      ensures Valid() && Owns(t') && t'.root == t.root
      ensures Accounted(old(FreeSet()), t, FreeSet(), t', if ok then {p} else {})
      ensures var e := old(MapOf(mem, o))[q];
              MapOf(mem, t') == if ok then old(MapOf(mem, t))[q := MakePte(p, PteFlags(e))] else old(MapOf(mem, t))
      ensures ok ==> p in mem && mem[p] == old(mem)[PtePage(old(MapOf(mem, o))[q])]
      ensures if ok then |old(free)| <= |free| + 3 else |old(free)| <= 2
      ensures PteFlags(old(MapOf(mem, o))[q]) / 2 * 2 + 1 == PteFlags(old(MapOf(mem, o))[q])
      ensures OthersKept(old(mem), Tables(t) + old(FreeSet()), mem)
    {
      hide MapOf, Separate, Spells, InMem, Chain, Tables, MakePte, PtePage, PteFlags, Accounted, Px;
      MappedEntry(mem, o, a, q);
      var found, page, _ := Walk(old_, a, false, o);
      assert found;
      var pte := mem[page][Px(0, a)];
      assert PteValid(pte);
      var src, flags := PtePage(pte), PteFlags(pte);
      FlagsAreLeafPerm(mem, o, q, pte);
      TablesInMem(mem, t);
      var pg := Kalloc();
      p, t' := pg, t;
      if pg == 0 {
        ok := false;
        AccountNothing(FreeSet(), t);
        return;
      }
      ghost var m1 := mem;
      assert src != pg;
      mem := mem[pg := mem[src]];
      ChainFrame(m1, mem, freelist, free);
      ReprFrame(old(mem), mem, t);
      ghost var f1, touched := FreeSet(), Tables(t) + old(FreeSet());
      assert pg in old(FreeSet()) && OthersKept(old(mem), touched, mem);
      var panicked;
      panicked, ok, t' := MapOne(new_, a, pg, flags, t, q);
      assert OthersKept(old(mem), touched, mem);
      AccountPage(old(FreeSet()), t, f1, FreeSet(), t', pg);
      if !ok {
        ghost var m2 := mem;
        TablesInMem(mem, t');
        Kfree(pg);
        ReprFrame(m2, mem, t');
      }
    }

    /** `uvmcopy`: duplicate the parent's first `sz` bytes into the child, or undo everything. */
    method UvmCopy(old_: nat, new_: nat, sz: nat, ghost o: Tree, ghost t: Tree) returns (ok: bool, ghost t': Tree)
      requires Valid() && Owns(o) && Owns(t) && o.root == old_ && t.root == new_ && Tables(o) !! Tables(t)
      requires Pages(sz) <= MAXVPN && Range(0, Pages(sz)) !! MapOf(mem, t).Keys
      requires Copyable(mem, FreeSet(), t, MapOf(mem, o), Pages(sz))
      modifies this
      ensures Valid() && Owns(t') && Owns(o) && MapOf(mem, o) == old(MapOf(mem, o))
      ensures ok ==> Added(old(mem), old(FreeSet()), t, old(MapOf(mem, t)), mem, FreeSet(), t', MapOf(mem, t'),
                           0, Pages(sz), CopyOf(old(mem), old(MapOf(mem, o))))
      ensures !ok ==> MapOf(mem, t') == old(MapOf(mem, t)) && Accounted(old(FreeSet()), t, FreeSet(), t', {})
      ensures !ok ==> |old(free)| < 3 * Pages(sz)
      ensures OthersKept(old(mem), Tables(t) + old(FreeSet()), mem)
    {
      hide MapOf, Separate, Spells, InMem, Chain, Tables, MakePte, PtePage, PteFlags, Added, Pages, Accounted,
           OthersKept, Range,
           CopyOf, Copyable;
      t', ok := t, true;
      ghost var m0, f0, tr0, otr := mem, FreeSet(), MapOf(mem, t), MapOf(mem, o);
      ghost var want := CopyOf(m0, otr);
      var i := 0;
      ghost var hi := 0;
      AddedNothing(m0, f0, t, tr0, 0, want);
      while i < sz
        invariant i == hi * PGSIZE && Valid() && Owns(t') && t'.root == t.root
        invariant hi <= Pages(sz) && |old(free)| <= |free| + 3 * hi
        invariant Added(m0, f0, t, tr0, mem, FreeSet(), t', MapOf(mem, t'), 0, hi, want)
      {
        PageBound(hi, sz);
        ghost var m1, f1, t1, tr1 := mem, FreeSet(), t', MapOf(mem, t');
        NotYetAdded(m0, f0, t, tr0, m1, f1, t1, tr1, 0, hi, Pages(sz), want);
        ParentKept(m0, f0, t, m1, f1, t1, o, tr0, tr1, otr, hi, Pages(sz), want);
        ghost var p;
        ok, t', p := CopyOne(old_, new_, i, o, t', hi);
        if !ok {
          AddedGrows(m0, f0, t, tr0, m1, f1, t1, tr1, mem, FreeSet(), t', 0, hi, want);
          AddedKeepsTree(m0, f0, t, tr0, mem, FreeSet(), t', tr1, o, 0, hi, want);
          UndoCopy(new_, i, m0, f0, t, tr0, t', hi, want);
          AccountedSubset(f0, t, FreeSet(), t', {});
          KeptTree(m0, f0, t, mem, FreeSet(), t', o);
          return false, t';
        }
        WantedCopy(m0, f0, t, m1, f1, t1, tr0, tr1, otr, hi, Pages(sz), want);
        AddedNext(m0, f0, t, tr0, m1, f1, t1, tr1, mem, FreeSet(), t', MapOf(mem, t'), 0, hi, want, p,
            PteFlags(otr[hi]));
        i := i + PGSIZE;
        hi := hi + 1;
      }
      PageBound(hi, sz);
      AddedKeepsTree(m0, f0, t, tr0, mem, FreeSet(), t', MapOf(mem, t'), o, 0, hi, want);
    }

    method UndoCopy(new_: nat, i: nat, ghost m0: Mem, ghost f0: set<nat>, ghost t: Tree, ghost tr0: map<nat, nat>,
                    ghost t': Tree, ghost hi: nat, ghost want: Wanted)
      requires Valid() && Owns(t') && t'.root == new_ && i == hi * PGSIZE && hi <= MAXVPN
      requires Added(m0, f0, t, tr0, mem, FreeSet(), t', MapOf(mem, t'), 0, hi, want)
      modifies this
      ensures Valid() && Owns(t') && MapOf(mem, t') == tr0
      ensures Accounted(f0, t, FreeSet(), t', {}) && OthersKept(m0, Tables(t) + f0, mem)
    {
      hide MapOf, Separate, Spells, InMem, Chain, Tables, PtePage, Frames, Accounted, OthersKept;
      ghost var m1, f1, tr1 := mem, FreeSet(), MapOf(mem, t');
      UvmUnmap(new_, 0, i / PGSIZE, true, t', 0);
      AddedUndone(m0, f0, t, tr0, m1, f1, t', tr1, mem, 0, hi, want);
    }

    /** `freewalk`: free the table at `page` and every table below it. The caller has removed all
        leaves, so its panic is unreachable. `m0` is the memory in which `t` was last whole. */
    method FreeWalk(page: nat, ghost level: nat, ghost i: nat, ghost k: nat, ghost m0: Mem, ghost t: Tree)
      requires level <= 2 && Repr(m0, t) && MapOf(m0, t) == map[] && Node(t, level, i, k, page)
      requires Valid() && mem.Keys == m0.Keys && Subtree(t, level, i, page) !! FreeSet()
      requires forall p :: p in Subtree(t, level, i, page) ==> p in mem && mem[p] == m0[p]
      modifies this
      ensures Valid() && FreeSet() == old(FreeSet()) + Subtree(t, level, i, page)
      ensures OthersKept(old(mem), Subtree(t, level, i, page), mem)
      decreases level
    {
      hide MapOf, Separate, Spells, InMem, Chain, Below, PteValid, PteLeaf, PtePage, Node;
      PageApart(t, level, i, k, page);
      var n := 0;
      while n < ENTRIES
        invariant n <= ENTRIES && Valid() && FreeSet() == old(FreeSet()) + Below(t, level, i, n)
        invariant OthersKept(old(mem), {page} + Below(t, level, i, n), mem)
        invariant page in mem && page !in FreeSet()
        invariant forall x :: n <= x < ENTRIES ==> mem[page][x] == m0[page][x]
      {
        SlotOf(m0, t, level, i, k, page, n);
        var pte := mem[page][n];
        if PteValid(pte) && !PteLeaf(pte) {
          FreeChild(page, n, PtePage(pte), level, i, k, m0, t, old(mem), old(FreeSet()));
        } else if PteValid(pte) {
          assert false;
        }
        n := n + 1;
      }
      Kfree(page);
    }

    /** The recursive call of `freewalk` and the store that follows it. */
    method FreeChild(page: nat, n: nat, child: nat, ghost level: nat, ghost i: nat, ghost k: nat, ghost m0: Mem,
                     ghost t: Tree,
                     ghost m1: Mem, ghost f1: set<nat>)
      requires 1 <= level <= 2 && Repr(m0, t) && MapOf(m0, t) == map[] && Node(t, level, i, k, page) && n < ENTRIES
      requires Node(t, level - 1, ChildTop(level, i, n), n, child)
      requires Below(t, level, i, n + 1) == Below(t, level, i, n) + Subtree(t, level - 1, ChildTop(level, i, n), child)
      requires Valid() && m1.Keys == m0.Keys && Subtree(t, level, i, page) !! f1
      requires forall p :: p in Subtree(t, level, i, page) ==> p in m1 && m1[p] == m0[p]
      requires FreeSet() == f1 + Below(t, level, i, n) && OthersKept(m1, {page} + Below(t, level, i, n), mem)
      requires page in mem && page !in FreeSet()
      requires forall x :: n <= x < ENTRIES ==> mem[page][x] == m0[page][x]
      modifies this
      ensures Valid() && FreeSet() == f1 + Below(t, level, i, n + 1)
      ensures OthersKept(m1, {page} + Below(t, level, i, n + 1), mem)
      ensures page in mem && page !in FreeSet()
      ensures forall x :: n < x < ENTRIES ==> mem[page][x] == m0[page][x]
      decreases level, 0
    {
      hide MapOf, Separate, Spells, InMem, Chain, Below, Node, PteValid, PteLeaf;
      ChildApart(t, level, i, k, page, n, child);
      FreeWalk(child, level - 1, ChildTop(level, i, n), n, m0, t);
      ghost var m2 := mem;
      mem := mem[page := mem[page][n := 0]];
      ChainFrame(m2, mem, freelist, free);
    }

    /** `uvmfree`: free the user pages, then every table page. */
    method UvmFree(pagetable: nat, sz: nat, ghost t: Tree)
      requires Valid() && Owns(t) && t.root == pagetable && Pages(sz) <= MAXVPN
      requires MapOf(mem, t).Keys == Range(0, Pages(sz)) && Private(mem, FreeSet(), t, MapOf(mem, t), 0, Pages(sz))
      modifies this
      ensures Valid() && OthersKept(old(mem), Tables(t) + Frames(old(MapOf(mem, t)), 0, Pages(sz)), mem)
      ensures FreeSet() == old(FreeSet()) + Tables(t) + Frames(old(MapOf(mem, t)), 0, Pages(sz))
    {
      hide MapOf, Spells, InMem, Chain, Tables, PtePage, Separate;
      ghost var tr := MapOf(mem, t);
      if sz > 0 {
        UvmUnmap(pagetable, 0, Pages(sz), true, t, 0);
      } else {
        NoFrames(tr, 0);
      }
      assert MapOf(mem, t).Keys == {};
      WholeTree(t);
      TablesInMem(mem, t);
      FreeWalk(pagetable, 2, 0, 0, mem, t);
    }

    /** `uvmunmap(pagetable, va, 1, 0)` for a page whose memory belongs to someone else. */
    method UnmapFixed(pagetable: nat, q: nat, ghost t: Tree)
      requires Valid() && Owns(t) && t.root == pagetable && q < MAXVPN && q in MapOf(mem, t)
      modifies this
      ensures Valid() && Owns(t) && MapOf(mem, t) == old(MapOf(mem, t)) - {q}
      ensures FreeSet() == old(FreeSet()) && OthersKept(old(mem), Tables(t), mem)
    {
      hide MapOf, Separate, Spells, InMem, Chain, Tables, PtePage;
      assert Range(q, q + 1) == {q};
      UvmUnmap(pagetable, q * PGSIZE, 1, false, t, q);
    }

    /** Free a table that maps nothing but the trampoline, or nothing at all. */
    method FreeEmpty(pagetable: nat, hasTrampoline: bool, ghost t: Tree)
      requires Valid() && Owns(t) && t.root == pagetable
      requires MapOf(mem, t).Keys == if hasTrampoline then {TRAMPOLINE_PAGE} else {}
      modifies this
      ensures Valid() && OthersKept(old(mem), Tables(t), mem) && FreeSet() == old(FreeSet()) + Tables(t)
    {
      hide MapOf, Separate, Spells, InMem, Chain, Tables, PtePage;
      if hasTrampoline {
        UnmapFixed(pagetable, TRAMPOLINE_PAGE, t);
        assert MapOf(mem, t).Keys == {};
      }
      NoFrames(MapOf(mem, t), 0);
      UvmFree(pagetable, 0, t);
    }

    /** `proc_pagetable`: an empty user page table with trampoline and trapframe, or nothing at all. */
    method ProcPagetable(trampoline: nat, trapframe: nat) returns (pagetable: nat, ghost t: Tree)
      requires Valid()
      modifies this
      ensures Valid() && OthersKept(old(mem), old(FreeSet()), mem)
      ensures pagetable == 0 ==> FreeSet() == old(FreeSet()) && |old(free)| < 5
      ensures pagetable != 0 ==>
                && t.root == pagetable && UserTable(mem, FreeSet(), t, 0)
                && old(FreeSet()) == FreeSet() + Tables(t)
                && MapOf(mem, t) == map[TRAMPOLINE_PAGE := MakePte(trampoline, PTE_R + PTE_X),
                                        TRAPFRAME_PAGE := MakePte(trapframe, PTE_R + PTE_W)]
                && |old(free)| <= |free| + 5
    {
      hide MapOf, Separate, Spells, InMem, Chain, MakePte, PtePage, Tables, Grown;
      pagetable := ZeroedPage();
      t := Tree(pagetable, map[], map[]);
      if pagetable == 0 {
        return;
      }
      EmptyTable(mem, t);
      var ok;
      ghost var m1, f1, t1 := mem, FreeSet(), t;
      var panicked;
      panicked, ok, t := MapOne(pagetable, TRAMPOLINE_PAGE * PGSIZE, trampoline, PTE_R + PTE_X, t, TRAMPOLINE_PAGE);
      StillTaken(old(mem), old(FreeSet()), m1, f1, t1, mem, FreeSet(), t);
      if !ok {
        FreeEmpty(pagetable, false, t);
        return 0, t;
      }
      ghost var m2, f2, t2 := mem, FreeSet(), t;
      panicked, ok, t := MapOne(pagetable, TRAPFRAME_PAGE * PGSIZE, trapframe, PTE_R + PTE_W, t, TRAPFRAME_PAGE);
      StillTaken(old(mem), old(FreeSet()), m2, f2, t2, mem, FreeSet(), t);
      if !ok {
        FreeEmpty(pagetable, true, t);
        return 0, t;
      }
      NoFrames(MapOf(mem, t), 0);
    }

    /** `proc_freepagetable`: everything the table held is free again. */
    method ProcFreePagetable(pagetable: nat, sz: nat, ghost t: Tree)
      requires Valid() && UserTable(mem, FreeSet(), t, Pages(sz)) && t.root == pagetable
      modifies this
      ensures Valid() && OthersKept(old(mem), old(Held(mem, t, Pages(sz))), mem)
      ensures FreeSet() == old(FreeSet()) + old(Held(mem, t, Pages(sz)))
    {
      hide MapOf, Separate, Spells, InMem, Chain, Tables, PtePage, Frames, Range;
      ghost var tr := MapOf(mem, t);
      UnmapFixed(pagetable, TRAMPOLINE_PAGE, t);
      UnmapFixed(pagetable, TRAPFRAME_PAGE, t);
      LoseFixed(old(mem), mem, FreeSet(), t, tr, MapOf(mem, t), Pages(sz));
      UvmFree(pagetable, sz, t);
    }

    /** `growproc`, with its 64-bit wrap when shrinking by more than the size. */
    method GrowProc(pagetable: nat, sz: nat, n: int, ghost t: Tree) returns (ok: bool, sz': nat, ghost t': Tree)
      requires Valid() && UserTable(mem, FreeSet(), t, Pages(sz)) && t.root == pagetable
      requires -0x8000_0000 <= n < 0x8000_0000
      modifies this
      ensures Valid() && Repr(mem, t')
      ensures Resized(old(mem), old(FreeSet()), t, mem, FreeSet(), t', Pages(sz), Pages(sz'))
      ensures sz' == if ok && sz + n >= 0 then sz + n else sz
      ensures FreshPages(mem, MapOf(mem, t'), Pages(sz), Pages(sz'))
      ensures !ok ==> n > 0 && |old(free)| < 3 * (Pages(sz + n) - Pages(sz))
    {
      hide MapOf, Separate, Spells, InMem, Chain, Tables, PtePage, Frames, Range, Pages, Added, Private, UserTable,
           OthersKept,
           Resized, FreshPages;
      UserTableParts(mem, FreeSet(), t, Pages(sz));
      BelowTrapframe(mem, FreeSet(), t, sz, n);
      ghost var m0, f0, tr0 := mem, FreeSet(), MapOf(mem, t);
      ok, sz', t' := true, sz, t;
      Unresized(mem, FreeSet(), t, Pages(sz));
      NoFreshPages(mem, tr0, Pages(sz), Pages(sz));
      if n > 0 {
        PageBound(TRAPFRAME_PAGE, sz + n);
        PagesMonotone(sz, sz + n);
        AboveUser(tr0, Pages(sz), Pages(sz + n));
        var r;
        ghost var grown;
        r, grown, t' := UvmAlloc(pagetable, sz, sz + n, PTE_W, t);
        if r == 0 {
          ResizeFailed(m0, f0, mem, FreeSet(), t, t', Pages(sz));
          NoFreshPages(mem, MapOf(mem, t'), Pages(sz), Pages(sz));
          return false, sz, t';
        }
        GrowDone(m0, f0, mem, FreeSet(), t, t', Pages(sz), Pages(sz + n), q => (PTE_R + PTE_U + PTE_W + 1, ZERO_PAGE));
        AddedFresh(m0, f0, t, tr0, mem, FreeSet(), t', MapOf(mem, t'), Pages(sz), Pages(sz + n));
        sz' := r;
      } else if n < 0 {
        var newsz := if sz + n >= 0 then sz + n else sz + n + 0x1_0000_0000_0000_0000;
        if newsz < sz {
          PagesMonotone(newsz, sz);
        }
        PrivateTail(m0, f0, t, tr0, Pages(newsz), Pages(sz));
        sz' := UvmDealloc(pagetable, sz, newsz, t);
        if newsz < sz {
          ShrinkDone(m0, f0, mem, FreeSet(), t, Pages(newsz), Pages(sz));
        }
        NoFreshPages(mem, MapOf(mem, t), Pages(sz), Pages(sz'));
      }
    }

    /** The memory part of `fork`: a child table with a copy of the parent's pages, or nothing. */
    method ForkMemory(parent: nat, sz: nat, trampoline: nat, trapframe: nat, ghost o: Tree)
      returns (child: nat, ghost t: Tree)
      requires Valid() && UserTable(mem, FreeSet(), o, Pages(sz)) && o.root == parent
      modifies this
      ensures Valid() && UserTable(mem, FreeSet(), o, Pages(sz)) && MapOf(mem, o) == old(MapOf(mem, o))
      ensures OthersKept(old(mem), old(FreeSet()), mem)
      ensures child == 0 ==> FreeSet() == old(FreeSet()) && |old(free)| < 5 + 3 * Pages(sz)
      ensures child != 0 ==>
                && t.root == child && UserTable(mem, FreeSet(), t, Pages(sz))
                && Held(mem, t, Pages(sz)) !! Held(mem, o, Pages(sz))
                && old(FreeSet()) == FreeSet() + Held(mem, t, Pages(sz))
                && Copied(old(mem), MapOf(mem, o), mem, MapOf(mem, t), Pages(sz))
                && FixedPages(MapOf(mem, t), trampoline, trapframe)
    {
      hide MapOf, Separate, Spells, InMem, Chain, Tables, PtePage, Frames, Range, Pages, Added, Private, UserTable,
           OthersKept,
           Copyable, Copied, Held, MakePte;
      ghost var n := Pages(sz);
      UserTableParts(mem, FreeSet(), o, n);
      ghost var m0, f0 := mem, FreeSet();
      child, t := ProcPagetable(trampoline, trapframe);
      if child == 0 {
        Untouched(m0, f0, mem, FreeSet(), o, n);
        return;
      }
      ghost var m1, f1, t1 := mem, FreeSet(), t;
      Untouched(m0, f0, mem, FreeSet(), o, n);
      UserTableParts(mem, FreeSet(), t, 0);
      UserTableParts(mem, FreeSet(), o, n);
      AboveUser(MapOf(mem, t), 0, n);
      CanCopy(m0, f0, m1, f1, o, t, n);
      var ok;
      ok, t := UvmCopy(parent, child, sz, o, t);
      ghost var m2 := mem;
      if !ok {
        ResizeFailed(m1, f1, mem, FreeSet(), t1, t, 0);
        Child(m0, f0, m1, f1, t1, mem, FreeSet(), t, 0, o, n);
        PageBound(0, 0);
        ProcFreePagetable(child, 0, t);
        KeptTrans(m0, f0, m2, Held(m2, t, 0), mem);
        Untouched(m0, f0, mem, FreeSet(), o, n);
        return 0, t;
      }
      GrowDone(m1, f1, mem, FreeSet(), t1, t, 0, n, CopyOf(m1, MapOf(m1, o)));
      Child(m0, f0, m1, f1, t1, mem, FreeSet(), t, n, o, n);
      CopiedFrom(m0, f0, m1, f1, t1, MapOf(m1, o), MapOf(m1, t1), mem, FreeSet(), t, MapOf(mem, t), n);
      FixedAbove(m1, f1, t1, MapOf(m1, t1), mem, FreeSet(), t, MapOf(mem, t), n, CopyOf(m1, MapOf(m1, o)), trampoline,
                 trapframe);
    }

    /** A whole life: create a table, grow and shrink it by any sequence of `sbrk` amounts, fork, and
        free both tables. Whatever fails on the way, the free set is back where it started and no
        page outside it was written. */
    method Lifecycle(trampoline: nat, trapframe: nat, childTrapframe: nat, sbrks: seq<int>)
      requires Valid()
      requires forall i :: 0 <= i < |sbrks| ==> -0x8000_0000 <= sbrks[i] < 0x8000_0000
      modifies this
      ensures Valid() && FreeSet() == old(FreeSet()) && OthersKept(old(mem), old(FreeSet()), mem)
    {
      hide MapOf, Separate, Spells, InMem, Chain, Tables, PtePage, Frames, Range, Pages, Private, UserTable, OthersKept,
           Held,
           MakePte, Copied, SameMemory;
      var pagetable;
      ghost var m0, f0, t := mem, FreeSet(), Tree(0, map[], map[]);
      pagetable, t := ProcPagetable(trampoline, trapframe);
      if pagetable == 0 {
        return;
      }
      PageBound(0, 0);
      UserTableParts(mem, FreeSet(), t, 0);
      NoFrames(MapOf(mem, t), 0);
      var sz: nat := 0;
      for i := 0 to |sbrks|
        invariant Valid() && UserTable(mem, FreeSet(), t, Pages(sz)) && t.root == pagetable && Repr(mem, t)
        invariant f0 == FreeSet() + Held(mem, t, Pages(sz)) && OthersKept(m0, f0, mem)
      {
        ghost var m1 := mem;
        var ok;
        ok, sz, t := GrowProc(pagetable, sz, sbrks[i], t);
        KeptTrans(m0, f0, m1, f0, mem);
        UserTableParts(mem, FreeSet(), t, Pages(sz));
      }
      ghost var m2, f2 := mem, FreeSet();
      ghost var c;
      var child;
      child, c := ForkMemory(pagetable, sz, trampoline, childTrapframe, t);
      KeptTrans(m0, f0, m2, f2, mem);
      UserTableParts(mem, FreeSet(), t, Pages(sz));
      assert Held(mem, t, Pages(sz)) == Held(m2, t, Pages(sz)) by {
        HeldByMap(m2, mem, t, Pages(sz));
      }
      if child != 0 {
        UserTableParts(mem, FreeSet(), c, Pages(sz));
        ghost var m3, h := mem, Held(mem, c, Pages(sz));
        ProcFreePagetable(child, sz, c);
        KeptTrans(m0, f0, m3, h, mem);
        KeptTrans(m2, f2, m3, h, mem);
        Untouched(m2, f2, mem, FreeSet(), t, Pages(sz));
        UserTableParts(mem, FreeSet(), t, Pages(sz));
        HeldByMap(m2, mem, t, Pages(sz));
      }
      ghost var m4, h := mem, Held(mem, t, Pages(sz));
      ProcFreePagetable(pagetable, sz, t);
      KeptTrans(m0, f0, m4, h, mem);
    }
  }
}
