/** Sv39 page tables as they lie in memory: entry format, index fields, and the map from virtual
    page to leaf entry that a three-level tree of table pages stands for. */
module Sv39 {
  import opened Basics

  const ENTRIES: nat := 512
  const TOP_ENTRIES: nat := 256         // root slots reachable below MAXVA
  const MAXVA: nat := 0x40_0000_0000    // 1 << 38
  const MAXVPN: nat := 0x400_0000       // MAXVA / PGSIZE

  const PTE_R: nat := 2
  const PTE_W: nat := 4
  const PTE_X: nat := 8
  const PTE_U: nat := 16

  /** One page of memory as 512 eight-byte words. */
  type Page = p: seq<nat> | |p| == ENTRIES witness seq(ENTRIES, _ => 0)

  /** Physical memory, by physical page number: page `p` lies at address `p * PGSIZE`. */
  type Mem = map<nat, Page>

  predicate PteValid(e: nat) { e % 2 == 1 }
  predicate PteLeaf(e: nat) { e / 2 % 8 != 0 }
  function PtePage(e: nat): nat { e / 1024 }    // PTE2PA(e) / PGSIZE
  function PteFlags(e: nat): nat { e % 1024 }

  /** Permission bits that make an entry a leaf: some of R, W, X. */
  predicate LeafPerm(perm: nat) { perm < 1024 && perm / 2 % 8 != 0 }

  /** `PA2PTE(p * PGSIZE) | perm | PTE_V`. */
  function MakePte(p: nat, perm: nat): nat {
    p * 1024 + perm / 2 * 2 + 1
  }

  lemma PteFields(p: nat, perm: nat)
    requires perm < 1024
    ensures var e := MakePte(p, perm);
            && PteValid(e) && PtePage(e) == p && PteFlags(e) == perm / 2 * 2 + 1
            && (PteLeaf(e) <==> LeafPerm(perm))
  {
    var r := perm / 2 * 2 + 1;
    assert MakePte(p, perm) == 1024 * p + r;
    EvenPart(p, r);
    Modulus8(64 * p, r / 2);
    assert r / 2 == perm / 2;
  }

  lemma EvenPart(d: nat, r: nat)
    ensures (1024 * d + r) / 2 == 512 * d + r / 2 && (1024 * d + r) % 2 == r % 2
  {
  }

  lemma Modulus8(k: nat, h: nat)
    ensures (8 * k + h) % 8 == h % 8
  {
    assert 8 * k + h == 8 * (k + h / 8) + h % 8;
  }

  /** `PX(level, va)`. */
  function Px(level: nat, va: nat): (i: nat)
    requires level <= 2
    ensures i < ENTRIES
  {
    (if level == 0 then va / 0x1000 else if level == 1 then va / 0x20_0000 else va / 0x4000_0000) % ENTRIES
  }

  /** Pages needed for `sz` bytes: `PGROUNDUP(sz) / PGSIZE`. */
  function Pages(sz: nat): nat { (sz + PGSIZE - 1) / PGSIZE }

  /** Where the table pages are: the root, the middle tables by top index, and the bottom tables by
      top and middle index. */
  datatype Tree = Tree(root: nat, mid: map<nat, nat>, low: map<(nat, nat), nat>)

  ghost function Tables(t: Tree): set<nat> {
    {t.root} + t.mid.Values + t.low.Values
  }

  /** Each table page is reached along one path only. */
  ghost predicate Separate(t: Tree) {
    && (forall i :: i in t.mid ==> i < TOP_ENTRIES && t.mid[i] != t.root)
    && (forall j :: j in t.low ==> j.0 in t.mid && j.1 < ENTRIES && t.low[j] != t.root)
    && (forall i, i' :: i in t.mid && i' in t.mid && i != i' ==> t.mid[i] != t.mid[i'])
    && (forall j, j' :: j in t.low && j' in t.low && j != j' ==> t.low[j] != t.low[j'])
    && (forall i, j :: i in t.mid && j in t.low ==> t.mid[i] != t.low[j])
  }

  ghost predicate InMem(m: Mem, t: Tree) {
    && t.root in m
    && (forall i :: i in t.mid ==> t.mid[i] in m)
    && (forall j :: j in t.low ==> t.low[j] in m)
  }

  /** Entry `e` points to table page `pa`. */
  predicate PointsTo(e: nat, pa: nat) { PteValid(e) && !PteLeaf(e) && PtePage(e) == pa }

  /** The words in memory spell out exactly the tree, and bottom tables hold only leaf entries. */
  ghost predicate Spells(m: Mem, t: Tree)
    requires InMem(m, t)
  {
    && (forall i :: 0 <= i < ENTRIES ==>
          if i in t.mid then PointsTo(m[t.root][i], t.mid[i]) else !PteValid(m[t.root][i]))
    && (forall i, k :: i in t.mid && 0 <= k < ENTRIES ==>
          if (i, k) in t.low then PointsTo(m[t.mid[i]][k], t.low[(i, k)]) else !PteValid(m[t.mid[i]][k]))
    && (forall j, k :: j in t.low && 0 <= k < ENTRIES && PteValid(m[t.low[j]][k]) ==> PteLeaf(m[t.low[j]][k]))
  }

  ghost predicate Repr(m: Mem, t: Tree) {
    Separate(t) && InMem(m, t) && Spells(m, t)
  }

  /** A virtual page by its three indices. */
  datatype Vp = Vp(top: nat, mid: nat, low: nat)

  function At(q: nat): (v: Vp)
    ensures v.low < ENTRIES && v.mid < ENTRIES
  {
    Vp(q / ENTRIES / ENTRIES, q / ENTRIES % ENTRIES, q % ENTRIES)
  }

  /** Dividing twice is dividing by the product, for the two products used here. */
  lemma Quotients(va: nat, a: nat, b: nat, c: nat)
    requires a == va / 0x1000 && b == a / ENTRIES && c == b / ENTRIES
    ensures va / 0x20_0000 == b && va / 0x4000_0000 == c
  {
    var r, s, t := va % 0x1000, a % ENTRIES, b % ENTRIES;
    assert va == 0x1000 * a + r && a == ENTRIES * b + s && b == ENTRIES * c + t;
    Quotient(va, 0x20_0000, b, 0x1000 * s + r);
    Quotient(va, 0x4000_0000, c, 0x20_0000 * t + 0x1000 * s + r);
  }

  lemma Quotient(x: nat, m: nat, q: nat, r: nat)
    requires x == m * q + r && r < m
    ensures x / m == q
  {
    var y := x / m;
    assert x == m * y + x % m;
    assert y - q >= 1 ==> m * (y - q) >= m;
    assert q - y >= 1 ==> m * (q - y) >= m;
  }

  /** The index fields of an address below MAXVA are those of its page. */
  lemma IndexFields(va: nat, q: nat)
    requires q < MAXVPN && q * PGSIZE <= va < (q + 1) * PGSIZE
    ensures At(q) == Vp(Px(2, va), Px(1, va), Px(0, va))
  {
    Quotients(va, q, q / ENTRIES, q / ENTRIES / ENTRIES);
  }

  /** No two pages share all three index fields. */
  lemma AtInjective(q: nat, r: nat)
    requires At(q) == At(r)
    ensures q == r
  {
  }

  /** The leaf entry a virtual page translates through, if it is mapped. */
  ghost function Leaf(m: Mem, t: Tree, v: Vp): Option<nat>
    requires InMem(m, t) && v.low < ENTRIES
  {
    if (v.top, v.mid) in t.low && PteValid(m[t.low[(v.top, v.mid)]][v.low])
    then Some(m[t.low[(v.top, v.mid)]][v.low]) else None
  }

  ghost predicate SameLeaves(m: Mem, t: Tree, m': Mem, t': Tree)
    requires InMem(m, t) && InMem(m', t')
  {
    forall v: Vp :: v.low < ENTRIES ==> Leaf(m', t', v) == Leaf(m, t, v)
  }

  /** What the tree stands for: virtual page number to leaf entry. */
  ghost function MapOf(m: Mem, t: Tree): map<nat, nat>
    requires InMem(m, t)
  {
    map q: nat | q < MAXVPN && Leaf(m, t, At(q)).Some? :: Leaf(m, t, At(q)).value
  }

  /** Changes outside the table pages do not matter to the tree. */
  lemma ReprFrame(m: Mem, m': Mem, t: Tree)
    requires Repr(m, t)
    requires forall p :: p in Tables(t) ==> p in m' && p in m && m'[p] == m[p]
    ensures Repr(m', t) && SameLeaves(m, t, m', t) && MapOf(m', t) == MapOf(m, t)
  {
    forall i | i in t.mid
      ensures t.mid[i] in m' && m'[t.mid[i]] == m[t.mid[i]]
    {
      assert t.mid[i] in Tables(t);
    }
    forall j | j in t.low
      ensures t.low[j] in m' && m'[t.low[j]] == m[t.low[j]]
    {
      assert t.low[j] in Tables(t);
    }
    assert t.root in Tables(t);
  }

  /** Storing a leaf entry, or clearing one, changes that page's translation and no other. */
  lemma SetLeaf(m: Mem, m': Mem, t: Tree, q: nat, e: nat)
    requires Repr(m, t) && q < MAXVPN && (At(q).top, At(q).mid) in t.low
    requires PteValid(e) ==> PteLeaf(e)
    requires var p := t.low[(At(q).top, At(q).mid)]; m' == m[p := m[p][At(q).low := e]]
    ensures Repr(m', t)
    ensures MapOf(m', t) == if PteValid(e) then MapOf(m, t)[q := e] else MapOf(m, t) - {q}
  {
    SetLeafSpells(m, m', t, At(q), e);
    SetLeafMap(m, m', t, q, e);
  }

  lemma SetLeafMap(m: Mem, m': Mem, t: Tree, q: nat, e: nat)
    requires InMem(m, t) && InMem(m', t) && q < MAXVPN && (At(q).top, At(q).mid) in t.low
    requires m'[t.low[(At(q).top, At(q).mid)]] == m[t.low[(At(q).top, At(q).mid)]][At(q).low := e]
    requires forall j :: j in t.low && j != (At(q).top, At(q).mid) ==> m'[t.low[j]] == m[t.low[j]]
    ensures MapOf(m', t) == if PteValid(e) then MapOf(m, t)[q := e] else MapOf(m, t) - {q}
  {
    assert Leaf(m', t, At(q)) == if PteValid(e) then Some(e) else None;
    forall r: nat | r != q
      ensures Leaf(m', t, At(r)) == Leaf(m, t, At(r))
    {
      if At(r) == At(q) {
        AtInjective(r, q);
      }
    }
  }

  lemma SetLeafSpells(m: Mem, m': Mem, t: Tree, v: Vp, e: nat)
    requires Repr(m, t) && (v.top, v.mid) in t.low && v.low < ENTRIES
    requires PteValid(e) ==> PteLeaf(e)
    requires var p := t.low[(v.top, v.mid)]; m' == m[p := m[p][v.low := e]]
    ensures InMem(m', t) && Spells(m', t)
    ensures forall j :: j in t.low && j != (v.top, v.mid) ==> m'[t.low[j]] == m[t.low[j]]
  {
    assert forall i :: i in t.mid ==> m'[t.mid[i]] == m[t.mid[i]];
    assert m'[t.root] == m[t.root];
  }

  ghost predicate IsZero(p: Page) { forall k :: 0 <= k < ENTRIES ==> p[k] == 0 }

  lemma ValuesAdd<K>(m: map<K, nat>, k: K, v: nat)
    requires k !in m
    ensures m[k := v].Values == m.Values + {v}
  {
    var m' := m[k := v];
    forall x | x in m.Values + {v}
      ensures x in m'.Values
    {
      if x in m.Values {
        var q :| q in m && m[q] == x;
        assert q in m' && m'[q] == x;
      } else {
        assert m'[k] == x;
      }
    }
  }

  lemma NotATable(t: Tree, pa: nat)
    requires pa !in Tables(t)
    ensures pa != t.root
    ensures forall i :: i in t.mid ==> t.mid[i] != pa
    ensures forall j :: j in t.low ==> t.low[j] != pa
  {
    assert forall i :: i in t.mid ==> t.mid[i] in t.mid.Values;
    assert forall j :: j in t.low ==> t.low[j] in t.low.Values;
  }

  lemma SeparateAdd(t: Tree, i: nat, k: nat, pa: nat)
    requires Separate(t) && pa !in Tables(t) && i < TOP_ENTRIES && k < ENTRIES
    ensures i !in t.mid ==> Separate(t.(mid := t.mid[i := pa]))
    ensures i in t.mid && (i, k) !in t.low ==> Separate(t.(low := t.low[(i, k) := pa]))
  {
    NotATable(t, pa);
  }

  /** Hanging a zeroed page under the root adds a middle table and no translation. */
  lemma AddMid(m: Mem, m': Mem, t: Tree, t': Tree, i: nat, pa: nat)
    requires Repr(m, t) && i < TOP_ENTRIES && i !in t.mid
    requires pa in m && pa !in Tables(t) && IsZero(m[pa])
    requires m' == m[t.root := m[t.root][i := MakePte(pa, 0)]]
    requires t' == t.(mid := t.mid[i := pa])
    ensures Repr(m', t') && MapOf(m', t') == MapOf(m, t) && Tables(t') == Tables(t) + {pa}
  {
    ValuesAdd(t.mid, i, pa);
    SeparateAdd(t, i, 0, pa);
    NotATable(t, pa);
    SpellsMid(m, m', t, t', i, pa);
  }

  lemma TablePte(pa: nat)
    ensures PointsTo(MakePte(pa, 0), pa) && !PteValid(0)
  {
    PteFields(pa, 0);
  }

  lemma SpellsMid(m: Mem, m': Mem, t: Tree, t': Tree, i: nat, pa: nat)
    requires Separate(t) && InMem(m, t) && Spells(m, t) && i < ENTRIES && i !in t.mid
    requires pa in m && pa != t.root && IsZero(m[pa])
    requires m' == m[t.root := m[t.root][i := MakePte(pa, 0)]]
    requires t' == t.(mid := t.mid[i := pa])
    ensures InMem(m', t') && Spells(m', t') && SameLeaves(m, t, m', t')
  {
    hide MakePte, PteValid, PteLeaf, PtePage;
    TablePte(pa);
    assert forall j :: j in t.low ==> m'[t.low[j]] == m[t.low[j]];
    assert forall k :: k in t.mid ==> m'[t.mid[k]] == m[t.mid[k]];
  }

  /** Likewise for a bottom table hung under a middle table. */
  lemma AddLow(m: Mem, m': Mem, t: Tree, t': Tree, i: nat, k: nat, pa: nat)
    requires Repr(m, t) && i in t.mid && k < ENTRIES && (i, k) !in t.low
    requires pa in m && pa !in Tables(t) && IsZero(m[pa])
    requires m' == m[t.mid[i] := m[t.mid[i]][k := MakePte(pa, 0)]]
    requires t' == t.(low := t.low[(i, k) := pa])
    ensures Repr(m', t') && MapOf(m', t') == MapOf(m, t) && Tables(t') == Tables(t) + {pa}
  {
    ValuesAdd(t.low, (i, k), pa);
    SeparateAdd(t, i, k, pa);
    NotATable(t, pa);
    SpellsLow(m, m', t, t', i, k, pa);
    SameMapLow(m, m', t, t', i, k, pa);
  }

  lemma SpellsLow(m: Mem, m': Mem, t: Tree, t': Tree, i: nat, k: nat, pa: nat)
    requires Separate(t) && InMem(m, t) && Spells(m, t) && i in t.mid && k < ENTRIES && (i, k) !in t.low
    requires pa in m && IsZero(m[pa]) && pa != t.mid[i]
    requires m' == m[t.mid[i] := m[t.mid[i]][k := MakePte(pa, 0)]]
    requires t' == t.(low := t.low[(i, k) := pa])
    ensures InMem(m', t') && Spells(m', t')
  {
    hide MakePte, PteValid, PteLeaf, PtePage;
    TablePte(pa);
    assert forall j :: j in t.low ==> m'[t.low[j]] == m[t.low[j]];
    assert m'[t.root] == m[t.root] && m'[pa] == m[pa];
    forall q, l | q in t.mid && 0 <= l < ENTRIES
      ensures if (q, l) in t'.low then PointsTo(m'[t.mid[q]][l], t'.low[(q, l)]) else !PteValid(m'[t.mid[q]][l])
    {
      if q == i {
        assert (q, l) in t'.low <==> l == k || (q, l) in t.low;
      } else {
        assert m'[t.mid[q]] == m[t.mid[q]];
      }
    }
  }

  lemma SameMapLow(m: Mem, m': Mem, t: Tree, t': Tree, i: nat, k: nat, pa: nat)
    requires Separate(t) && InMem(m, t) && InMem(m', t') && i in t.mid && k < ENTRIES && (i, k) !in t.low
    requires pa in m && IsZero(m[pa]) && pa != t.mid[i]
    requires m' == m[t.mid[i] := m[t.mid[i]][k := MakePte(pa, 0)]]
    requires t' == t.(low := t.low[(i, k) := pa])
    ensures SameLeaves(m, t, m', t')
  {
    assert forall j :: j in t.low ==> m'[t.low[j]] == m[t.low[j]];
    assert m'[pa] == m[pa];
  }
}
