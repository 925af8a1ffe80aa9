/** The K&R allocator of `umalloc.c`: free blocks on a circular list in address order, threaded
    through headers in the memory they manage. Addresses are bytes; sizes are header units. */
module Heap {

  const UNIT: nat := 16           // sizeof(Header)
  const MIN_UNITS: nat := 4096    // the least `morecore` asks for

  /** One field of the headers in memory, by header address. */
  type Field = map<nat, nat>

  /** The bytes of a block of `n` units at `a`. */
  predicate In(a: nat, n: nat, x: nat) { a <= x < a + UNIT * n }

  ghost function Bytes(a: nat, n: nat): set<nat> { set x: nat | x < a + UNIT * n && In(a, n, x) }

  /** The bytes of all blocks in `m`, a map from address to units. */
  ghost function Span(m: map<nat, nat>): set<nat> { set a, x | a in m && x in Bytes(a, m[a]) :: x }

  /** Blocks do not overlap. */
  ghost predicate Apart(m: map<nat, nat>) {
    forall a, b :: a in m && b in m && a < b ==> a + UNIT * m[a] <= b
  }

  /** Blocks neither overlap nor touch: none could be merged with another. */
  ghost predicate Coalesced(m: map<nat, nat>) {
    && (forall a :: a in m ==> m[a] > 0)
    && forall a, b :: a in m && b in m && a < b ==> a + UNIT * m[a] < b
  }

  lemma SpanIn(m: map<nat, nat>, a: nat, x: nat)
    requires a in m && In(a, m[a], x)
    ensures x in Span(m)
  {
    assert x in Bytes(a, m[a]);
  }

  lemma SpanAdd(m: map<nat, nat>, a: nat, n: nat)
    requires a !in m
    ensures Span(m[a := n]) == Span(m) + Bytes(a, n)
  {
    var m' := m[a := n];
    forall x | x in Span(m) + Bytes(a, n)
      ensures x in Span(m')
    {
      if x in Bytes(a, n) {
        SpanIn(m', a, x);
      } else {
        var b :| b in m && x in Bytes(b, m[b]);
        SpanIn(m', b, x);
      }
    }
  }

  lemma SpanRemove(m: map<nat, nat>, a: nat)
    requires a in m
    ensures Span(m) == Span(m - {a}) + Bytes(a, m[a])
  {
    SpanAdd(m - {a}, a, m[a]);
    assert (m - {a})[a := m[a]] == m;
  }

  lemma BytesJoin(a: nat, n: nat, k: nat)
    ensures Bytes(a, n + k) == Bytes(a, n) + Bytes(a + UNIT * n, k)
  {
  }

  /** The free list is determined by which bytes are free: a block starts exactly where a free byte
      follows one that is not free. */
  lemma CoalescedIsCanonical(m: map<nat, nat>, m': map<nat, nat>)
    requires Coalesced(m) && Coalesced(m') && Span(m) == Span(m')
    ensures m == m'
  {
    forall a | a in m
      ensures a in m' && m'[a] == m[a]
    {
      SameBlock(m, m', a);
    }
    forall a | a in m'
      ensures a in m
    {
      SameBlock(m', m, a);
    }
  }

  lemma Gap(m: map<nat, nat>, a: nat)
    requires Coalesced(m) && a in m
    ensures a + UNIT * m[a] !in Span(m) && (a > 0 ==> a - 1 !in Span(m))
  {
  }

  lemma SameBlock(m: map<nat, nat>, m': map<nat, nat>, a: nat)
    requires Coalesced(m) && Coalesced(m') && Span(m) == Span(m') && a in m
    ensures a in m' && m'[a] == m[a]
  {
    Gap(m, a);
    SpanIn(m, a, a);
    var b :| b in m' && a in Bytes(b, m'[b]);
    if b < a {
      SpanIn(m', b, a - 1);
      assert false;
    }
    Gap(m', a);
    if m'[a] < m[a] {
      SpanIn(m, a, a + UNIT * m'[a]);
    } else if m[a] < m'[a] {
      SpanIn(m', a, a + UNIT * m[a]);
    }
  }

  // --- The list ----------------------------------------------------------------------------------

  function Next(ring: seq<nat>, i: nat): nat { if i + 1 < |ring| then i + 1 else 0 }

  /** `ring` lists the circular list from `base` on. */
  ghost predicate Linked(base: nat, ptr: Field, ring: seq<nat>) {
    && |ring| > 0 && ring[0] == base
    && forall i :: 0 <= i < |ring| ==> LinkAt(ptr, ring, i)
  }

  ghost predicate LinkAt(ptr: Field, ring: seq<nat>, i: nat)
    requires i < |ring|
  {
    ring[i] in ptr && ptr[ring[i]] == ring[Next(ring, i)]
  }

  /** The list is in address order and its blocks do not overlap; only `base` is empty. */
  ghost predicate Ordered(size: Field, ring: seq<nat>) {
    && HasSizes(size, ring)
    && (forall i :: 0 <= i < |ring| ==> (size[ring[i]] == 0 <==> i == 0))
    && (forall i, j :: 0 <= i < j < |ring| ==> ring[i] < ring[j] && ring[i] + UNIT * size[ring[i]] <= ring[j])
  }

  /** No block touches the next, except perhaps those at `open`. */
  ghost predicate Gapped(size: Field, ring: seq<nat>, open: set<nat>)
    requires Ordered(size, ring)
  {
    forall i :: 0 <= i < |ring| - 1 && i !in open ==> ring[i] + UNIT * size[ring[i]] < ring[i + 1]
  }

  ghost predicate ListOk(base: nat, ptr: Field, size: Field, ring: seq<nat>, open: set<nat>) {
    Linked(base, ptr, ring) && Ordered(size, ring) && Gapped(size, ring, open)
  }

  ghost predicate HasSizes(size: Field, ring: seq<nat>) {
    |ring| > 0 && forall i :: 0 <= i < |ring| ==> ring[i] in size
  }

  /** The free blocks on the list, by address. */
  ghost function Blocks(size: Field, ring: seq<nat>): map<nat, nat>
    requires HasSizes(size, ring)
  {
    map a | a in ring[1..] :: size[a]
  }

  lemma BlocksCoalesced(base: nat, size: Field, ring: seq<nat>)
    requires Ordered(size, ring) && Gapped(size, ring, {})
    ensures Coalesced(Blocks(size, ring))
  {
    forall i, j | 1 <= i < |ring| && 1 <= j < |ring| && ring[i] < ring[j]
      ensures ring[i] + UNIT * size[ring[i]] < ring[j]
    {
      assert i < j;
      assert j == i + 1 || ring[i + 1] < ring[j];
    }
  }

  // --- Relinking ----------------------------------------------------------------------------------

  ghost function Put(ring: seq<nat>, i: nat, bp: nat): seq<nat>
    requires i < |ring|
  {
    ring[..i + 1] + [bp] + ring[i + 1..]
  }

  ghost function Drop(ring: seq<nat>, k: nat): seq<nat>
    requires k < |ring|
  {
    ring[..k] + ring[k + 1..]
  }

  /** `bp` of `n` units belongs between `ring[i]` and its successor, which it may touch. */
  ghost predicate Between(size: Field, ring: seq<nat>, i: nat, bp: nat, n: nat) {
    && i < |ring| && ring[i] in size && n > 0
    && ring[i] < bp && ring[i] + UNIT * size[ring[i]] <= bp
    && (i + 1 < |ring| ==> bp + UNIT * n <= ring[i + 1])
  }

  lemma PutLinked(base: nat, ptr: Field, ring: seq<nat>, i: nat, bp: nat)
    requires Linked(base, ptr, ring) && i < |ring| && bp !in ring
    requires forall j, k :: 0 <= j < k < |ring| ==> ring[j] < ring[k]
    ensures Linked(base, ptr[bp := ring[Next(ring, i)]][ring[i] := bp], Put(ring, i, bp))
  {
    var ring', ptr' := Put(ring, i, bp), ptr[bp := ring[Next(ring, i)]][ring[i] := bp];
    forall j | 0 <= j < |ring'|
      ensures LinkAt(ptr', ring', j)
    {
      if j <= i {
        assert LinkAt(ptr, ring, j) && ring'[j] == ring[j];
      } else if j > i + 1 {
        assert LinkAt(ptr, ring, j - 1) && ring'[j] == ring[j - 1] && ring[j - 1] != ring[i];
        assert ring'[j] != bp;
      }
    }
  }

  lemma DropLinked(base: nat, ptr: Field, ring: seq<nat>, k: nat)
    requires Linked(base, ptr, ring) && 1 <= k < |ring| && LinkAt(ptr, ring, k)
    requires forall i, j :: 0 <= i < j < |ring| ==> ring[i] < ring[j]
    ensures Linked(base, ptr[ring[k - 1] := ptr[ring[k]]], Drop(ring, k))
  {
    assert LinkAt(ptr, ring, k);
    var ring', ptr' := Drop(ring, k), ptr[ring[k - 1] := ptr[ring[k]]];
    forall j | 0 <= j < |ring'|
      ensures LinkAt(ptr', ring', j)
    {
      if j < k {
        assert LinkAt(ptr, ring, j) && ring'[j] == ring[j];
        assert j < k - 1 ==> ring[j] != ring[k - 1];
      } else {
        assert LinkAt(ptr, ring, j + 1) && ring'[j] == ring[j + 1] && ring[j + 1] != ring[k - 1];
      }
    }
  }

  lemma PutOrdered(size: Field, ring: seq<nat>, i: nat, bp: nat, n: nat)
    requires Ordered(size, ring) && Gapped(size, ring, {}) && Between(size, ring, i, bp, n)
    ensures bp !in ring
    ensures Ordered(size[bp := n], Put(ring, i, bp)) && Gapped(size[bp := n], Put(ring, i, bp), {i, i + 1})
  {
    hide Ordered, Gapped;
    NotOnList(size, ring, i, bp, n);
    PutAt(ring, i, bp);
    PutOrderedAt(size, ring, i, bp, n, size[bp := n], Put(ring, i, bp));
    PutGappedAt(size, ring, i, bp, n, size[bp := n], Put(ring, i, bp));
  }

  lemma PutOrderedAt(size: Field, ring: seq<nat>, i: nat, bp: nat, n: nat, size': Field, ring': seq<nat>)
    requires Ordered(size, ring) && Gapped(size, ring, {}) && Between(size, ring, i, bp, n)
    requires bp !in ring && size' == size[bp := n] && |ring'| == |ring| + 1
    requires (forall j :: 0 <= j <= i ==> ring'[j] == ring[j]) && ring'[i + 1] == bp
    requires forall j :: i + 1 < j <= |ring| ==> ring'[j] == ring[j - 1]
    ensures Ordered(size', ring')
  {
    forall j, k | 0 <= j < k < |ring'|
      ensures ring'[j] in size' && ring'[j] < ring'[k] && ring'[j] + UNIT * size'[ring'[j]] <= ring'[k]
    {
      if k <= i {
        assert ring[j] < ring[k];
      } else if j > i + 1 {
        assert ring[j - 1] < ring[k - 1];
      } else if j <= i {
        assert j < i ==> ring[j] < ring[i];
        assert k > i + 1 ==> ring[j] < ring[k - 1];
      } else {
        assert k > i + 2 ==> ring[i + 1] < ring[k - 1];
      }
    }
  }

  lemma PutGappedAt(size: Field, ring: seq<nat>, i: nat, bp: nat, n: nat, size': Field, ring': seq<nat>)
    requires Ordered(size, ring) && Gapped(size, ring, {}) && Ordered(size', ring')
    requires bp !in ring && size' == size[bp := n] && |ring'| == |ring| + 1 && i < |ring|
    requires (forall j :: 0 <= j <= i ==> ring'[j] == ring[j]) && ring'[i + 1] == bp
    requires forall j :: i + 1 < j <= |ring| ==> ring'[j] == ring[j - 1]
    ensures Gapped(size', ring', {i, i + 1})
  {
    forall j | 0 <= j < |ring'| - 1 && j !in {i, i + 1}
      ensures ring'[j] + UNIT * size'[ring'[j]] < ring'[j + 1]
    {
      if j < i {
        assert ring[j] + UNIT * size[ring[j]] < ring[j + 1];
      } else {
        assert ring[j - 1] + UNIT * size[ring[j - 1]] < ring[j - 1 + 1];
      }
    }
  }

  lemma NotOnList(size: Field, ring: seq<nat>, i: nat, bp: nat, n: nat)
    requires Ordered(size, ring) && Between(size, ring, i, bp, n)
    ensures bp !in ring
  {
    forall j | 0 <= j < |ring|
      ensures ring[j] != bp
    {
      assert j < i ==> ring[j] < ring[i];
      assert i + 1 < j ==> ring[i + 1] < ring[j];
    }
  }

  lemma PutAt(ring: seq<nat>, i: nat, bp: nat)
    requires i < |ring|
    ensures |Put(ring, i, bp)| == |ring| + 1
    ensures (forall j :: 0 <= j <= i ==> Put(ring, i, bp)[j] == ring[j]) && Put(ring, i, bp)[i + 1] == bp
    ensures forall j :: i + 1 < j <= |ring| ==> Put(ring, i, bp)[j] == ring[j - 1]
  {
  }

  lemma DropAt(ring: seq<nat>, k: nat)
    requires k < |ring|
    ensures |Drop(ring, k)| == |ring| - 1
    ensures forall j :: 0 <= j < k ==> Drop(ring, k)[j] == ring[j]
    ensures forall j :: k <= j < |ring| - 1 ==> Drop(ring, k)[j] == ring[j + 1]
  {
  }

  /** `ring[k]` absorbs the block it touches. */
  lemma JoinOrdered(size: Field, ring: seq<nat>, k: nat, open: set<nat>)
    requires Ordered(size, ring) && Gapped(size, ring, open) && (forall i :: i in open ==> i <= k)
    requires k + 1 < |ring| && ring[k] + UNIT * size[ring[k]] == ring[k + 1]
    ensures var size' := size[ring[k] := size[ring[k]] + size[ring[k + 1]]];
            Ordered(size', Drop(ring, k + 1)) && Gapped(size', Drop(ring, k + 1), open - {k})
  {
    DropAt(ring, k + 1);
    JoinOrderedAt(size, ring, k, open, size[ring[k] := size[ring[k]] + size[ring[k + 1]]], Drop(ring, k + 1));
  }

  lemma JoinOrderedAt(size: Field, ring: seq<nat>, k: nat, open: set<nat>, size': Field, ring': seq<nat>)
    requires Ordered(size, ring) && Gapped(size, ring, open) && (forall i :: i in open ==> i <= k)
    requires k + 1 < |ring| && ring[k] + UNIT * size[ring[k]] == ring[k + 1]
    requires size' == size[ring[k] := size[ring[k]] + size[ring[k + 1]]] && |ring'| == |ring| - 1
    requires forall j :: 0 <= j <= k ==> ring'[j] == ring[j]
    requires forall j :: k < j < |ring| - 1 ==> ring'[j] == ring[j + 1]
    ensures Ordered(size', ring') && Gapped(size', ring', open - {k})
  {
    forall i, j | 0 <= i < j < |ring'|
      ensures ring'[i] in size' && ring'[i] < ring'[j] && ring'[i] + UNIT * size'[ring'[i]] <= ring'[j]
      ensures j == i + 1 && i !in open - {k} ==> ring'[i] + UNIT * size'[ring'[i]] < ring'[j]
    {
      if j <= k {
        assert ring[i] < ring[j] && ring[i] < ring[k];
      } else if i < k {
        assert ring[i] < ring[k] && ring[i] < ring[j + 1];
      } else if i == k {
        assert ring[k + 1] < ring[j + 1];
      } else {
        assert ring[i + 1] < ring[j + 1] && ring[k] < ring[i + 1];
      }
    }
    forall i | 0 <= i < |ring'|
      ensures ring'[i] in size' && (size'[ring'[i]] == 0 <==> i == 0)
    {
      assert i < k ==> ring[i] < ring[k];
      assert i > k ==> ring[k] < ring[i + 1];
    }
  }

  lemma BlocksPut(size: Field, ring: seq<nat>, i: nat, bp: nat, n: nat)
    requires HasSizes(size, ring) && i < |ring| && bp !in ring
    ensures HasSizes(size[bp := n], Put(ring, i, bp))
    ensures bp !in Blocks(size, ring) && Blocks(size[bp := n], Put(ring, i, bp)) == Blocks(size, ring)[bp := n]
    ensures Span(Blocks(size[bp := n], Put(ring, i, bp))) == Span(Blocks(size, ring)) + Bytes(bp, n)
  {
    hide Span, Bytes;
    assert Put(ring, i, bp)[1..] == ring[1..i + 1] + [bp] + ring[i + 1..];
    assert ring[1..] == ring[1..i + 1] + ring[i + 1..];
    SpanAdd(Blocks(size, ring), bp, n);
  }

  lemma BlocksDrop(size: Field, ring: seq<nat>, k: nat)
    requires HasSizes(size, ring) && 1 <= k < |ring| && ring[k] !in ring[..k] && ring[k] !in ring[k + 1..]
    ensures HasSizes(size, Drop(ring, k)) && Blocks(size, Drop(ring, k)) == Blocks(size, ring) - {ring[k]}
  {
    assert Drop(ring, k)[1..] == ring[1..k] + ring[k + 1..];
    assert ring[1..] == ring[1..k] + [ring[k]] + ring[k + 1..];
    assert ring[..k] == [ring[0]] + ring[1..k];
  }

  lemma BlocksSet(size: Field, ring: seq<nat>, k: nat, n: nat)
    requires HasSizes(size, ring) && 1 <= k < |ring|
    ensures HasSizes(size[ring[k] := n], ring)
    ensures ring[k] in Blocks(size, ring) && Blocks(size, ring)[ring[k]] == size[ring[k]]
    ensures Blocks(size[ring[k] := n], ring) == Blocks(size, ring)[ring[k] := n]
  {
    assert ring[1..][k - 1] == ring[k];
  }

  lemma Distinct(size: Field, ring: seq<nat>, k: nat)
    requires Ordered(size, ring) && k < |ring|
    ensures ring[k] !in ring[..k] && ring[k] !in ring[k + 1..]
  {
  }

  /** Merging two blocks covers the same bytes. */
  lemma SpanJoin(m: map<nat, nat>, a: nat, b: nat)
    requires a in m && b in m && a != b && a + UNIT * m[a] == b
    ensures Span((m - {b})[a := m[a] + m[b]]) == Span(m)
  {
    hide Span, Bytes;
    var n := m[a] + m[b];
    SpanRemove(m, b);
    SpanRemove(m - {b}, a);
    SpanAdd(m - {b} - {a}, a, n);
    assert (m - {b} - {a})[a := n] == (m - {b})[a := n];
    BytesJoin(a, m[a], m[b]);
  }

  lemma BlocksJoin(size: Field, ring: seq<nat>, k: nat)
    requires Ordered(size, ring) && 1 <= k && k + 1 < |ring| && ring[k] + UNIT * size[ring[k]] == ring[k + 1]
    ensures HasSizes(size[ring[k] := size[ring[k]] + size[ring[k + 1]]], Drop(ring, k + 1))
    ensures Span(Blocks(size[ring[k] := size[ring[k]] + size[ring[k + 1]]], Drop(ring, k + 1))) == Span(Blocks(size,
        ring))
  {
    hide Span, Bytes, Blocks;
    var a, b := ring[k], ring[k + 1];
    var n := size[a] + size[b];
    Distinct(size, ring, k + 1);
    BlocksDrop(size, ring, k + 1);
    assert Drop(ring, k + 1)[k] == a;
    BlocksSet(size, Drop(ring, k + 1), k, n);
    BlocksSet(size, ring, k, size[a]);
    BlocksSet(size, ring, k + 1, size[b]);
    SpanJoin(Blocks(size, ring), a, b);
  }

  // --- The heap -----------------------------------------------------------------------------------

  /** Free and allocated blocks are apart and tile exactly the bytes obtained from `sbrk`, all of
      them between `base` and the break. */
  ghost predicate HeapOk(base: nat, ptr: Field, size: Field, ring: seq<nat>, used: map<nat, nat>, brk: nat,
                         obtained: set<nat>) {
    && ListOk(base, ptr, size, ring, {})
    && (forall a :: a in used ==> used[a] > 0 && a in size && size[a] == used[a])
    && Apart(used)
    && Span(Blocks(size, ring)) !! Span(used)
    && Span(Blocks(size, ring)) + Span(used) == obtained
    && (forall x :: x in obtained ==> base < x < brk)
  }

  /** A block outside the free bytes and above `base` belongs behind the last free block below it. */
  lemma Place(base: nat, size: Field, ring: seq<nat>, i: nat, bp: nat, n: nat)
    requires Ordered(size, ring) && ring[0] == base < bp && n > 0 && i < |ring|
    requires Bytes(bp, n) !! Span(Blocks(size, ring))
    requires ring[i] < bp && (i + 1 < |ring| ==> bp < ring[i + 1])
    ensures Between(size, ring, i, bp, n)
  {
    hide Span, Bytes, Blocks;
    if i > 0 {
      BlocksSet(size, ring, i, size[ring[i]]);
      Clear(Blocks(size, ring), ring[i], bp, n);
    }
    if i + 1 < |ring| {
      BlocksSet(size, ring, i + 1, size[ring[i + 1]]);
      Clear(Blocks(size, ring), ring[i + 1], bp, n);
    }
  }

  lemma Clear(m: map<nat, nat>, a: nat, bp: nat, n: nat)
    requires a in m && m[a] > 0 && n > 0 && Bytes(bp, n) !! Span(m)
    ensures a + UNIT * m[a] <= bp || bp + UNIT * n <= a
  {
    SpanIn(m, a, a);
    assert a !in Bytes(bp, n) && bp in Bytes(bp, n);
    if a <= bp < a + UNIT * m[a] {
      SpanIn(m, a, bp);
    }
  }

  lemma StagePut(base: nat, ptr: Field, size: Field, ring: seq<nat>, i: nat, bp: nat, n: nat)
    requires ListOk(base, ptr, size, ring, {}) && Between(size, ring, i, bp, n)
    ensures ListOk(base, ptr[bp := ring[Next(ring, i)]][ring[i] := bp], size[bp := n], Put(ring, i, bp), {i, i + 1})
    ensures Span(Blocks(size[bp := n], Put(ring, i, bp))) == Span(Blocks(size, ring)) + Bytes(bp, n)
  {
    hide Span, Bytes, Blocks, Gapped, Linked;
    PutOrdered(size, ring, i, bp, n);
    PutLinked(base, ptr, ring, i, bp);
    BlocksPut(size, ring, i, bp, n);
  }

  lemma StageJoin(base: nat, ptr: Field, size: Field, ring: seq<nat>, k: nat, open: set<nat>)
    requires ListOk(base, ptr, size, ring, open) && (forall i :: i in open ==> i <= k) && k + 1 < |ring|
    requires ring[k] + UNIT * size[ring[k]] == ring[k + 1] && LinkAt(ptr, ring, k + 1)
    ensures var size' := size[ring[k] := size[ring[k]] + size[ring[k + 1]]];
            && ListOk(base, ptr[ring[k] := ptr[ring[k + 1]]], size', Drop(ring, k + 1), open - {k})
            && Span(Blocks(size', Drop(ring, k + 1))) == Span(Blocks(size, ring))
  {
    hide Span, Bytes, Blocks, Gapped, Linked;
    JoinOrdered(size, ring, k, open);
    DropLinked(base, ptr, ring, k + 1);
    assert ring[k] < ring[k + 1];
    BlocksJoin(size, ring, k);
  }

  lemma StageSkip(base: nat, ptr: Field, size: Field, ring: seq<nat>, k: nat, open: set<nat>)
    requires ListOk(base, ptr, size, ring, open)
    requires k + 1 < |ring| ==> ring[k] + UNIT * size[ring[k]] < ring[k + 1]
    ensures ListOk(base, ptr, size, ring, open - {k})
  {
    hide Linked, Ordered;
  }

  /** What `free` has done to the list, whichever neighbours the block touches. */
  lemma Inserted(base: nat, ptr: Field, size: Field, ring: seq<nat>, i: nat, bp: nat, n: nat, up: bool, down: bool,
                 ptr': Field, size': Field) returns (ring': seq<nat>)
    requires ListOk(base, ptr, size, ring, {}) && Between(size, ring, i, bp, n)
    requires up <==> i + 1 < |ring| && bp + UNIT * n == ring[i + 1]
    requires up ==> LinkAt(ptr, ring, i + 1) && ring[i + 1] in size
    requires down <==> ring[i] + UNIT * size[ring[i]] == bp
    requires var next := if up then ptr[ring[i + 1]] else ring[Next(ring, i)];
             ptr' == ptr[bp := next][ring[i] := if down then next else bp]
    requires var k := n + if up then size[ring[i + 1]] else 0;
             size' == if down then size[bp := k][ring[i] := size[ring[i]] + k] else size[bp := k]
    ensures ListOk(base, ptr', size', ring', {}) && i < |ring'| && ring'[i] == ring[i]
    ensures Span(Blocks(size', ring')) == Span(Blocks(size, ring)) + Bytes(bp, n)
    ensures if down then size'[ring[i]] >= n else i + 1 < |ring'| && ring'[i + 1] == bp && size'[bp] >= n
  {
    hide Span, Bytes, Blocks, Gapped, Linked, Put, Drop, Ordered;
    var p, s := ptr[bp := ring[Next(ring, i)]][ring[i] := bp], size[bp := n];
    ring' := Put(ring, i, bp);
    StagePut(base, ptr, size, ring, i, bp, n);
    PutAt(ring, i, bp);
    if up {
      assert ring'[i + 2] == ring[i + 1];
      assert LinkAt(p, ring', i + 2);
      DropAt(ring', i + 2);
      StageJoin(base, p, s, ring', i + 1, {i, i + 1});
      p, s, ring' := p[bp := ptr[ring[i + 1]]], s[bp := n + size[ring[i + 1]]], Drop(ring', i + 2);
    } else {
      StageSkip(base, p, s, ring', i + 1, {i, i + 1});
    }
    assert {i, i + 1} - {i + 1} == {i};
    assert ListOk(base, p, s, ring', {i});
    if down {
      assert LinkAt(p, ring', i + 1);
      DropAt(ring', i + 1);
      StageJoin(base, p, s, ring', i, {i});
      p, s, ring' := p[ring[i] := p[bp]], s[ring[i] := size[ring[i]] + s[bp]], Drop(ring', i + 1);
    } else {
      StageSkip(base, p, s, ring', i, {i});
    }
    assert {i} - {i} == {};
    assert p == ptr' && s == size';
  }

  /** A fitting block leaves the list whole. */
  lemma TakenWhole(base: nat, ptr: Field, size: Field, ring: seq<nat>, k: nat)
    requires ListOk(base, ptr, size, ring, {}) && 1 <= k < |ring| && LinkAt(ptr, ring, k)
    ensures ListOk(base, ptr[ring[k - 1] := ptr[ring[k]]], size, Drop(ring, k), {})
    ensures Span(Blocks(size, ring)) == Span(Blocks(size, Drop(ring, k))) + Bytes(ring[k], size[ring[k]])
  {
    hide Span, Bytes, Blocks, Linked;
    Distinct(size, ring, k);
    BlocksDrop(size, ring, k);
    BlocksSet(size, ring, k, size[ring[k]]);
    SpanRemove(Blocks(size, ring), ring[k]);
    DropLinked(base, ptr, ring, k);
    DropAt(ring, k);
    DropOrdered(size, ring, k, Drop(ring, k));
  }

  lemma DropOrdered(size: Field, ring: seq<nat>, k: nat, ring': seq<nat>)
    requires Ordered(size, ring) && Gapped(size, ring, {}) && 1 <= k < |ring| && |ring'| == |ring| - 1
    requires forall j :: 0 <= j < k ==> ring'[j] == ring[j]
    requires forall j :: k <= j < |ring| - 1 ==> ring'[j] == ring[j + 1]
    ensures Ordered(size, ring') && Gapped(size, ring', {})
  {
    forall i, j | 0 <= i < j < |ring'|
      ensures ring'[i] in size && ring'[i] < ring'[j] && ring'[i] + UNIT * size[ring'[i]] <= ring'[j]
      ensures j == i + 1 ==> ring'[i] + UNIT * size[ring'[i]] < ring'[j]
    {
      var i0, j0 := if i < k then i else i + 1, if j < k then j else j + 1;
      assert ring[i0] < ring[j0];
      assert ring[i0] + UNIT * size[ring[i0]] < ring[i0 + 1];
    }
  }

  /** The tail of a larger block is cut off; `n'` units stay on the list. */
  lemma TakenTail(base: nat, ptr: Field, size: Field, ring: seq<nat>, k: nat, n': nat, n: nat)
    requires ListOk(base, ptr, size, ring, {}) && 1 <= k < |ring| && ring[k] in size && size[ring[k]] == n' + n
    requires n' > 0 && n > 0
    ensures var q := ring[k] + UNIT * n';
            && q !in ring && ListOk(base, ptr, size[ring[k] := n'][q := n], ring, {})
            && Span(Blocks(size, ring)) == Span(Blocks(size[ring[k] := n'][q := n], ring)) + Bytes(q, n)
            && Span(Blocks(size[ring[k] := n'][q := n], ring)) !! Bytes(q, n)
  {
    hide Linked, Span, Bytes, Blocks, Gapped;
    var q, size1, m := ring[k] + UNIT * n', size[ring[k] := n'], Blocks(size, ring);
    TailOrdered(size, ring, k, n', n, q, size1);
    Elsewhere(size1, ring, q, n);
    BlocksSet(size, ring, k, n');
    SpanRemove(m, ring[k]);
    SpanAdd(m - {ring[k]}, ring[k], n');
    assert (m - {ring[k]})[ring[k] := n'] == m[ring[k] := n'];
    BytesJoin(ring[k], n', n);
    BlocksCoalesced(base, size, ring);
    TailApart(m, ring[k], n', n);
  }

  lemma TailOrdered(size: Field, ring: seq<nat>, k: nat, n': nat, n: nat, q: nat, size1: Field)
    requires Ordered(size, ring) && Gapped(size, ring, {}) && 1 <= k < |ring| && size[ring[k]] == n' + n && n' > 0
    requires n > 0
    requires q == ring[k] + UNIT * n' && size1 == size[ring[k] := n']
    ensures q !in ring && Ordered(size1, ring) && Gapped(size1, ring, {})
  {
    forall j | 0 <= j < |ring|
      ensures ring[j] != q && (j != k ==> ring[j] != ring[k])
    {
      assert j < k ==> ring[j] < ring[k];
      assert k < j ==> ring[k] < ring[j];
    }
  }

  lemma Elsewhere(size: Field, ring: seq<nat>, q: nat, n: nat)
    requires Ordered(size, ring) && Gapped(size, ring, {}) && q !in ring
    ensures Ordered(size[q := n], ring) && Gapped(size[q := n], ring, {})
    ensures Blocks(size[q := n], ring) == Blocks(size, ring)
  {
    assert forall i :: 0 <= i < |ring| ==> size[q := n][ring[i]] == size[ring[i]];
  }

  lemma TailApart(m: map<nat, nat>, a: nat, n': nat, n: nat)
    requires Coalesced(m) && a in m && m[a] == n' + n
    ensures Span(m[a := n']) !! Bytes(a + UNIT * n', n)
  {
  }

  lemma WholeApart(m: map<nat, nat>, a: nat)
    requires Coalesced(m) && a in m
    ensures Span(m - {a}) !! Bytes(a, m[a])
  {
  }

  // --- Invariant under allocation -----------------------------------------------------------------

  lemma UsedRemove(used: map<nat, nat>, a: nat)
    requires Apart(used) && (forall x :: x in used ==> used[x] > 0) && a in used
    ensures Span(used) == Span(used - {a}) + Bytes(a, used[a]) && Span(used - {a}) !! Bytes(a, used[a])
    ensures Apart(used - {a}) && a !in Span(used - {a})
  {
    SpanRemove(used, a);
    assert a in Bytes(a, used[a]);
  }

  lemma UsedAdd(used: map<nat, nat>, a: nat, n: nat)
    requires Apart(used) && (forall x :: x in used ==> used[x] > 0) && n > 0 && Bytes(a, n) !! Span(used)
    ensures a !in used && Apart(used[a := n]) && Span(used[a := n]) == Span(used) + Bytes(a, n)
  {
    hide Span, Bytes;
    forall b | b in used
      ensures b + UNIT * used[b] <= a || a + UNIT * n <= b
    {
      Clear(used, b, a, n);
    }
    SpanAdd(used, a, n);
  }

  /** Header addresses on the list are `base` or lie in free memory. */
  lemma OnList(size: Field, ring: seq<nat>, i: nat)
    requires Ordered(size, ring) && 1 <= i < |ring|
    ensures ring[i] in Span(Blocks(size, ring))
  {
    BlocksSet(size, ring, i, size[ring[i]]);
    SpanIn(Blocks(size, ring), ring[i], ring[i]);
  }

  lemma UsedInSpan(used: map<nat, nat>, a: nat)
    requires a in used && used[a] > 0
    ensures a in Span(used)
  {
    SpanIn(used, a, a);
  }

  /** No header inside a block of `used` was written. */
  ghost predicate Untouched(ptr: Field, size: Field, ptr': Field, size': Field, used: map<nat, nat>) {
    forall x :: x in Span(used) ==>
      && (x in ptr <==> x in ptr') && (x in ptr ==> ptr'[x] == ptr[x])
      && (x in size <==> x in size') && (x in size ==> size'[x] == size[x])
  }

  lemma WritesOutside(base: nat, ptr: Field, size: Field, ring: seq<nat>, used: map<nat, nat>, brk: nat,
                      obtained: set<nat>,
                      i: nat, bp: nat, used': map<nat, nat>, ptr': Field, size': Field)
    requires HeapOk(base, ptr, size, ring, used, brk, obtained) && i < |ring| && Span(used') <= Span(used)
    requires bp !in Span(used') || bp == ring[i]
    requires forall x :: x != ring[i] && x != bp ==> (x in ptr' <==> x in ptr) && (x in ptr ==> ptr'[x] == ptr[x])
    requires forall x :: x != ring[i] && x != bp ==> (x in size' <==> x in size) && (x in size ==> size'[x] == size[x])
    ensures Untouched(ptr, size, ptr', size', used')
  {
    hide Span, Blocks, Gapped, LinkAt;
    if i > 0 {
      OnList(size, ring, i);
    }
    assert ring[i] !in Span(used');
  }

  lemma Freed(base: nat, ptr: Field, size: Field, ring: seq<nat>, used: map<nat, nat>, brk: nat, obtained: set<nat>,
              bp: nat, ptr': Field, size': Field, ring': seq<nat>)
    requires HeapOk(base, ptr, size, ring, used, brk, obtained) && bp in used
    requires ListOk(base, ptr', size', ring', {})
    requires Span(Blocks(size', ring')) == Span(Blocks(size, ring)) + Bytes(bp, used[bp])
    requires Untouched(ptr, size, ptr', size', used - {bp})
    ensures HeapOk(base, ptr', size', ring', used - {bp}, brk, obtained)
  {
    hide Span, Bytes, Blocks, ListOk;
    UsedRemove(used, bp);
    forall a | a in used && a != bp
      ensures a in size' && size'[a] == used[a]
    {
      UsedInSpan(used - {bp}, a);
    }
  }

  lemma Allocated(base: nat, ptr: Field, size: Field, ring: seq<nat>, used: map<nat, nat>, brk: nat, obtained: set<nat>,
                  q: nat, n: nat, ptr': Field, size': Field, ring': seq<nat>)
    requires HeapOk(base, ptr, size, ring, used, brk, obtained) && n > 0
    requires ListOk(base, ptr', size', ring', {})
    requires Span(Blocks(size, ring)) == Span(Blocks(size', ring')) + Bytes(q, n)
    requires Span(Blocks(size', ring')) !! Bytes(q, n)
    requires Untouched(ptr, size, ptr', size', used) && q in size' && size'[q] == n
    ensures q !in used && HeapOk(base, ptr', size', ring', used[q := n], brk, obtained)
  {
    hide Span, Bytes, Blocks, ListOk;
    UsedAdd(used, q, n);
    forall a | a in used
      ensures a in size' && size'[a] == used[a]
    {
      UsedInSpan(used, a);
    }
  }

  /** A region above the break is disjoint from everything obtained before. */
  lemma Grown(base: nat, ptr: Field, size: Field, ring: seq<nat>, used: map<nat, nat>, brk: nat, obtained: set<nat>,
              n: nat)
    requires HeapOk(base, ptr, size, ring, used, brk, obtained) && n > 0 && base < brk
    ensures brk !in used
    ensures HeapOk(base, ptr, size[brk := n], ring, used[brk := n], brk + UNIT * n, obtained + Bytes(brk, n))
  {
    hide Span, Blocks, LinkAt;
    assert Bytes(brk, n) !! obtained;
    UsedAdd(used, brk, n);
    forall i | 0 <= i < |ring|
      ensures ring[i] != brk
    {
      if i > 0 { OnList(size, ring, i); }
    }
    Elsewhere(size, ring, brk, n);
  }

  // --- The allocator ------------------------------------------------------------------------------

  /** The units `malloc` needs for `nbytes`: the payload rounded up, and a header. */
  function Units(nbytes: nat): nat { (nbytes + UNIT - 1) / UNIT + 1 }

  /** The argument `sbrk` sees: a 32-bit signed integer. */
  function SbrkArg(units: nat): int {
    var w := units * UNIT % 0x1_0000_0000;
    if w < 0x8000_0000 then w else w - 0x1_0000_0000
  }

  /** Where the search in `free` stops: behind the last list element below `bp`. */
  lemma {:induction false} Slot(ring: seq<nat>, bp: nat, k: nat) returns (i: nat)
    requires k < |ring| && ring[0] < bp && bp !in ring
    requires k + 1 < |ring| ==> bp < ring[k + 1]
    ensures i < |ring| && ring[i] < bp && (i + 1 < |ring| ==> bp < ring[i + 1])
  {
    if ring[k] < bp {
      i := k;
    } else {
      i := Slot(ring, bp, k - 1);
    }
  }

  lemma OffList(base: nat, ptr: Field, size: Field, ring: seq<nat>, used: map<nat, nat>, brk: nat, obtained: set<nat>,
                bp: nat)
    requires HeapOk(base, ptr, size, ring, used, brk, obtained) && bp in Span(used)
    ensures base < bp && bp !in ring
  {
    hide Span, Blocks, LinkAt, Gapped;
    forall i | 0 <= i < |ring|
      ensures ring[i] != bp
    {
      if i > 0 { OnList(size, ring, i); }
    }
  }

  lemma Link(base: nat, ptr: Field, size: Field, ring: seq<nat>, j: nat)
    requires ListOk(base, ptr, size, ring, {}) && j < |ring|
    ensures ring[j] in ptr && ptr[ring[j]] == ring[Next(ring, j)] && ring[j] in size
    ensures j + 1 < |ring| ==> ring[j] < ring[j + 1]
    ensures base <= ring[j]
  {
    assert LinkAt(ptr, ring, j);
  }

  /** Steps around the list from index `j` to index `i`. */
  function Distance(ring: seq<nat>, j: nat, i: nat): nat
    requires j < |ring| && i < |ring|
  {
    if j <= i then i - j else |ring| - j + i
  }

  /** `free` as a whole, on the values it leaves. */
  lemma FreedList(base: nat, ptr: Field, size: Field, ring: seq<nat>, used: map<nat, nat>, brk: nat, obtained: set<nat>,
                  i: nat, bp: nat, ptr': Field, size': Field) returns (ring': seq<nat>)
    requires HeapOk(base, ptr, size, ring, used, brk, obtained) && bp in used && i < |ring|
    requires Between(size, ring, i, bp, used[bp])
    requires ring[i] in ptr && ring[i] in size && ptr[ring[i]] == ring[Next(ring, i)]
    requires ring[Next(ring, i)] in ptr && ring[Next(ring, i)] in size && base < bp
    requires var p := ring[i]; var up, down := bp + UNIT * size[bp] == ptr[p], p + UNIT * size[p] == bp;
             var next := if up then ptr[ptr[p]] else ptr[p];
             var k := size[bp] + if up then size[ptr[p]] else 0;
             && ptr' == ptr[bp := next][p := if down then next else bp]
             && size' == if down then size[bp := k][p := size[p] + k] else size[bp := k]
    ensures HeapOk(base, ptr', size', ring', used - {bp}, brk, obtained) && ring[i] in ring'
    ensures Untouched(ptr, size, ptr', size', used - {bp}) && Reachable(ptr', size', ring[i], used[bp])
  {
    hide Span, Blocks, Bytes, LinkAt, Gapped, Untouched, Apart, Between;
    var n: nat, p: nat := used[bp], ring[i];
    var up, down := bp + UNIT * n == ptr[p], p + UNIT * size[p] == bp;
    UsedRemove(used, bp);
    Neighbours(base, ptr, size, ring, i);
    assert up ==> i + 1 < |ring|;
    ring' := Inserted(base, ptr, size, ring, i, bp, n, up, down, ptr', size');
    WritesOutside(base, ptr, size, ring, used, brk, obtained, i, bp, used - {bp}, ptr', size');
    Freed(base, ptr, size, ring, used, brk, obtained, bp, ptr', size', ring');
  }

  /** The stopping conditions of the search hold at its target and nowhere else. */
  lemma StopsOnlyThere(base: nat, ptr: Field, size: Field, ring: seq<nat>, j: nat, i: nat, bp: nat)
    requires ListOk(base, ptr, size, ring, {}) && j < |ring| && i < |ring| && bp !in ring && base < bp
    requires ring[i] < bp && (i + 1 < |ring| ==> bp < ring[i + 1])
    ensures var p, next := ring[j], ring[Next(ring, j)];
            p < bp < next || (p >= next && (bp > p || bp < next)) <==> j == i
  {
    hide Gapped, LinkAt;
    assert j < i ==> ring[j] < ring[i] && (j + 1 < i ==> ring[j + 1] < ring[i]);
    assert i + 1 < j ==> ring[i + 1] < ring[j];
    assert 0 < j ==> ring[0] < ring[j];
    if j == |ring| - 1 && j != i {
      assert ring[i + 1] <= ring[j];
    }
  }

  lemma Neighbours(base: nat, ptr: Field, size: Field, ring: seq<nat>, i: nat)
    requires ListOk(base, ptr, size, ring, {}) && i < |ring|
    ensures LinkAt(ptr, ring, i) && ring[i] in size && LinkAt(ptr, ring, Next(ring, i)) && ring[Next(ring, i)] in size
    ensures ring[i] in ptr && ptr[ring[i]] == ring[Next(ring, i)] && ring[Next(ring, i)] in ptr
  {
  }

  /** The next two headers `malloc` looks at after `free` include one of at least `n` units: `freep`
      itself or the block behind it. */
  ghost predicate Reachable(ptr: Field, size: Field, freep: nat, n: nat) {
    && freep in size
    && (size[freep] >= n || (freep in ptr && ptr[freep] in size && size[ptr[freep]] >= n))
  }

  function Request(nu: nat): nat { if nu < MIN_UNITS then MIN_UNITS else nu }

  lemma SbrkFits(n: nat)
    requires n < 0x800_0000
    ensures SbrkArg(n) == UNIT * n
  {
  }

  /** A free block is large enough, so the heap need not grow. */
  ghost predicate SomeFits(blocks: map<nat, nat>, n: nat) {
    exists a :: a in blocks && blocks[a] >= n
  }

  /** Exactly the requests below two gigabytes (less two headers) reach `sbrk` undistorted; a larger
      one would make `morecore` record a block its memory does not back. */
  lemma SbrkGetsWhatMorecoreRecords(nbytes: nat)
    requires nbytes < 0x1_0000_0000
    ensures SbrkArg(Request(Units(nbytes))) == UNIT * Request(Units(nbytes)) <==> nbytes <= 0x7FFF_FFE0
  {
  }

  /** The break after `sbrk(n)` succeeds: a process does not shrink by more than its size. */
  function MovedBreak(brk: nat, n: int): nat { if brk + n >= 0 then brk + n else brk }

  /** The heap is in order, whatever memory was obtained for it. */
  ghost predicate Backed(base: nat, ptr: Field, size: Field, ring: seq<nat>, used: map<nat, nat>, brk: nat) {
    HasSizes(size, ring) && HeapOk(base, ptr, size, ring, used, brk, Span(Blocks(size, ring)) + Span(used))
  }

  /** When no free block fits, this decides whether the heap survives: with the block `morecore` records
      above the old break, free and allocated blocks tile memory below the new break exactly when the
      request is at most 0x7FFF_FFE0 bytes. */
  lemma MorecoreBacksItsBlock(base: nat, ptr: Field, size: Field, ring: seq<nat>, used: map<nat, nat>, brk: nat,
                              obtained: set<nat>, nbytes: nat)
    requires HeapOk(base, ptr, size, ring, used, brk, obtained) && base < brk && nbytes < 0x1_0000_0000
    ensures var n := Request(Units(nbytes));
            Backed(base, ptr, size[brk := n], ring, used[brk := n], MovedBreak(brk, SbrkArg(n))) <==>
            nbytes <= 0x7FFF_FFE0
  {
    hide Span, Blocks, LinkAt;
    var n := Request(Units(nbytes));
    SbrkGetsWhatMorecoreRecords(nbytes);
    if nbytes <= 0x7FFF_FFE0 {
      Grown(base, ptr, size, ring, used, brk, obtained, n);
    } else {
      var brk' := MovedBreak(brk, SbrkArg(n));
      assert brk' < brk + UNIT * n;
      if Backed(base, ptr, size[brk := n], ring, used[brk := n], brk') {
        BelowBreak(base, ptr, size[brk := n], ring, used[brk := n], brk', brk);
      }
    }
  }

  lemma BelowBreak(base: nat, ptr: Field, size: Field, ring: seq<nat>, used: map<nat, nat>, brk: nat, a: nat)
    requires Backed(base, ptr, size, ring, used, brk) && a in used
    ensures a + UNIT * used[a] <= brk
  {
    hide Blocks, LinkAt;
    SpanIn(used, a, a + UNIT * used[a] - 1);
  }

  /** The address `ap` answers a request for `nbytes` bytes: they lie, after a header of sixteen bytes, in a
      block of memory that was obtained, with less than sixteen bytes to spare, and no other block, allocated
      or free, comes near it. */
  ghost predicate Serves(used: map<nat, nat>, free: map<nat, nat>, obtained: set<nat>, ap: nat, nbytes: nat) {
    && 16 <= ap && ap - 16 in used
    && ap + nbytes <= ap - 16 + 16 * used[ap - 16] < ap + nbytes + 16
    && (forall x: nat :: ap - 16 <= x < ap + nbytes ==> x in obtained)
    && (forall a :: a in used && a != ap - 16 ==>
          a + 16 * used[a] <= ap - 16 || ap - 16 + 16 * used[ap - 16] <= a)
    && (forall a :: a in free ==> a + 16 * free[a] <= ap - 16 || ap - 16 + 16 * used[ap - 16] <= a)
  }

  lemma Served(base: nat, ptr: Field, size: Field, ring: seq<nat>, used: map<nat, nat>, brk: nat, obtained: set<nat>,
               ap: nat, nbytes: nat)
    requires HeapOk(base, ptr, size, ring, used, brk, obtained) && 16 <= ap && ap - 16 in used
    requires used[ap - 16] == Units(nbytes)
    ensures HasSizes(size, ring) && Serves(used, Blocks(size, ring), obtained, ap, nbytes)
  {
    hide LinkAt, Gapped, Blocks, Span;
    var h, free := ap - 16, Blocks(size, ring);
    var end := h + 16 * used[h];
    assert ap + nbytes <= end < ap + nbytes + 16;
    BlocksCoalesced(base, size, ring);
    forall x: nat | h <= x < ap + nbytes
      ensures x in obtained
    {
      SpanIn(used, h, x);
    }
    forall a | a in free
      ensures a + 16 * free[a] <= h || end <= a
    {
      if h < a + 16 * free[a] && a < end {
        var x := if a < h then h else a;
        SpanIn(used, h, x);
        SpanIn(free, a, x);
      }
    }
  }

  lemma Oversize(nbytes: nat)
    ensures 0 < Units(nbytes) && (nbytes > 0x7FFF_FFE0 <==> Units(nbytes) >= 0x800_0000)
  {
  }

  lemma Fitting(base: nat, ptr: Field, size: Field, ring: seq<nat>, used: map<nat, nat>, brk: nat, obtained: set<nat>,
                k: nat, n: nat)
    requires HeapOk(base, ptr, size, ring, used, brk, obtained) && 0 < k < |ring| && ring[k] in size
    requires size[ring[k]] >= n
    ensures HasSizes(size, ring) && SomeFits(Blocks(size, ring), n)
  {
    OnList(size, ring, k);
    assert ring[k] in Blocks(size, ring);
  }

  lemma UntouchedAbove(base: nat, ptr: Field, size: Field, ring: seq<nat>, used: map<nat, nat>, brk: nat,
                       obtained: set<nat>, n: nat)
    requires HeapOk(base, ptr, size, ring, used, brk, obtained)
    ensures Untouched(ptr, size, ptr, size[brk := n], used)
  {
    hide Span, Blocks;
  }

  lemma TailOutside(m: map<nat, nat>, used: map<nat, nat>, a: nat, n': nat, n: nat)
    requires a in m && m[a] == n' + n && n > 0 && Span(m) !! Span(used)
    ensures a + UNIT * n' !in Span(used)
  {
    SpanIn(m, a, a + UNIT * n');
  }

  lemma TookWhole(base: nat, ptr: Field, size: Field, ring: seq<nat>, used: map<nat, nat>, brk: nat, obtained: set<nat>,
                  k: nat)
    requires HeapOk(base, ptr, size, ring, used, brk, obtained) && 1 <= k < |ring| && ring[k] in ptr && ring[k] in size
    ensures base <= ring[k - 1] < ring[k] && ring[k] !in used
    ensures var ptr', used' := ptr[ring[k - 1] := ptr[ring[k]]], used[ring[k] := size[ring[k]]];
            HeapOk(base, ptr', size, Drop(ring, k), used', brk, obtained) && Untouched(ptr, size, ptr', size, used)
  {
    hide Span, Bytes, Blocks, LinkAt, Gapped, Untouched, Apart;
    var p, ptr' := ring[k], ptr[ring[k - 1] := ptr[ring[k]]];
    Neighbours(base, ptr, size, ring, k);
    Link(base, ptr, size, ring, k - 1);
    BlocksCoalesced(base, size, ring);
    BlocksSet(size, ring, k, size[p]);
    TakenWhole(base, ptr, size, ring, k);
    Distinct(size, ring, k);
    BlocksDrop(size, ring, k);
    WholeApart(Blocks(size, ring), p);
    WritesOutside(base, ptr, size, ring, used, brk, obtained, k - 1, ring[k - 1], used, ptr', size);
    Allocated(base, ptr, size, ring, used, brk, obtained, p, size[p], ptr', size, Drop(ring, k));
  }

  lemma TookTail(base: nat, ptr: Field, size: Field, ring: seq<nat>, used: map<nat, nat>, brk: nat, obtained: set<nat>,
                 k: nat, n': nat, n: nat)
    requires HeapOk(base, ptr, size, ring, used, brk, obtained) && 1 <= k < |ring| && ring[k] in size
    requires size[ring[k]] == n' + n && n' > 0 && n > 0
    ensures var q := ring[k] + UNIT * n'; var size' := size[ring[k] := n'][q := n];
            && base <= ring[k - 1] < q && q !in used
            && HeapOk(base, ptr, size', ring, used[q := n], brk, obtained) && Untouched(ptr, size, ptr, size', used)
  {
    hide Span, Bytes, Blocks, LinkAt, Gapped, Untouched, Apart;
    var p, q := ring[k], ring[k] + UNIT * n';
    var size' := size[p := n'][q := n];
    Link(base, ptr, size, ring, k - 1);
    BlocksSet(size, ring, k, size[p]);
    TakenTail(base, ptr, size, ring, k, n', n);
    TailOutside(Blocks(size, ring), used, p, n', n);
    WritesOutside(base, ptr, size, ring, used, brk, obtained, k, q, used, ptr, size');
    Allocated(base, ptr, size, ring, used, brk, obtained, q, n, ptr, size', ring);
  }

  lemma NoWrites(ptr: Field, size: Field, used: map<nat, nat>)
    ensures Untouched(ptr, size, ptr, size, used)
  {
  }

  lemma NoMoreWrites(ptr: Field, size: Field, ptr1: Field, size1: Field, ptr2: Field, size2: Field, used: map<nat, nat>)
    requires Untouched(ptr, size, ptr1, size1, used) && Untouched(ptr1, size1, ptr2, size2, used)
    ensures Untouched(ptr, size, ptr2, size2, used)
  {
  }

  lemma Position(ring: seq<nat>, a: nat) returns (i: nat)
    requires a in ring
    ensures i < |ring| && ring[i] == a
  {
    i :| 0 <= i < |ring| && ring[i] == a;
  }

  lemma Steps(base: nat, ptr: Field, size: Field, ring: seq<nat>, used: map<nat, nat>, brk: nat, obtained: set<nat>,
              j: nat)
    requires HeapOk(base, ptr, size, ring, used, brk, obtained) && j < |ring|
    ensures ring[j] in ptr && ring[j] in size && ptr[ring[j]] == ring[Next(ring, j)]
    ensures ring[Next(ring, j)] in ptr && ring[Next(ring, j)] in size
  {
    Neighbours(base, ptr, size, ring, j);
  }

  /** The elements after `jf` up to `j`, going round, are smaller than `n`. */
  ghost predicate TooSmall(size: Field, ring: seq<nat>, jf: nat, j: nat, n: nat)
    requires jf < |ring| && j < |ring|
  {
    forall i :: 0 <= i < |ring| && i != jf && Distance(ring, jf, i) <= Distance(ring, jf, j) ==>
      ring[i] in size && size[ring[i]] < n
  }

  lemma NoneSkipped(size: Field, ring: seq<nat>, jf: nat, n: nat)
    requires jf < |ring|
    ensures TooSmall(size, ring, jf, jf, n)
  {
  }

  lemma OneMore(size: Field, ring: seq<nat>, jf: nat, j: nat, n: nat)
    requires jf < |ring| && j < |ring| && TooSmall(size, ring, jf, j, n) && Next(ring, j) != jf
    requires ring[Next(ring, j)] in size && size[ring[Next(ring, j)]] < n
    ensures TooSmall(size, ring, jf, Next(ring, j), n)
  {
  }

  lemma Closer(ring: seq<nat>, jf: nat, j: nat)
    requires jf < |ring| && j < |ring| && Next(ring, j) != jf
    ensures Distance(ring, Next(ring, Next(ring, j)), jf) < Distance(ring, Next(ring, j), jf)
  {
  }

  lemma NotBase(base: nat, ptr: Field, size: Field, ring: seq<nat>, used: map<nat, nat>, brk: nat, obtained: set<nat>,
                j: nat)
    requires HeapOk(base, ptr, size, ring, used, brk, obtained) && j < |ring|
    requires ring[Next(ring, j)] in size && size[ring[Next(ring, j)]] > 0
    ensures j + 1 < |ring|
  {
  }

  lemma NoneFits(base: nat, ptr: Field, size: Field, ring: seq<nat>, used: map<nat, nat>, brk: nat, obtained: set<nat>,
                 jf: nat, j: nat, n: nat)
    requires HeapOk(base, ptr, size, ring, used, brk, obtained) && jf < |ring| && j < |ring|
    requires TooSmall(size, ring, jf, j, n) && ring[Next(ring, j)] == ring[jf] && ring[jf] in size && size[ring[jf]] < n
    ensures forall a :: a in Blocks(size, ring) ==> Blocks(size, ring)[a] < n
    ensures !SomeFits(Blocks(size, ring), n)
  {
    hide LinkAt, Gapped, Span;
    assert Next(ring, j) == jf by {
      Distinct(size, ring, jf);
    }
  }

  /** Whatever sequence of calls led to it, the free list is a function of what is allocated. */
  lemma FreeListDetermined(base: nat, ptr: Field, size: Field, ring: seq<nat>, ptr': Field, size': Field,
                           ring': seq<nat>,
                           used: map<nat, nat>, brk: nat, obtained: set<nat>)
    requires HeapOk(base, ptr, size, ring, used, brk, obtained) && HeapOk(base, ptr', size', ring', used, brk, obtained)
    ensures Ordered(size, ring) && Ordered(size', ring') && Blocks(size, ring) == Blocks(size', ring')
  {
    hide Span, Blocks, LinkAt, Apart;
    BlocksCoalesced(base, size, ring);
    BlocksCoalesced(base, size', ring');
    CoalescedIsCanonical(Blocks(size, ring), Blocks(size', ring'));
  }

  lemma NothingObtained(base: nat, ptr: Field, size: Field, ring: seq<nat>, used: map<nat, nat>, brk: nat)
    requires HeapOk(base, ptr, size, ring, used, brk, {})
    ensures Ordered(size, ring) && Blocks(size, ring) == map[]
  {
    hide LinkAt, Apart;
    BlocksCoalesced(base, size, ring);
    forall a | a in Blocks(size, ring)
      ensures a in Span(Blocks(size, ring))
    {
      SpanIn(Blocks(size, ring), a, a);
    }
    assert Blocks(size, ring).Keys == {};
  }

  class Allocator {
    const base: nat
    var ptr: Field
    var size: Field
    var freep: nat
    var brk: nat
    ghost var ring: seq<nat>
    ghost var used: map<nat, nat>      // allocated blocks: header address to units
    ghost var obtained: set<nat>       // bytes obtained from `sbrk`

    /** A process that has not allocated yet: nothing is known of memory. */
    constructor (base: nat, brk: nat)
      requires 0 < base < brk
      ensures Valid() && used == map[] && obtained == {} && this.brk == brk
    {
      this.base, this.brk, freep := base, brk, 0;
      ring, used, obtained := [], map[], {};
    }

    ghost predicate Valid()
      reads this
    {
      && 0 < base < brk
      && if freep == 0 then ring == [] && used == map[] && obtained == {}
         else freep in ring && HeapOk(base, ptr, size, ring, used, brk, obtained)
    }

    ghost function FreeBlocks(): map<nat, nat>
      reads this
      requires Valid()
    {
      if freep == 0 then map[] else Blocks(size, ring)
    }

    /** The search loop of `free`: from wherever `freep` is, it ends at the last list element below
        `bp`, after going round the list less than once. */
    method Search(bp: nat) returns (p: nat, ghost i: nat)
      requires freep in ring && ListOk(base, ptr, size, ring, {}) && base < bp && bp !in ring
      ensures i < |ring| && base <= p == ring[i] && p < bp && (i + 1 < |ring| ==> bp < ring[i + 1])
    {
      hide LinkAt, Gapped, Ordered;
      p := freep;
      ghost var j :| 0 <= j < |ring| && ring[j] == p;
      i := Slot(ring, bp, |ring| - 1);
      Link(base, ptr, size, ring, j);
      while !(p < bp < ptr[p])
        invariant 0 <= j < |ring| && base <= p == ring[j] && p in ptr && ptr[p] == ring[Next(ring, j)]
        decreases Distance(ring, j, i)
      {
        StopsOnlyThere(base, ptr, size, ring, j, i, bp);
        if p >= ptr[p] && (bp > p || bp < ptr[p]) {
          i := j;
          return;
        }
        p := ptr[p];
        j := Next(ring, j);
        Link(base, ptr, size, ring, j);
      }
      StopsOnlyThere(base, ptr, size, ring, j, i, bp);
      i := j;
    }

    /** The second half of `free`: merge with the upper and the lower neighbour or link to them. */
    method Relink(p: nat, bp: nat)
      requires p in ptr && p in size && ptr[p] in ptr && ptr[p] in size && bp in size && bp != p && bp != ptr[p]
      modifies this`ptr, this`size
      ensures var up, down := bp + UNIT * old(size[bp]) == old(ptr[p]), p + UNIT * old(size[p]) == bp;
              var next := if up then old(ptr[ptr[p]]) else old(ptr[p]);
              var k := old(size[bp]) + if up then old(size[ptr[p]]) else 0;
              && ptr == old(ptr)[bp := next][p := if down then next else bp]
              && size == if down then old(size)[bp := k][p := old(size[p]) + k] else old(size)[bp := k]
    {
      if bp + UNIT * size[bp] == ptr[p] {
        size := size[bp := size[bp] + size[ptr[p]]];
        ptr := ptr[bp := ptr[ptr[p]]];
      } else {
        ptr := ptr[bp := ptr[p]];
      }
      if p + UNIT * size[p] == bp {
        size := size[p := size[p] + size[bp]];
        ptr := ptr[p := ptr[bp]];
      } else {
        ptr := ptr[p := bp];
      }
    }

    /** `free`. */
    method Free(ap: nat)
      requires Valid() && UNIT <= ap && ap - UNIT in used
      modifies this
      ensures Valid() && freep != 0 && brk == old(brk) && obtained == old(obtained)
      ensures used == old(used) - {ap - UNIT}
      ensures Untouched(old(ptr), old(size), ptr, size, used)
      ensures Reachable(ptr, size, freep, old(used)[ap - UNIT])
    {
      hide Span, Blocks, Bytes, LinkAt, Gapped, Ordered, Untouched, Between, Apart;
      var bp := ap - UNIT;
      ghost var n, ptr0, size0, ring0, used0 := used[bp], ptr, size, ring, used;
      UsedRemove(used, bp);
      UsedInSpan(used, bp);
      OffList(base, ptr, size, ring, used, brk, obtained, bp);
      var p: nat;
      ghost var i: nat;
      p, i := Search(bp);
      Place(base, size, ring, i, bp, n);
      Neighbours(base, ptr, size, ring, i);
      Relink(p, bp);
      freep := p;
      ring := FreedList(base, ptr0, size0, ring0, used0, brk, obtained, i, bp, ptr, size);
      used := used0 - {bp};
    }

    method Sbrk(n: nat, room: bool) returns (p: int)
      modifies this`brk
      ensures p == if room then old(brk) else -1
      ensures brk == if room then old(brk) + n else old(brk)
    {
      if room {
        p := brk;
        brk := brk + n;
      } else {
        p := -1;
      }
    }

    /** `morecore`; `room` says whether the kernel can extend the process. */
    method Morecore(nu: nat, room: bool) returns (p: nat)
      requires Valid() && freep != 0 && 0 < nu < 0x800_0000
      modifies this
      ensures Valid() && freep != 0 && used == old(used)
      ensures !room ==> p == 0 && unchanged(this)
      ensures room ==>
                && p == freep && brk == old(brk) + UNIT * Request(nu)
                && brk >= old(brk) + 0x1_0000 && brk >= old(brk) + 16 * nu
                && obtained == old(obtained) + Bytes(old(brk), Request(nu))
                && Reachable(ptr, size, freep, nu)
      ensures Untouched(old(ptr), old(size), ptr, size, old(used))
    {
      hide Span, Bytes, Blocks, HeapOk;
      var n := if nu < MIN_UNITS then MIN_UNITS else nu;
      SbrkFits(n);
      var a := Sbrk(SbrkArg(n), room);
      if a == -1 {
        return 0;
      }
      var hp: nat := a;
      Grown(base, ptr, size, ring, used, hp, obtained, n);
      UntouchedAbove(base, ptr, size, ring, used, hp, obtained, n);
      size := size[hp := n];
      used := used[hp := n];
      obtained := obtained + Bytes(hp, n);
      Free(hp + UNIT);
      assert old(used)[hp := n] - {hp} == old(used);
      p := freep;
    }

    /** First call of `malloc`: a list of nothing but the empty `base`. */
    method InitList()
      requires Valid() && freep == 0
      modifies this
      ensures Valid() && freep != 0 && used == old(used) && obtained == old(obtained) && brk == old(brk)
      ensures FreeBlocks() == map[] && Untouched(old(ptr), old(size), ptr, size, used)
    {
      freep := base;
      ptr := ptr[base := base];
      size := size[base := 0];
      ring := [base];
      assert LinkAt(ptr, ring, 0);
    }

    /** The fitting block `p` behind `prevp`: unlink it, or cut off its tail. */
    method Take(prevp: nat, p: nat, nunits: nat, ghost k: nat) returns (q: nat)
      requires Valid() && freep != 0 && 1 <= k < |ring| && prevp == ring[k - 1] && p == ring[k]
      requires p in ptr && p in size && size[p] >= nunits > 0
      modifies this
      ensures Valid() && freep != 0 && brk == old(brk) && obtained == old(obtained)
      ensures base < q && q !in old(used) && used == old(used)[q := nunits]
      ensures Untouched(old(ptr), old(size), ptr, size, old(used))
    {
      hide HeapOk, Untouched;
      if size[p] == nunits {
        TookWhole(base, ptr, size, ring, used, brk, obtained, k);
        DropAt(ring, k);
        assert Drop(ring, k)[k - 1] == prevp;
        ptr := ptr[prevp := ptr[p]];
        ring := Drop(ring, k);
        q := p;
      } else {
        TookTail(base, ptr, size, ring, used, brk, obtained, k, size[p] - nunits, nunits);
        size := size[p := size[p] - nunits];
        q := p + UNIT * size[p];
        size := size[q := nunits];
      }
      used := used[q := nunits];
      freep := prevp;
    }

    /** `malloc`: next fit from `freep` on, growing the heap at most once. `grew` counts calls of
        `morecore` that succeeded; `room` says whether the kernel can extend the process. A request too
        large for `sbrk` is served if a free block fits it. If none does, `sbrk` gets another number than
        `morecore` records (a negative one does not fail) and the heap is `ruined`; the state here is the
        one before `morecore` records it. */
    method Malloc(nbytes: nat, room: bool) returns (ap: nat, ruined: bool, ghost grew: nat)
      requires Valid() && nbytes < 0x1_0000_0000
      modifies this
      ensures ruined <==>
        && nbytes > 0x7FFF_FFE0 && !SomeFits(old(FreeBlocks()), Units(nbytes)) && (SbrkArg(Units(nbytes)) <= 0 || room)
      ensures Valid() && grew <= 1 && Untouched(old(ptr), old(size), ptr, size, old(used))
      ensures ap == 0 ==> (ruined || !room) && used == old(used) && FreeBlocks() == old(FreeBlocks())
      ensures ap != 0 ==>
        && !ruined && UNIT < ap && ap - UNIT !in old(used) && used == old(used)[ap - UNIT := Units(nbytes)]
      ensures ap != 0 ==> Serves(used, FreeBlocks(), obtained, ap, nbytes)
      ensures ap == 0 || grew == 1 ==> forall a :: a in old(FreeBlocks()) ==> old(FreeBlocks())[a] < Units(nbytes)
      ensures obtained == old(obtained) + if grew == 1 then Bytes(old(brk), Request(Units(nbytes))) else {}
      ensures brk == old(brk) + if grew == 1 then UNIT * Request(Units(nbytes)) else 0
    {
      hide HeapOk, Untouched, Bytes, Blocks, SomeFits, SbrkArg, Units, Request, TooSmall, Distance,
           Serves;
      var nunits := Units(nbytes);
      Oversize(nbytes);
      ruined, grew := false, 0;
      if freep == 0 {
        InitList();
      } else {
        NoWrites(ptr, size, used);
      }
      var prevp := freep;
      ghost var jf := Position(ring, freep);
      ghost var j := jf;
      Steps(base, ptr, size, ring, used, brk, obtained, jf);
      var p := ptr[prevp];
      NoneSkipped(size, ring, jf, nunits);
      ghost var free0 := FreeBlocks();
      assert free0 == old(FreeBlocks());
      while true
        invariant Valid() && freep != 0 && grew <= 1 && used == old(used)
        invariant Untouched(old(ptr), old(size), ptr, size, old(used))
        invariant 0 <= j < |ring| && 0 <= jf < |ring| && ring[jf] == freep && prevp == ring[j]
        invariant p == ring[Next(ring, j)]
        invariant prevp in ptr && p in ptr && p in size && ptr[prevp] == p
        invariant grew == 0 ==> FreeBlocks() == free0 && obtained == old(obtained) && brk == old(brk)
        invariant grew == 0 ==> TooSmall(size, ring, jf, j, nunits)
        invariant grew == 1 ==>
          && nunits < 0x800_0000 && freep in size && (size[freep] >= nunits || (prevp == freep && size[p] >= nunits))
        invariant grew == 1 ==>
          && obtained == old(obtained) + Bytes(old(brk), Request(nunits)) && brk == old(brk) + UNIT * Request(nunits)
        invariant grew == 1 ==> forall a :: a in free0 ==> free0[a] < nunits
        decreases 1 - grew, Distance(ring, Next(ring, j), jf)
      {
        if size[p] >= nunits {
          NotBase(base, ptr, size, ring, used, brk, obtained, j);
          Fitting(base, ptr, size, ring, used, brk, obtained, j + 1, nunits);
          ghost var ptr1, size1 := ptr, size;
          var q := Take(prevp, p, nunits, j + 1);
          NoMoreWrites(old(ptr), old(size), ptr1, size1, ptr, size, old(used));
          Served(base, ptr, size, ring, used, brk, obtained, q + UNIT, nbytes);
          return q + UNIT, false, grew;
        }
        if p == freep {
          assert grew == 0;
          NoneFits(base, ptr, size, ring, used, brk, obtained, jf, j, nunits);
          if nunits >= 0x800_0000 {
            return 0, SbrkArg(nunits) <= 0 || room, grew;
          }
          ghost var ptr1, size1 := ptr, size;
          var more := Morecore(nunits, room);
          NoMoreWrites(old(ptr), old(size), ptr1, size1, ptr, size, old(used));
          if more == 0 {
            return 0, false, grew;
          }
          grew := 1;
          p := more;
          jf := Position(ring, freep);
          j := jf;
        } else {
          if grew == 0 {
            OneMore(size, ring, jf, j, nunits);
          }
          Closer(ring, jf, j);
          j := Next(ring, j);
        }
        Steps(base, ptr, size, ring, used, brk, obtained, j);
        prevp := p;
        p := ptr[p];
      }
    }

    /** Freeing what was just allocated restores the free list, block for block. */
    method MallocThenFree(nbytes: nat)
      requires Valid() && nbytes < 0x1_0000_0000
      modifies this
      ensures Valid() && used == old(used)
      ensures brk == old(brk) ==> FreeBlocks() == old(FreeBlocks())
    {
      hide HeapOk, Untouched, Bytes, Blocks;
      ghost var started, ptr0, size0, ring0 := freep != 0, ptr, size, ring;
      var ap;
      ghost var grew;
      var ruined;
      ap, ruined, grew := Malloc(nbytes, true);
      if ap == 0 {
        return;
      }
      Free(ap);
      assert old(used)[ap - UNIT := Units(nbytes)] - {ap - UNIT} == old(used);
      if grew == 0 {
        assert obtained == old(obtained);
        if started {
          FreeListDetermined(base, ptr0, size0, ring0, ptr, size, ring, used, brk, obtained);
        } else {
          NothingObtained(base, ptr, size, ring, used, brk);
        }
      }
    }
  }
}
