/** The buffer cache's list: all buffers on one doubly linked ring through `head`, most recently
    released first. */
module BufferList {

  const NBUF: nat := 30
  const HEAD: nat := 30      // the list head, next to buffers 0 to 29

  function After(n: nat, i: nat): nat { if i + 1 < n then i + 1 else 0 }
  function Before(n: nat, i: nat): nat
    requires n > 0
  {
    if i > 0 then i - 1 else n - 1
  }

  /** `ring` lists a circular list in `next` order, and `prev` is its reverse. */
  ghost predicate Linked(next: seq<nat>, prev: seq<nat>, ring: seq<nat>) {
    && |next| == NBUF + 1 && |prev| == NBUF + 1 && |ring| > 0 && ring[0] == HEAD
    && (forall i :: 0 <= i < |ring| ==> ring[i] <= HEAD)
    && (forall i, j :: 0 <= i < j < |ring| ==> ring[i] != ring[j])
    && (forall i :: 0 <= i < |ring| ==> LinkAt(next, prev, ring, i))
  }

  ghost predicate LinkAt(next: seq<nat>, prev: seq<nat>, ring: seq<nat>, i: nat)
    requires i < |ring|
  {
    && ring[i] < |next| && ring[i] < |prev|
    && next[ring[i]] == ring[After(|ring|, i)] && prev[ring[i]] == ring[Before(|ring|, i)]
  }

  /** Position `k` left out. */
  function Without(ring: seq<nat>, k: nat): seq<nat>
    requires k < |ring|
  {
    ring[..k] + ring[k + 1..]
  }

  /** `b` put right behind the head. */
  function InFront(ring: seq<nat>, b: nat): seq<nat>
    requires |ring| > 0
  {
    [ring[0], b] + ring[1..]
  }

  /** The two stores that take a buffer out of the list. */
  lemma Unlinked(next: seq<nat>, prev: seq<nat>, ring: seq<nat>, k: nat, next': seq<nat>, prev': seq<nat>,
                 ring': seq<nat>)
    requires Linked(next, prev, ring) && 1 <= k < |ring| && LinkAt(next, prev, ring, k)
    requires next' == next[prev[ring[k]] := next[ring[k]]] && prev' == prev[next[ring[k]] := prev[ring[k]]]
    requires |ring'| == |ring| - 1 && (forall j :: 0 <= j < k ==> ring'[j] == ring[j])
    requires (forall j :: k <= j < |ring'| ==> ring'[j] == ring[j + 1])
    ensures Linked(next', prev', ring')
  {
    var n := |ring|;
    forall j | 0 <= j < |ring'|
      ensures LinkAt(next', prev', ring', j)
    {
      var i := if j < k then j else j + 1;
      assert LinkAt(next, prev, ring, i) && ring'[j] == ring[i];
      assert i != After(n, k) ==> ring[i] != ring[After(n, k)];
      assert i != Before(n, k) ==> ring[i] != ring[Before(n, k)];
    }
  }

  /** The four stores that put `b` at the front. */
  lemma PutInFront(next: seq<nat>, prev: seq<nat>, ring: seq<nat>, b: nat, next': seq<nat>, prev': seq<nat>,
                   ring': seq<nat>)
    requires Linked(next, prev, ring) && b < HEAD && b !in ring && LinkAt(next, prev, ring, 0)
    requires next' == next[b := next[HEAD]][HEAD := b] && prev' == prev[b := HEAD][next[HEAD] := b]
    requires |ring'| == |ring| + 1 && ring'[0] == HEAD && ring'[1] == b
    requires forall j :: 2 <= j < |ring'| ==> ring'[j] == ring[j - 1]
    ensures Linked(next', prev', ring')
  {
    forall j | 0 <= j < |ring'|
      ensures LinkAt(next', prev', ring', j)
    {
      if j >= 2 {
        assert LinkAt(next, prev, ring, j - 1);
        assert ring[j - 1] != HEAD && ring[j - 1] != b;
        assert j - 1 != After(|ring|, 0) ==> ring[j - 1] != ring[After(|ring|, 0)];
      }
    }
    forall i, j | 0 <= i < j < |ring'|
      ensures ring'[i] != ring'[j]
    {
      if i >= 2 {
        assert ring[i - 1] != ring[j - 1];
      }
    }
  }

  /** Which block each buffer holds. At most one buffer per block of a real device; buffers start out
      as block 0 of device 0. */
  ghost predicate Unique(dev: seq<nat>, blockno: seq<nat>) {
    && |dev| == NBUF && |blockno| == NBUF
    && forall x, y :: 0 <= x < y < NBUF && dev[x] != 0 ==> dev[x] != dev[y] || blockno[x] != blockno[y]
  }

  /** The list holds every buffer, in descending order of when it was last moved to the front. */
  ghost predicate ByRelease(ring: seq<nat>, stamp: seq<nat>, clock: nat) {
    && |ring| == NBUF + 1 && |stamp| == NBUF && (forall b: nat :: b <= HEAD ==> b in ring)
    && (forall i :: 1 <= i < |ring| ==> ring[i] < NBUF && stamp[ring[i]] < clock)
    && (forall i, j :: 1 <= i < j < |ring| ==> ring[i] < NBUF && ring[j] < NBUF && stamp[ring[i]] > stamp[ring[j]])
  }

  lemma MovedToFront(next: seq<nat>, prev: seq<nat>, ring: seq<nat>, stamp: seq<nat>, clock: nat, k: nat)
    requires Linked(next, prev, ring) && ByRelease(ring, stamp, clock) && 1 <= k < |ring|
    ensures ByRelease(InFront(Without(ring, k), ring[k]), stamp[ring[k] := clock], clock + 1)
  {
    var b, ring' := ring[k], InFront(Without(ring, k), ring[k]);
    assert ring'[0] == HEAD && ring'[1] == b;
    assert forall j :: 2 <= j <= k ==> ring'[j] == ring[j - 1];
    assert forall j :: k < j < |ring'| && j >= 2 ==> ring'[j] == ring[j];
    forall x: nat | x <= HEAD
      ensures x in ring'
    {
      assert x in ring;
      var i :| 0 <= i < |ring| && ring[i] == x;
      if i == k {
        assert ring'[1] == x;
      } else if i == 0 {
        assert ring'[0] == x;
      } else if i < k {
        assert ring'[i + 1] == x;
      } else {
        assert ring'[i] == x;
      }
    }
    assert forall i :: 1 <= i < |ring| && i != k ==> ring[i] != b;
    forall i, j | 1 <= i < j < |ring'|
      ensures ring'[i] < NBUF && ring'[j] < NBUF && stamp[b := clock][ring'[i]] > stamp[b := clock][ring'[j]]
    {
      var j0 := if j <= k then j - 1 else j;
      assert ring'[j] == ring[j0] && j0 != k;
      if i >= 2 {
        var i0 := if i <= k then i - 1 else i;
        assert ring'[i] == ring[i0] && i0 < j0;
      }
    }
  }

  class Cache {
    var next: seq<nat>
    var prev: seq<nat>
    var dev: seq<nat>
    var blockno: seq<nat>
    var refcnt: seq<int>
    var valid: seq<bool>
    ghost var ring: seq<nat>
    ghost var stamp: seq<nat>    // when the buffer was last moved to the front
    ghost var clock: nat

    /** `binit`: link the buffers in one after the other. */
    constructor ()
      ensures Valid() && forall b :: 0 <= b < NBUF ==> refcnt[b] == 0
    {
      next, prev := seq(NBUF + 1, _ => HEAD), seq(NBUF + 1, _ => HEAD);
      dev, blockno := seq(NBUF, _ => 0), seq(NBUF, _ => 0);
      refcnt, valid := seq(NBUF, _ => 0), seq(NBUF, _ => false);
      ring, stamp, clock := [HEAD], seq(NBUF, i => i), NBUF;
      new;
      var b := 0;
      assert LinkAt(next, prev, ring, 0);
      while b < NBUF
        invariant 0 <= b <= NBUF && Linked(next, prev, ring) && |ring| == b + 1
        invariant forall i :: 1 <= i <= b ==> ring[i] == b - i
        modifies this`next, this`prev, this`ring
      {
        Neighbours(next, prev, ring, 0);
        ghost var next0, prev0, ring0 := next, prev, ring;
        LinkFront(b);
        FrontAgain(next0, prev0, ring0, b, next, prev);
        ring := InFront(ring0, b);
        b := b + 1;
      }
      forall x: nat | x <= HEAD
        ensures x in ring
      {
        assert ring[if x == HEAD then 0 else NBUF - x] == x;
      }
    }

    ghost predicate Valid()
      reads this
    {
      && Linked(next, prev, ring) && ByRelease(ring, stamp, clock) && Unique(dev, blockno)
      && |refcnt| == NBUF && |valid| == NBUF && forall b :: 0 <= b < NBUF ==> refcnt[b] >= 0
    }

    /** The two stores that take a buffer out of the list. */
    method Unlink(b: nat)
      requires |next| == |prev| == NBUF + 1 && b < NBUF && next[b] <= HEAD && prev[b] <= HEAD && next[b] != b
      modifies this`next, this`prev
      ensures next == old(next)[old(prev)[b] := old(next)[b]] && prev == old(prev)[old(next)[b] := old(prev)[b]]
    {
      prev := prev[next[b] := prev[b]];
      next := next[prev[b] := next[b]];
    }

    /** The four stores that put `b` behind the head. */
    method LinkFront(b: nat)
      requires |next| == |prev| == NBUF + 1 && b < NBUF && next[HEAD] <= HEAD
      modifies this`next, this`prev
      ensures next == old(next)[b := old(next)[HEAD]][HEAD := b] && prev == old(prev)[b := HEAD][old(next)[HEAD] := b]
    {
      next := next[b := next[HEAD]];
      prev := prev[b := HEAD];
      prev := prev[next[HEAD] := b];
      next := next[HEAD := b];
    }

    /** `brelse` of a referenced buffer. */
    method Brelse(b: nat)
      requires Valid() && b < NBUF && refcnt[b] > 0
      modifies this`next, this`prev, this`refcnt, this`ring, this`stamp, this`clock
      ensures Valid() && refcnt == old(refcnt)[b := old(refcnt)[b] - 1]
      ensures old(refcnt)[b] > 1 ==> ring == old(ring) && stamp == old(stamp)
      ensures old(refcnt)[b] == 1 ==>
        && b < |old(stamp)| && stamp == old(stamp)[b := old(clock)] && |ring| > 1 && ring[1] == b
      ensures multiset(ring) == multiset(old(ring))
    {
      hide Linked, ByRelease, Unique, InFront, Without, LinkAt;
      refcnt := refcnt[b := refcnt[b] - 1];
      if refcnt[b] == 0 {
        ghost var k := Position(next, prev, ring, stamp, clock, b);
        ghost var next0, prev0 := next, prev;
        Unlink(b);
        ghost var next1, prev1 := next, prev;
        AfterUnlink(next0, prev0, ring, k, next, prev);
        LinkFront(b);
        FrontAgain(next1, prev1, Without(ring, k), b, next, prev);
        MovedToFront(next0, prev0, ring, stamp, clock, k);
        SameElements(ring, k);
        ring := InFront(Without(ring, k), b);
        stamp, clock := stamp[b := clock], clock + 1;
      }
    }

    /** The first loop of `bget`: walk the list forward looking for the block. */
    method Lookup(d: nat, n: nat) returns (b: nat)
      requires Valid()
      ensures b <= HEAD
      ensures b < NBUF ==> dev[b] == d && blockno[b] == n
      ensures b == HEAD ==> forall x: nat :: x < NBUF ==> dev[x] != d || blockno[x] != n
    {
      hide ByRelease, Unique;
      Ends(next, prev, ring, dev, blockno, stamp, clock);
      b := next[HEAD];
      ghost var i := 1;
      while b != HEAD
        invariant 1 <= i <= |ring| && b == (if i < |ring| then ring[i] else HEAD)
        invariant forall j :: 1 <= j < i ==> dev[ring[j]] != d || blockno[ring[j]] != n
        decreases |ring| - i
      {
        Neighbours(next, prev, ring, i);
        if dev[b] == d && blockno[b] == n {
          return;
        }
        b := next[b];
        i := i + 1;
      }
      NoneLeft(next, prev, ring, stamp, clock, i, dev, blockno, d, n);
    }

    /** The second loop of `bget`: walk backward from the least recently released buffer. */
    method Victim() returns (b: nat)
      requires Valid()
      ensures b <= HEAD && |stamp| == NBUF
      ensures b < NBUF ==>
        && refcnt[b] == 0 && forall x: nat :: x < NBUF && x != b && refcnt[x] == 0 ==> stamp[b] < stamp[x]
      ensures b == HEAD ==> forall x: nat :: x < NBUF ==> refcnt[x] != 0
    {
      hide ByRelease, Unique;
      Ends(next, prev, ring, dev, blockno, stamp, clock);
      b := prev[HEAD];
      ghost var i := |ring| - 1;
      while b != HEAD
        invariant 0 <= i < |ring| && b == ring[i]
        invariant forall j :: i < j < |ring| ==> refcnt[ring[j]] != 0
        decreases i
      {
        Neighbours(next, prev, ring, i);
        if refcnt[b] == 0 {
          Oldest(next, prev, ring, stamp, clock, i, refcnt);
          return;
        }
        b := prev[b];
        i := i - 1;
      }
      AllTaken(next, prev, ring, stamp, clock, i, refcnt);
    }

    /** `bget`: the buffer of the block, or the least recently released unreferenced one, renamed. */
    method Bget(d: nat, n: nat) returns (panicked: bool, b: nat)
      requires Valid()
      modifies this`dev, this`blockno, this`refcnt, this`valid
      ensures Valid()
      ensures panicked <==>
          (forall x: nat :: x < NBUF ==> (old(dev)[x] != d || old(blockno)[x] != n) && old(refcnt)[x] != 0)
      ensures panicked ==> unchanged(this)
      ensures !panicked ==> b < NBUF && dev[b] == d && blockno[b] == n && refcnt == old(refcnt)[b := old(refcnt)[b] + 1]
      ensures forall x: nat :: x < NBUF && old(refcnt)[x] > 0 ==>
          dev[x] == old(dev)[x] && blockno[x] == old(blockno)[x] && valid[x] == old(valid)[x]
      ensures !panicked && (dev != old(dev) || blockno != old(blockno)) ==>
                && !valid[b] && old(refcnt)[b] == 0 && |stamp| == NBUF
                && dev == old(dev)[b := d] && blockno == old(blockno)[b := n]
                && forall x: nat :: x < NBUF && x != b && old(refcnt)[x] == 0 ==> stamp[b] < stamp[x]
    {
      hide Linked, ByRelease;
      b := Lookup(d, n);
      if b != HEAD {
        refcnt := refcnt[b := refcnt[b] + 1];
        return false, b;
      }
      b := Victim();
      if b == HEAD {
        return true, b;
      }
      dev, blockno := dev[b := d], blockno[b := n];
      valid := valid[b := false];
      refcnt := refcnt[b := 1];
      panicked := false;
    }

    /** `bpin` and `bunpin`: one reference more or less, no move. */
    method Bpin(b: nat)
      requires Valid() && b < NBUF
      modifies this`refcnt
      ensures Valid() && refcnt == old(refcnt)[b := old(refcnt)[b] + 1]
    {
      refcnt := refcnt[b := refcnt[b] + 1];
    }

    method Bunpin(b: nat)
      requires Valid() && b < NBUF && refcnt[b] > 0
      modifies this`refcnt
      ensures Valid() && refcnt == old(refcnt)[b := old(refcnt)[b] - 1]
    {
      refcnt := refcnt[b := refcnt[b] - 1];
    }
  }

  lemma Ends(next: seq<nat>, prev: seq<nat>, ring: seq<nat>, dev: seq<nat>, blockno: seq<nat>, stamp: seq<nat>,
             clock: nat)
    requires Linked(next, prev, ring) && ByRelease(ring, stamp, clock) && Unique(dev, blockno)
    ensures |ring| == NBUF + 1 && |next| == |prev| == NBUF + 1 && |stamp| == |dev| == |blockno| == NBUF
    ensures next[HEAD] == ring[1] && prev[HEAD] == ring[NBUF] && forall i :: 1 <= i < |ring| ==> ring[i] < NBUF
  {
    Neighbours(next, prev, ring, 0);
  }

  lemma NoneLeft(next: seq<nat>, prev: seq<nat>, ring: seq<nat>, stamp: seq<nat>, clock: nat, i: nat,
                 dev: seq<nat>, blockno: seq<nat>, d: nat, n: nat)
    requires Linked(next, prev, ring) && ByRelease(ring, stamp, clock) && |dev| == |blockno| == NBUF && 1 <= i <= |ring|
    requires (i < |ring| ==> ring[i] == HEAD)
    requires forall j :: 1 <= j < i ==> dev[ring[j]] != d || blockno[ring[j]] != n
    ensures forall x: nat :: x < NBUF ==> dev[x] != d || blockno[x] != n
  {
    forall x: nat | x < NBUF
      ensures dev[x] != d || blockno[x] != n
    {
      var k := Position(next, prev, ring, stamp, clock, x);
    }
  }

  lemma Oldest(next: seq<nat>, prev: seq<nat>, ring: seq<nat>, stamp: seq<nat>, clock: nat, i: nat, refcnt: seq<int>)
    requires Linked(next, prev, ring) && ByRelease(ring, stamp, clock) && |refcnt| == NBUF && 1 <= i < |ring|
    requires |stamp| == NBUF && ring[i] < NBUF
    requires forall j :: i < j < |ring| ==> refcnt[ring[j]] != 0
    ensures forall x: nat :: x < NBUF && x != ring[i] && refcnt[x] == 0 ==> stamp[ring[i]] < stamp[x]
  {
    forall x: nat | x < NBUF && x != ring[i] && refcnt[x] == 0
      ensures stamp[ring[i]] < stamp[x]
    {
      var k := Position(next, prev, ring, stamp, clock, x);
      assert k < i;
    }
  }

  lemma AllTaken(next: seq<nat>, prev: seq<nat>, ring: seq<nat>, stamp: seq<nat>, clock: nat, i: nat, refcnt: seq<int>)
    requires Linked(next, prev, ring) && ByRelease(ring, stamp, clock) && |refcnt| == NBUF && i < |ring|
    requires ring[i] == HEAD
    requires forall j :: i < j < |ring| ==> ring[j] < NBUF && refcnt[ring[j]] != 0
    ensures forall x: nat :: x < NBUF ==> refcnt[x] != 0
  {
    forall x: nat | x < NBUF
      ensures refcnt[x] != 0
    {
      var k := Position(next, prev, ring, stamp, clock, x);
    }
  }

  lemma FrontAgain(next: seq<nat>, prev: seq<nat>, ring: seq<nat>, b: nat, next': seq<nat>, prev': seq<nat>)
    requires Linked(next, prev, ring) && b < HEAD && b !in ring && |next| == |prev| == NBUF + 1 && |ring| > 0
    requires LinkAt(next, prev, ring, 0)
    requires next[HEAD] <= HEAD && next' == next[b := next[HEAD]][HEAD := b]
    requires prev' == prev[b := HEAD][next[HEAD] := b]
    ensures Linked(next', prev', InFront(ring, b)) && |InFront(ring, b)| > 1 && InFront(ring, b)[1] == b
  {
    PutInFront(next, prev, ring, b, next', prev', InFront(ring, b));
  }

  lemma AfterUnlink(next: seq<nat>, prev: seq<nat>, ring: seq<nat>, k: nat, next': seq<nat>, prev': seq<nat>)
    requires Linked(next, prev, ring) && 1 <= k < |ring| && |next| == |prev| == NBUF + 1 && ring[k] <= HEAD
    requires prev[ring[k]] <= HEAD && next[ring[k]] <= HEAD
    requires next' == next[prev[ring[k]] := next[ring[k]]] && prev' == prev[next[ring[k]] := prev[ring[k]]]
    ensures Linked(next', prev', Without(ring, k)) && ring[k] !in Without(ring, k) && |Without(ring, k)| > 0
    ensures LinkAt(next', prev', Without(ring, k), 0) && next'[HEAD] <= HEAD
  {
    Neighbours(next, prev, ring, k);
    Unlinked(next, prev, ring, k, next', prev', Without(ring, k));
    Neighbours(next', prev', Without(ring, k), 0);
  }

  lemma Position(next: seq<nat>, prev: seq<nat>, ring: seq<nat>, stamp: seq<nat>, clock: nat, b: nat) returns (k: nat)
    requires Linked(next, prev, ring) && ByRelease(ring, stamp, clock) && b < NBUF
    ensures 1 <= k < |ring| && ring[k] == b && |stamp| == NBUF && |next| == |prev| == NBUF + 1
    ensures next[b] <= HEAD && prev[b] <= HEAD && next[b] != b
  {
    assert b in ring;
    k :| 0 <= k < |ring| && ring[k] == b;
    Neighbours(next, prev, ring, k);
  }

  lemma Neighbours(next: seq<nat>, prev: seq<nat>, ring: seq<nat>, k: nat)
    requires Linked(next, prev, ring) && k < |ring|
    ensures LinkAt(next, prev, ring, k) && ring[k] <= HEAD && next[ring[k]] <= HEAD && prev[ring[k]] <= HEAD
    ensures next[ring[k]] == ring[After(|ring|, k)] && prev[ring[k]] == ring[Before(|ring|, k)]
  {
  }

  lemma SameElements(ring: seq<nat>, k: nat)
    requires 1 <= k < |ring|
    ensures multiset(InFront(Without(ring, k), ring[k])) == multiset(ring)
  {
    assert ring == [ring[0]] + ring[1..k] + [ring[k]] + ring[k + 1..];
    assert InFront(Without(ring, k), ring[k]) == [ring[0]] + [ring[k]] + ring[1..k] + ring[k + 1..];
  }
}
