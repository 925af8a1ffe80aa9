/** The file regions mapped into one process: placed downwards below the trapframe, looked up by
    address, filled one page at a time on a load fault. */
module Regions {
  import opened Basics
  import opened FsFormat
  import opened FsLayout
  import opened FileSystem
  import opened FileTable

  const TRAPFRAME: nat := 0x40_0000_0000 - 2 * PGSIZE

  const WORD: nat := 0x1_0000_0000_0000_0000
  type Word64 = x: int | 0 <= x < 0x1_0000_0000_0000_0000
  type Int32 = x: int | -0x8000_0000 <= x < 0x8000_0000

  /** `inum` is the inode of the mapped file; `refcnt` counts the pages loaded. */
  datatype Region = Region(valid: bool, addr: Word64, len: Int32, flags: int, off: Int32, prot: int, inum: nat,
                           refcnt: Word64)

  function Wrap(x: int): Word64 { x % WORD }

  /** The test of the lookup loops, in 64-bit arithmetic. */
  predicate Covers(r: Region, va: Word64) { r.addr <= va && va < Wrap(r.addr + r.len) && r.valid }

  /** No address lies in two regions. */
  ghost predicate Disjoint(rs: seq<Region>) {
    forall i, j, va: Word64 :: 0 <= i < j < |rs| && Covers(rs[i], va) ==> !Covers(rs[j], va)
  }

  /** Every mapped address lies between `top` and the trapframe. */
  ghost predicate Within(rs: seq<Region>, top: int) {
    forall i, va: Word64 :: 0 <= i < |rs| && Covers(rs[i], va) ==> top <= va < TRAPFRAME
  }

  ghost predicate Stacked(rs: seq<Region>, top: int) {
    |rs| == VMA_MAX && 0 <= top <= TRAPFRAME && Disjoint(rs) && Within(rs, top)
  }

  /** A page lies in a region wholly or not at all. */
  ghost predicate WholePages(rs: seq<Region>) {
    forall i, va: Word64, x: Word64 :: 0 <= i < |rs| && Covers(rs[i], va) && x / PGSIZE == va / PGSIZE ==>
        Covers(rs[i], x)
  }

  function Placed(r: Region, top: Word64, len: Int32): Region {
    r.(valid := true, len := len, addr := Wrap(top - len))
  }

  /** What a new region covers: the `len` addresses below `top`, and none if `len` is not positive. */
  lemma PlacedCovers(r: Region, top: Word64, len: Int32, va: Word64)
    requires len <= top <= TRAPFRAME
    ensures Covers(Placed(r, top, len), va) <==> top - len <= va < top
  {
    assert Wrap(top - len) == top - len && Wrap(top - len + len) == top;
  }

  /** A new region keeps the regions disjoint between the new top and the trapframe exactly when its
      length fits on both sides and no mapped address lies below the new top. */
  lemma PlacedStacked(rs: seq<Region>, top: Word64, k: nat, r: Region, len: Int32)
    requires Stacked(rs, top) && k < VMA_MAX && !rs[k].valid
    ensures Stacked(rs[k := Placed(r, top, len)], Wrap(top - len)) <==>
              && len <= top && top - len <= TRAPFRAME
              && forall i, va: Word64 :: 0 <= i < |rs| && Covers(rs[i], va) ==> top - len <= va
  {
    hide Covers;
    var rs' := rs[k := Placed(r, top, len)];
    if len <= top {
      assert Wrap(top - len) == top - len;
      forall va: Word64
        ensures Covers(rs'[k], va) <==> top - len <= va < top
      {
        PlacedCovers(r, top, len, va);
      }
      Uncovered(rs[k]);
      if top - len <= TRAPFRAME && forall i, va: Word64 :: 0 <= i < |rs| && Covers(rs[i], va) ==> top - len <= va {
        StackedAgain(rs, rs', top, k, len);
      } else if Stacked(rs', top - len) {
        forall i, va: Word64 | 0 <= i < |rs| && Covers(rs[i], va)
          ensures top - len <= va
        {
          assert rs'[i] == rs[i];
        }
      }
    } else {
      assert Wrap(top - len) == WORD + top - len > TRAPFRAME;
    }
  }

  lemma Uncovered(r: Region)
    requires !r.valid
    ensures forall va: Word64 :: !Covers(r, va)
  {
  }

  lemma StackedAgain(rs: seq<Region>, rs': seq<Region>, top: int, k: nat, len: int)
    requires Stacked(rs, top) && k < VMA_MAX && |rs'| == |rs| && rs' == rs[k := rs'[k]]
    requires len <= top && top - len <= TRAPFRAME
    requires forall va: Word64 :: Covers(rs'[k], va) <==> top - len <= va < top
    requires forall i, va: Word64 :: 0 <= i < |rs| && Covers(rs[i], va) ==> top - len <= va
    ensures Stacked(rs', top - len)
  {
    hide Covers;
    forall i, va: Word64 | 0 <= i < |rs'| && Covers(rs'[i], va)
      ensures top - len <= va < TRAPFRAME
      ensures i != k ==> rs'[i] == rs[i] && top <= va
    {
    }
  }

  /** For lengths that are not negative it is enough that there is room. */
  lemma RoomIsEnough(rs: seq<Region>, top: Word64, k: nat, r: Region, len: Int32)
    requires Stacked(rs, top) && k < VMA_MAX && !rs[k].valid && len >= 0
    ensures Stacked(rs[k := Placed(r, top, len)], Wrap(top - len)) <==> len <= top
  {
    hide Covers;
    PlacedStacked(rs, top, k, r, len);
  }

  /** Below a page boundary, whole pages stay whole exactly when the length is a multiple of a page. */
  lemma PlacedPaged(rs: seq<Region>, top: Word64, k: nat, r: Region, len: Int32)
    requires WholePages(rs) && k < |rs| && !rs[k].valid && top % PGSIZE == 0 && 0 < len <= top <= TRAPFRAME
    ensures WholePages(rs[k := Placed(r, top, len)]) <==> len % PGSIZE == 0
  {
    var rs' := rs[k := Placed(r, top, len)];
    hide Covers;
    if len % PGSIZE == 0 {
      forall i, va: Word64, x: Word64 | 0 <= i < |rs'| && Covers(rs'[i], va) && x / PGSIZE == va / PGSIZE
        ensures Covers(rs'[i], x)
      {
        if i == k {
          PlacedCovers(r, top, len, va);
          PlacedCovers(r, top, len, x);
        } else {
          assert rs'[i] == rs[i];
        }
      }
    } else {
      var va := top - len;
      var x := va / PGSIZE * PGSIZE;
      PlacedCovers(r, top, len, va);
      PlacedCovers(r, top, len, x);
      assert Covers(rs'[k], va) && !Covers(rs'[k], x) && x / PGSIZE == va / PGSIZE;
    }
  }

  /** Within the bounds, an address in a region is less than the length away from its start. */
  lemma InsideLength(rs: seq<Region>, top: int, k: nat, va: Word64)
    requires Stacked(rs, top) && k < VMA_MAX && Covers(rs[k], va)
    ensures 0 <= va - rs[k].addr < rs[k].len
  {
    var sum := rs[k].addr + rs[k].len;
    if sum < 0 {
      assert Wrap(sum) == WORD + sum;
      assert Covers(rs[k], WORD + sum - 1);
    } else if sum < WORD {
      assert Wrap(sum) == sum;
    }
  }

  /** Page counters and retired regions do not matter to the layout. */
  lemma SameLayout(rs: seq<Region>, rs': seq<Region>, top: int, k: nat)
    requires Stacked(rs, top) && k < VMA_MAX && |rs'| == VMA_MAX && rs' == rs[k := rs'[k]]
    requires rs'[k].valid ==> rs[k].valid && rs'[k].addr == rs[k].addr && rs'[k].len == rs[k].len
    ensures Stacked(rs', top)
  {
    forall i, va: Word64 | 0 <= i < VMA_MAX && Covers(rs'[i], va)
      ensures Covers(rs[i], va)
    {
    }
  }

  lemma CopiedLayout(rs: seq<Region>, rs': seq<Region>, top: int)
    requires Stacked(rs, top) && |rs'| == VMA_MAX
    requires forall i :: 0 <= i < VMA_MAX ==> if rs[i].valid then rs'[i] == rs[i] else !rs'[i].valid
    ensures Stacked(rs', top)
  {
    forall i, va: Word64 | 0 <= i < VMA_MAX && Covers(rs'[i], va)
      ensures Covers(rs[i], va)
    {
    }
  }

  /** The regions of one process. */
  class Mapped {
    var rs: seq<Region>
    var top: Word64

    ghost predicate Valid()
      reads this
    {
      Stacked(rs, top)
    }

    constructor (was: seq<Region>)
      requires |was| == VMA_MAX
      ensures Valid() && WholePages(rs) && |rs| == VMA_MAX
      ensures top == TRAPFRAME && forall i :: 0 <= i < |rs| ==> !rs[i].valid && rs[i].refcnt == 0
    {
      rs := was;
      top := TRAPFRAME;
      new;
      var i := 0;
      while i < VMA_MAX
        invariant 0 <= i <= VMA_MAX && |rs| == VMA_MAX && top == TRAPFRAME
        invariant forall j :: 0 <= j < i ==> !rs[j].valid && rs[j].refcnt == 0
      {
        rs := rs[i := rs[i].(valid := false, refcnt := 0)];
        i := i + 1;
      }
    }

    /** `ok` is false where the source panics for want of a free region. The flag test against the
        descriptor comes before this. */
    method Mmap(len: Int32, prot: int, flags: int, off: Int32, inum: nat) returns (ok: bool, idx: nat)
      requires |rs| == VMA_MAX
      modifies this
      ensures |rs| == VMA_MAX
      ensures ok <==> exists i :: 0 <= i < VMA_MAX && !old(rs)[i].valid
      ensures !ok ==> rs == old(rs) && top == old(top)
      ensures ok ==> idx < VMA_MAX && !old(rs)[idx].valid && forall i :: 0 <= i < idx ==> old(rs)[i].valid
      ensures ok ==>
        && top == Wrap(old(top) - len)
        && rs == old(rs)[idx := Region(true, top, len, flags, off, prot, inum, old(rs)[idx].refcnt)]
      ensures ok && old(Valid()) ==> (Valid() <==>
        && len <= old(top) && old(top) - len <= TRAPFRAME
        && forall i, va: Word64 :: 0 <= i < VMA_MAX && Covers(old(rs)[i], va) ==> old(top) - len <= va)
      ensures ok && old(WholePages(rs)) && old(top) % PGSIZE == 0 && 0 < len <= old(top) <= TRAPFRAME ==>
        (WholePages(rs) <==> len % PGSIZE == 0)
    {
      hide Covers;
      idx := 0;
      while idx < VMA_MAX
        invariant 0 <= idx <= VMA_MAX
        invariant forall i :: 0 <= i < idx ==> rs[i].valid
        modifies {}
      {
        if !rs[idx].valid {
          break;
        }
        idx := idx + 1;
      }
      if idx == VMA_MAX {
        return false, idx;
      }
      var r := rs[idx].(prot := prot, flags := flags, off := off, inum := inum);
      if Stacked(rs, top) {
        PlacedStacked(rs, top, idx, r, len);
      }
      if WholePages(rs) && top % PGSIZE == 0 && 0 < len <= top <= TRAPFRAME {
        PlacedPaged(rs, top, idx, r, len);
      }
      rs := rs[idx := Placed(r, top, len)];
      top := Wrap(top - len);
      return true, idx;
    }

    /** The first region holding `va`; when the regions are disjoint there is no other. */
    method Find(va: Word64) returns (found: bool, k: nat)
      requires |rs| == VMA_MAX
      ensures found ==> k < VMA_MAX && Covers(rs[k], va) && forall i :: 0 <= i < k ==> !Covers(rs[i], va)
      ensures found && Valid() ==> forall i :: 0 <= i < VMA_MAX ==> (Covers(rs[i], va) <==> i == k)
      ensures !found ==> forall i :: 0 <= i < VMA_MAX ==> !Covers(rs[i], va)
    {
      hide Wrap;
      k := 0;
      while k < VMA_MAX
        invariant 0 <= k <= VMA_MAX
        invariant forall i :: 0 <= i < k ==> !Covers(rs[i], va)
      {
        if Covers(rs[k], va) {
          return true, k;
        }
        k := k + 1;
      }
      return false, 0;
    }

    /** A load fault at `va`. `present` says whether a page is mapped there already, `room` whether pages
        are left for the new page and its tables, `inOp` whether some file-system operation is outstanding.
        The page handed to the process holds the file's bytes from `va` on, with zeros past the end of the
        file; only where the file has a hole and the disk is full may zeros begin earlier. */
    method LoadFault(fs: Fs, va: Word64, present: bool, room: bool, inOp: bool)
      returns (found: bool, panicked: bool, page: seq<Byte>, k: nat, ghost got: nat)
      requires Valid() && fs.Valid()
      requires forall i :: 0 <= i < VMA_MAX && rs[i].valid ==> rs[i].inum < |fs.ino|
      modifies this`rs, fs`disk, fs`ino, fs`own, fs`logged, fs`trace
      ensures Valid() && fs.Valid() && OnlyGrew(old(fs.disk), old(fs.ino), old(fs.own), fs.disk, fs.ino, fs.own)
      ensures !found <==> forall i :: 0 <= i < VMA_MAX ==> !Covers(old(rs)[i], va)
      ensures found ==>
        && k < VMA_MAX && Covers(old(rs)[k], va) && old(rs)[k].inum < |old(fs.ino)| && old(rs)[k].addr <= va
      ensures panicked <==>
        found && (va % PGSIZE != 0 || present || !room || (!inOp && old(PageReadPanics(fs, rs[k], va))))
      ensures !found || va % PGSIZE != 0 || present || !room ==> rs == old(rs)
      ensures found && va % PGSIZE == 0 && !present && room ==>
        rs == old(rs)[k := old(rs)[k].(refcnt := Wrap(old(rs)[k].refcnt + 1))]
      ensures found && !panicked ==> Loaded(old(fs.disk), old(fs.ino), rs[k].inum, va - rs[k].addr, got, page)
      ensures found && !panicked && got < PGSIZE && va - rs[k].addr + got < old(fs.ino)[rs[k].inum].size ==>
        Full(fs.sb, fs.own) && !old(NoHoles(fs.disk, fs.ino, rs[k].inum))
    {
      hide FileByte, Wrap, FsOk, OnlyGrew, Full, NoHoles, Disjoint, Within, Contents, Loaded, ReadPanics;
      panicked, page, got := false, [], 0;
      GrewRefl(fs.disk, fs.ino, fs.own);
      found, k := Find(va);
      if !found {
        return;
      }
      var r := rs[k];
      InsideLength(rs, top, k, va);
      if va % PGSIZE != 0 || present || !room {
        panicked := true;
        return;
      }
      page := seq(PGSIZE, _ => 0);
      rs := rs[k := r.(refcnt := Wrap(r.refcnt + 1))];
      SameLayout(old(rs), rs, top, k);
      var tot, dst;
      panicked, tot, dst := fs.Readi(r.inum, va - r.addr, PGSIZE, PGSIZE, inOp);
      if panicked {
        return;
      }
      got := tot;
      ContentsSize(old(fs.disk), old(fs.ino), r.inum);
      PageLoaded(old(fs.disk), old(fs.ino), r.inum, va - r.addr, dst);
      page := dst + page[|dst|..];
    }

    /** Unmapping at `va`, where `present` says whether its page is loaded: a loaded page is only given
        back; otherwise the region is retired unless its counter stood at one. `found` is false where
        the source panics. */
    method Munmap(va: Word64, present: bool) returns (found: bool, k: nat)
      requires |rs| == VMA_MAX
      modifies this`rs
      ensures |rs| == VMA_MAX && (old(Valid()) ==> Valid())
      ensures !found <==> forall i :: 0 <= i < VMA_MAX ==> !Covers(old(rs)[i], va)
      ensures !found || present ==> rs == old(rs)
      ensures found ==> k < VMA_MAX && Covers(old(rs)[k], va)
      ensures found && !present ==>
        rs == old(rs)[k := old(rs)[k].(valid := old(rs)[k].refcnt == 1, refcnt := Wrap(old(rs)[k].refcnt - 1))]
    {
      hide Disjoint, Within;
      found, k := Find(va);
      if !found || present {
        return;
      }
      var left := Wrap(rs[k].refcnt - 1);
      rs := rs[k := rs[k].(refcnt := left)];
      if left != 0 {
        rs := rs[k := rs[k].(valid := false)];
      }
      if old(Valid()) {
        SameLayout(old(rs), rs, top, k);
      }
    }

    /** The child gets the regions in use, at the same places. */
    method Fork(child: Mapped)
      requires Valid()
      requires child != this && |child.rs| == VMA_MAX && forall i :: 0 <= i < VMA_MAX ==> !child.rs[i].valid
      modifies child
      ensures child.Valid() && child.top == top
      ensures forall i :: 0 <= i < VMA_MAX ==>
        if rs[i].valid then child.rs[i] == rs[i] else !child.rs[i].valid
    {
      hide Disjoint, Within;
      child.top := top;
      var i := 0;
      while i < VMA_MAX
        invariant 0 <= i <= VMA_MAX && |child.rs| == VMA_MAX && child.top == top
        invariant forall j :: 0 <= j < i ==> if rs[j].valid then child.rs[j] == rs[j] else !child.rs[j].valid
        invariant forall j :: i <= j < VMA_MAX ==> !child.rs[j].valid
      {
        if rs[i].valid {
          child.rs := child.rs[i := rs[i]];
        }
        i := i + 1;
      }
      CopiedLayout(rs, child.rs, top);
    }
  }

  /** Reading the page of the file at `va` would allocate a block for a hole. */
  ghost predicate PageReadPanics(fs: Fs, r: Region, va: Word64)
    reads fs
  {
    r.addr <= va && ReadPanics(fs.sb, fs.disk, fs.ino, fs.own, r.inum, va - r.addr, PGSIZE, PGSIZE)
  }

  /** The page: `got` bytes of the file from `from` on, then zeros. */
  ghost predicate Loaded(d: seq<Block>, ino: seq<Inode>, i: nat, from: int, got: nat, page: seq<Byte>) {
    && 0 <= from && i < |ino| && got <= |page| == PGSIZE && (got > 0 ==> from + got <= ino[i].size)
    && forall x :: 0 <= x < PGSIZE ==> page[x] == if x < got then FileByte(d, ino, i, from + x) else 0
  }

  lemma PageLoaded(d: seq<Block>, ino: seq<Inode>, i: nat, from: nat, dst: seq<Byte>)
    requires i < |ino| && |dst| <= PGSIZE
    requires dst != [] ==> from + |dst| <= |Contents(d, ino, i)| && dst == Contents(d, ino, i)[from..from + |dst|]
    ensures var zeros: seq<Byte> := seq(PGSIZE, _ => 0); Loaded(d, ino, i, from, |dst|, dst + zeros[|dst|..])
  {
    hide FileByte;
    var zeros: seq<Byte> := seq(PGSIZE, _ => 0);
    var page := dst + zeros[|dst|..];
    forall x | 0 <= x < PGSIZE
      ensures page[x] == if x < |dst| then FileByte(d, ino, i, from + x) else 0
    {
      if x < |dst| {
        assert page[x] == dst[x] == Contents(d, ino, i)[from + x];
      }
    }
  }

  /** Nothing in the source refuses a negative length. One such call below a region in use makes the
      next region overlap it. */
  method NegativeLengthOverlaps(was: seq<Region>) returns (m: Mapped, va: Word64)
    requires |was| == VMA_MAX
    ensures |m.rs| == VMA_MAX && Covers(m.rs[0], va) && Covers(m.rs[2], va)
  {
    hide Stacked, WholePages;
    m := new Mapped(was);
    assert !m.rs[0].valid && !m.rs[1].valid && !m.rs[2].valid;
    var ok, i := m.Mmap(4096, 0, 0, 0, 0);
    assert i == 0 && !m.rs[1].valid && !m.rs[2].valid;
    va := m.top;
    ok, i := m.Mmap(-4096, 0, 0, 0, 0);
    assert i == 1 && !m.rs[2].valid;
    ok, i := m.Mmap(4096, 0, 0, 0, 0);
  }

  /** Once nothing is mapped below the new top, a negative length does no harm. */
  method NegativeLengthAfterUnmap(was: seq<Region>) returns (m: Mapped)
    requires |was| == VMA_MAX
    ensures m.Valid() && m.top == TRAPFRAME - 4096
  {
    hide Stacked, WholePages;
    m := new Mapped(was);
    assert !m.rs[0].valid && !m.rs[1].valid;
    var ok, i := m.Mmap(8192, 0, 0, 0, 0);
    assert i == 0 && Covers(m.rs[0], m.top);
    var found, k := m.Munmap(m.top, false);
    assert k == 0 && forall j :: 0 <= j < VMA_MAX ==> !m.rs[j].valid;
    assert !m.rs[0].valid;
    ok, i := m.Mmap(-4096, 0, 0, 0, 0);
  }
}
