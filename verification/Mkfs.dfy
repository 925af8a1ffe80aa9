/** `mkfs`: the image every run of the file system starts from. */
module Mkfs {
  import opened FsFormat
  import opened FsLayout
  import opened FileSystem
  import I = FsImage

  const FSSIZE: nat := 2000
  const NINODES: nat := 200
  const NMETA: nat := 46           // boot, super, 30 log blocks, 13 inode blocks, 1 bitmap block
  const SB: Super := Super(2000, 45, 32, 46)
  const ROOTINO: nat := 1
  const T_FILE: nat := 2
  const DIRSIZ: nat := 14
  const EMPTY: Inode := Inode(0, 0, 0, NO_ADDRS)

  /** Exactly the blocks below the size exist, and what lies beyond is zero. */
  ghost predicate Tight(d: seq<Block>, ino: seq<Inode>, i: nat, size: nat) {
    && size <= MAXBYTES
    && (forall bn: nat :: Ref(d, ino, i, SlotOf(bn)) != 0 <==> bn * BSIZE < size)
    && (Ref(d, ino, i, NDIRECT) != 0 <==> NDIRECT * BSIZE < size)
    && (forall x: nat :: size <= x ==> FileByte(d, ino, i, x) == 0)
  }

  ghost predicate IsZero(b: Block) { forall i :: 0 <= i < BSIZE ==> b[i] == 0 }

  /** Data blocks are handed out in order; the rest of the disk is still zero. */
  ghost predicate Fresh(d: seq<Block>, own: map<nat, Slot>, freeblock: nat) {
    && |d| == FSSIZE && NMETA <= freeblock <= FSSIZE
    && (forall b: nat :: b in own <==> NMETA <= b < freeblock)
    && (forall b: nat :: freeblock <= b < FSSIZE ==> IsZero(d[b]))
  }

  /** Slot `k` of inode `i` now holds `x`, and there is an indirect block if `k` is in it; no other
      reference changed. */
  ghost predicate MapsTo(d: seq<Block>, ino: seq<Inode>, d': seq<Block>, ino': seq<Inode>, i: nat, k: nat, x: nat) {
    && (forall j: nat, l: nat :: j != i || l != NDIRECT ==>
          Ref(d', ino', j, l) == if j == i && l == k then x else Ref(d, ino, j, l))
    && (Ref(d', ino', i, NDIRECT) != 0 <==> Ref(d, ino, i, NDIRECT) != 0 || k > NDIRECT)
  }

  /** How many blocks mapping file block `fbn` still takes. */
  ghost function Missing(d: seq<Block>, ino: seq<Inode>, i: nat, fbn: nat): nat {
    (if Ref(d, ino, i, SlotOf(fbn)) == 0 then 1 else 0)
    + if fbn >= NDIRECT && Ref(d, ino, i, NDIRECT) == 0 then 1 else 0
  }

  lemma DirectRef(d: seq<Block>, ino: seq<Inode>, i: nat, k: nat)
    requires i < |ino| && k <= NDIRECT
    ensures Ref(d, ino, i, k) == ino[i].addrs[k]
  {
  }

  /** How many blocks a file of this size takes, the indirect block included. */
  function BlocksFor(size: nat): nat {
    (size + BSIZE - 1) / BSIZE + if size > NDIRECT * BSIZE then 1 else 0
  }

  lemma BlocksGrow(a: nat, b: nat)
    requires a <= b
    ensures BlocksFor(a) <= BlocksFor(b)
  {
  }

  function BlocksForAll(files: seq<(seq<Byte>, seq<Byte>)>): nat {
    if files == [] then 0 else BlocksForAll(files[..|files| - 1]) + BlocksFor(|files[|files| - 1].1|)
  }

  lemma {:induction false} MoreFiles(files: seq<(seq<Byte>, seq<Byte>)>, i: nat)
    requires i <= |files|
    ensures BlocksForAll(files[..i]) <= BlocksForAll(files)
  {
    if i < |files| {
      MoreFiles(files[..|files| - 1], i);
      assert files[..|files| - 1][..i] == files[..i];
    } else {
      assert files[..i] == files;
    }
  }

  lemma NoFiles()
    ensures BlocksForAll([]) == 0
  {
  }

  /** One more file. */
  lemma NextFile(files: seq<(seq<Byte>, seq<Byte>)>, i: nat)
    requires i < |files| && i + 1 < 65534
    ensures BlocksForAll(files[..i + 1]) == BlocksForAll(files[..i]) + BlocksFor(|files[i].1|)
    ensures BlocksForAll(files[..i + 1]) <= BlocksForAll(files)
    ensures Listing(files[..i + 1]) == Listing(files[..i]) + Dirent(i + 2, files[i].0)
  {
    assert files[..i + 1][..i] == files[..i];
    MoreFiles(files, i + 1);
  }

  /** Blocks in use once the image holds these files, counted from the start of the disk. */
  function Used(files: seq<(seq<Byte>, seq<Byte>)>): nat {
    NMETA + BlocksFor(16 * (|files| + 2)) + BlocksForAll(files)
  }

  /** What `mkfs` has room for: inodes, block maps and data blocks. */
  predicate Fits(files: seq<(seq<Byte>, seq<Byte>)>) {
    && |files| + 2 <= NINODES
    && (forall k :: 0 <= k < |files| ==> |files[k].1| <= MAXBYTES)
    && Used(files) <= FSSIZE
  }

  /** Appending up to `n` bytes within one file block takes exactly the missing blocks. */
  lemma BlocksNext(d: seq<Block>, ino: seq<Inode>, i: nat, off: nat, n: nat, fbn: nat)
    requires Tight(d, ino, i, off) && fbn == off / BSIZE && 0 < n && off + n <= (fbn + 1) * BSIZE
    ensures BlocksFor(off + n) == BlocksFor(off) + Missing(d, ino, i, fbn)
  {
    hide Ref, FileByte;
    assert Ref(d, ino, i, SlotOf(fbn)) == 0 <==> off == fbn * BSIZE;
    assert (off + n + BSIZE - 1) / BSIZE == fbn + 1;
    if off == fbn * BSIZE {
      assert (off + BSIZE - 1) / BSIZE == fbn;
    } else {
      assert (off + BSIZE - 1) / BSIZE == fbn + 1;
    }
  }

  /** Appending within one freshly mapped block. */
  lemma StaysTight(d: seq<Block>, ino: seq<Inode>, d1: seq<Block>, ino1: seq<Inode>, d2: seq<Block>,
                   i: nat, fbn: nat, x: nat, off: nat, t: seq<Byte>)
    requires MapsTo(d, ino, d1, ino1, i, SlotOf(fbn), x) && x != 0 && SameBytes(d, ino, d1, ino1)
    requires SameRefs(d1, ino1, d2, ino1) && Stored(d1, ino1, d2, ino1, i, off, t)
    requires Tight(d, ino, i, off) && fbn == off / BSIZE < MAXFILE && 0 < |t| && off + |t| <= (fbn + 1) * BSIZE
    ensures Tight(d2, ino1, i, off + |t|)
    ensures forall j: nat, size: nat :: j != i && Tight(d, ino, j, size) ==> Tight(d2, ino1, j, size)
  {
    hide Ref, FileByte;
    forall j: nat, bn: nat
      ensures Ref(d2, ino1, j, SlotOf(bn)) == if j == i && bn == fbn then x else Ref(d, ino, j, SlotOf(bn))
    {
      assert SlotOf(bn) != NDIRECT;
    }
    forall j: nat | j != i
      ensures Ref(d2, ino1, j, NDIRECT) == Ref(d, ino, j, NDIRECT)
    {
    }
    assert Ref(d2, ino1, i, NDIRECT) != 0 <==> NDIRECT * BSIZE < off + |t|;
    forall j: nat, y: nat | j != i || off + |t| <= y
      ensures FileByte(d2, ino1, j, y) == FileByte(d, ino, j, y)
    {
      assert FileByte(d1, ino1, j, y) == FileByte(d, ino, j, y);
    }
    forall bn: nat
      ensures bn == fbn || bn * BSIZE < off <==> bn * BSIZE < off + |t|
    {
    }
  }

  lemma TightSize(d: seq<Block>, own: map<nat, Slot>, freeblock: nat, ino: seq<Inode>, i: nat)
    requires i < |ino| && Tight(d, ino, i, ino[i].size) && Fresh(d, own, freeblock)
    ensures ino[i].size <= MAXBYTES && freeblock <= FSSIZE
  {
  }

  lemma Sized(sb: Super, d: seq<Block>, ino: seq<Inode>, ino': seq<Inode>, own: map<nat, Slot>, i: nat)
    requires Owned(sb, d, ino, own) && i < |ino| == |ino'| && ino' == ino[i := ino[i].(size := ino'[i].size)]
    ensures Owned(sb, d, ino', own) && SameRefs(d, ino, d, ino') && SameBytes(d, ino, d, ino')
  {
    hide Word;
    assert forall j: nat, k: nat :: Ref(d, ino', j, k) == Ref(d, ino, j, k);
  }

  lemma SizedTight(d: seq<Block>, ino: seq<Inode>, ino': seq<Inode>)
    requires SameRefs(d, ino, d, ino') && SameBytes(d, ino, d, ino')
    ensures forall j: nat, size: nat :: Tight(d, ino, j, size) ==> Tight(d, ino', j, size)
  {
    hide Ref, FileByte;
  }

  lemma Blank(d: seq<Block>, ino: seq<Inode>)
    requires |d| == FSSIZE && |ino| == NINODES && (forall i :: 0 <= i < NINODES ==> ino[i] == EMPTY)
    ensures Owned(SB, d, ino, map[]) && forall i: nat :: i < NINODES ==> Tight(d, ino, i, 0)
  {
    assert forall i: nat, k: nat :: Ref(d, ino, i, k) == 0;
  }

  lemma Renamed(sb: Super, d: seq<Block>, ino: seq<Inode>, ino': seq<Inode>, own: map<nat, Slot>, i: nat)
    requires Owned(sb, d, ino, own) && i < |ino| == |ino'| && ino' == ino[i := ino'[i]]
    requires ino[i].addrs == ino'[i].addrs && ino[i].size == ino'[i].size
    ensures Owned(sb, d, ino', own) && SameRefs(d, ino, d, ino') && SameBytes(d, ino, d, ino')
    ensures forall j: nat :: j < |ino| ==> Contents(d, ino', j) == Contents(d, ino, j)
  {
    hide Word;
    assert forall j: nat, k: nat :: Ref(d, ino', j, k) == Ref(d, ino, j, k);
    forall j: nat | j < |ino|
      ensures Contents(d, ino', j) == Contents(d, ino, j)
    {
      assert forall x: nat :: FileByte(d, ino', j, x) == FileByte(d, ino, j, x);
    }
  }

  /** A directory entry: two bytes of inode number and a name cut or padded to DIRSIZ. */
  function Dirent(inum: nat, name: seq<Byte>): (e: seq<Byte>)
    requires inum < 65536
    ensures |e| == 16
  {
    [inum % 256, inum / 256]
    + if |name| >= DIRSIZ then name[..DIRSIZ] else name + seq(DIRSIZ - |name|, _ => 0)
  }

  /** The root directory: itself twice, then the files in order. */
  function Listing(files: seq<(seq<Byte>, seq<Byte>)>): (s: seq<Byte>)
    requires |files| < 65534
    ensures |s| == 16 * (|files| + 2)
  {
    if files == [] then Dirent(ROOTINO, ['.' as int]) + Dirent(ROOTINO, ['.' as int, '.' as int])
    else Listing(files[..|files| - 1]) + Dirent(|files| + 1, files[|files| - 1].0)
  }

  lemma NoBits()
    ensures forall b: nat :: b < BPB ==> !Bit(ZERO_BLOCK, b)
  {
    forall b: nat | b < BPB
      ensures !Bit(ZERO_BLOCK, b)
    {
      ZeroBits(b % 8);
    }
  }

  lemma {:induction false} ZeroBits(k: nat)
    ensures !TestBit(0, k)
  {
    if k > 0 {
      ZeroBits(k - 1);
    }
  }

  function Zeros(n: nat): seq<Byte> { seq(n, _ => 0) }

  /** Rounding the directory's size up pads it with zeros. */
  lemma Padded(d0: seq<Block>, ino0: seq<Inode>, d: seq<Block>, ino: seq<Inode>, s: seq<Byte>, off: nat)
    requires |ino0| == |ino| == NINODES && Contents(d0, ino0, ROOTINO) == s && Tight(d0, ino0, ROOTINO, |s|)
    requires SameBytes(d0, ino0, d, ino0) && SameBytes(d, ino0, d, ino) && ino[ROOTINO].size == off >= |s|
    ensures Contents(d, ino, ROOTINO) == s + Zeros(off - |s|)
  {
    hide FileByte, Ref;
    var c, p := Contents(d, ino, ROOTINO), s + Zeros(off - |s|);
    forall x: nat | x < off
      ensures c[x] == p[x]
    {
      assert FileByte(d, ino, ROOTINO, x) == FileByte(d, ino0, ROOTINO, x) == FileByte(d0, ino0, ROOTINO, x);
      if x < |s| {
        assert Contents(d0, ino0, ROOTINO)[x] == s[x];
      }
    }
  }

  lemma FilesKept(d0: seq<Block>, ino0: seq<Inode>, d: seq<Block>, ino: seq<Inode>)
    requires |ino0| == |ino| && SameBytes(d0, ino0, d, ino0) && SameBytes(d, ino0, d, ino)
    requires forall j :: 0 <= j < |ino| && j != ROOTINO ==> ino[j] == ino0[j]
    ensures forall j: nat :: j < |ino| && j != ROOTINO ==> Contents(d, ino, j) == Contents(d0, ino0, j)
  {
    hide FileByte;
    forall j: nat | j < |ino| && j != ROOTINO
      ensures Contents(d, ino, j) == Contents(d0, ino0, j)
    {
      assert forall x: nat :: FileByte(d, ino, j, x) == FileByte(d, ino0, j, x) == FileByte(d0, ino0, j, x);
    }
  }

  /** Only the root can have a hole: the block the rounding added, if its size was a multiple. */
  lemma Holes(d0: seq<Block>, ino0: seq<Inode>, d: seq<Block>, ino: seq<Inode>, off: nat)
    requires |ino0| == |ino| == NINODES && SameRefs(d0, ino0, d, ino0) && SameRefs(d, ino0, d, ino)
    requires forall i: nat :: i < NINODES ==> Tight(d0, ino0, i, ino0[i].size)
    requires ino == ino0[ROOTINO := ino0[ROOTINO].(size := off)]
    requires off == (ino0[ROOTINO].size / BSIZE + 1) * BSIZE <= MAXBYTES
    ensures AllWhole(d, ino) <==> ino0[ROOTINO].size % BSIZE != 0
    ensures ino0[ROOTINO].size % BSIZE == 0 ==> OneHole(d, ino, ino0[ROOTINO].size / BSIZE)
  {
    hide Ref, FileByte, SlotOf;
    var size := ino0[ROOTINO].size;
    var last := size / BSIZE;
    assert Tight(d0, ino0, ROOTINO, size);
    assert Ref(d, ino, ROOTINO, SlotOf(last)) == Ref(d, ino0, ROOTINO, SlotOf(last)) == Ref(d0, ino0, ROOTINO,
        SlotOf(last));
    forall j: nat, bn: nat | j < |ino| && bn * BSIZE < ino[j].size
      ensures Ref(d, ino, j, SlotOf(bn)) == 0 <==> j == ROOTINO && bn == last && size % BSIZE == 0
    {
      assert Tight(d0, ino0, j, ino0[j].size);
      assert Ref(d, ino, j, SlotOf(bn)) == Ref(d, ino0, j, SlotOf(bn)) == Ref(d0, ino0, j, SlotOf(bn));
    }
    if size % BSIZE == 0 {
      assert last * BSIZE == size < off;
      assert !NoHoles(d, ino, ROOTINO);
    }
  }

  /** Every block below the size of a file exists, except block `q` of the root directory. */
  ghost predicate OneHole(d: seq<Block>, ino: seq<Inode>, q: nat) {
    && ROOTINO < |ino| && q * BSIZE < ino[ROOTINO].size
    && forall j: nat, bn: nat :: j < |ino| && bn * BSIZE < ino[j].size ==>
         (Ref(d, ino, j, SlotOf(bn)) == 0 <==> j == ROOTINO && bn == q)
  }

  class Image {
    var disk: seq<Block>
    var inodes: seq<Inode>
    var freeblock: nat
    var freeinode: nat
    ghost var own: map<nat, Slot>

    ghost predicate Valid()
      reads this
    {
      && Fresh(disk, own, freeblock) && Owned(SB, disk, inodes, own)
      && |inodes| == NINODES && 1 <= freeinode <= NINODES
      && (forall i: nat :: i < NINODES ==> Tight(disk, inodes, i, inodes[i].size))
      && (forall i: nat :: i < NINODES && (i == 0 || freeinode <= i) ==> inodes[i] == EMPTY)
      && (forall i: nat :: 1 <= i < freeinode ==> inodes[i].kind != 0)
    }

    /** Next block for slot `k` of the inode being appended to, or out of space. */
    method Fill(inum: nat, din: Inode, k: nat) returns (ok: bool, din': Inode)
      requires inum < |inodes| && k <= NDIRECT && Fresh(disk, own, freeblock)
      requires Owned(SB, disk, inodes[inum := din], own)
      modifies this`freeblock, this`own
      ensures ok ==> Fresh(disk, own, freeblock) && Owned(SB, disk, inodes[inum := din'], own)
      ensures ok ==> RefAdded(disk, inodes[inum := din], disk, inodes[inum := din'], inum, k, din'.addrs[k])
      ensures ok ==> SameBytes(disk, inodes[inum := din], disk, inodes[inum := din'])
      ensures ok ==> din'.addrs[k] != 0 && din' == din.(addrs := din'.addrs)
      ensures ok ==> freeblock <= FSSIZE && freeblock == old(freeblock) + if din.addrs[k] == 0 then 1 else 0
      ensures !ok ==> din.addrs[k] == 0 && old(freeblock) >= FSSIZE
    {
      hide Word, FileByte;
      din', ok := din, true;
      if din.addrs[k] == 0 {
        if freeblock >= FSSIZE {
          return false, din;
        }
        ghost var cur := inodes[inum := din];
        din' := din.(addrs := din.addrs[k := freeblock]);
        assert disk[freeblock] == ZERO_BLOCK;
        Attach(SB, disk, cur, own, inum, k, freeblock);
        assert cur[inum := cur[inum].(addrs := cur[inum].addrs[k := freeblock])] == inodes[inum := din'];
        own := own[freeblock := Slot(inum, k)];
        freeblock := freeblock + 1;
      }
    }

    /** The indirect entry, likewise; the indirect block is written back at once. */
    method FillEntry(inum: nat, din: Inode, k: nat) returns (ok: bool, x: nat)
      requires inum < |inodes| && k < NINDIRECT && Fresh(disk, own, freeblock)
      requires Owned(SB, disk, inodes[inum := din], own)
      requires din.addrs[NDIRECT] != 0
      modifies this`freeblock, this`own, this`disk
      ensures ok ==> Fresh(disk, own, freeblock) && Owned(SB, disk, inodes[inum := din], own)
      ensures ok ==>
        && x != 0 && RefAdded(old(disk), inodes[inum := din], disk, inodes[inum := din], inum, NDIRECT + 1 + k, x)
      ensures ok ==> SameBytes(old(disk), inodes[inum := din], disk, inodes[inum := din])
      ensures var was := Ref(old(disk), inodes[inum := din], inum, NDIRECT + 1 + k);
              if ok then freeblock <= FSSIZE && freeblock == old(freeblock) + (if was == 0 then 1 else 0)
              else was == 0 && old(freeblock) >= FSSIZE
    {
      hide Word, SetWord, FileByte;
      ghost var cur := inodes[inum := din];
      var a := din.addrs[NDIRECT];
      InRange(SB, disk, cur, own, inum, NDIRECT);
      x, ok := Word(disk[a], k), true;
      if x == 0 {
        if freeblock >= FSSIZE {
          return false, 0;
        }
        x := freeblock;
        assert disk[freeblock] == ZERO_BLOCK;
        AttachIndirect(SB, disk, cur, own, inum, NDIRECT + 1 + k, freeblock);
        disk := disk[a := SetWord(disk[a], k, freeblock)];
        own := own[freeblock := Slot(inum, NDIRECT + 1 + k)];
        freeblock := freeblock + 1;
      }
    }

    /** The block for file block `fbn`. */
    method MapBlock(inum: nat, din: Inode, fbn: nat) returns (ok: bool, din': Inode, x: nat)
      requires inum < |inodes| && fbn < MAXFILE && Fresh(disk, own, freeblock)
      requires Owned(SB, disk, inodes[inum := din], own)
      modifies this`freeblock, this`own, this`disk
      ensures ok ==>
        && Fresh(disk, own, freeblock) && Owned(SB, disk, inodes[inum := din'], own)
        && din' == din.(addrs := din'.addrs)
      ensures ok ==> x == Ref(disk, inodes[inum := din'], inum, SlotOf(fbn))
      ensures ok ==> x != 0 && MapsTo(old(disk), inodes[inum := din], disk, inodes[inum := din'], inum, SlotOf(fbn), x)
      ensures ok ==> SameBytes(old(disk), inodes[inum := din], disk, inodes[inum := din'])
      ensures var n := Missing(old(disk), inodes[inum := din], inum, fbn);
              if ok then freeblock == old(freeblock) + n <= FSSIZE else old(freeblock) + n > FSSIZE
    {
      hide Ref, FileByte, Owned, Fresh;
      x := 0;
      DirectRef(disk, inodes[inum := din], inum, if fbn < NDIRECT then fbn else NDIRECT);
      if fbn < NDIRECT {
        ok, din' := Fill(inum, din, fbn);
        x := din'.addrs[fbn];
      } else {
        ok, din' := Fill(inum, din, NDIRECT);
        if ok {
          ok, x := FillEntry(inum, din', fbn - NDIRECT);
        }
      }
    }

    /** Copy `t` into the block `x` that file block `bn` is mapped to. */
    method Store(inum: nat, ghost cur: seq<Inode>, ghost bn: nat, x: nat, pos: nat, t: seq<Byte>)
      requires Fresh(disk, own, freeblock) && Owned(SB, disk, cur, own) && inum < |cur| && bn < MAXFILE
      requires Ref(disk, cur, inum, SlotOf(bn)) == x != 0 && pos + |t| <= BSIZE
      modifies this`disk
      ensures Fresh(disk, own, freeblock) && Owned(SB, disk, cur, own) && SameRefs(old(disk), cur, disk, cur)
      ensures Stored(old(disk), cur, disk, cur, inum, bn * BSIZE + pos, t)
    {
      hide Ref, FileByte;
      InRange(SB, disk, cur, own, inum, SlotOf(bn));
      var data: Block := disk[x][..pos] + t + disk[x][pos + |t|..];
      BlockBytes(disk, cur, inum, bn, x);
      StoreData(SB, disk, cur, own, x, data, inum, bn);
      ghost var d0 := disk;
      disk := disk[x := data];
      ChunkStored(d0, disk, cur, inum, bn, x, pos, t, data);
    }

    /** `iappend`: the file grows by exactly these bytes. It gives up where the original's assertion on
        the file size fails or its block counter leaves the disk. */
    method Iappend(inum: nat, p: seq<Byte>) returns (ok: bool)
      requires Valid() && 1 <= inum < freeinode
      modifies this`disk, this`inodes, this`freeblock, this`own
      ensures ok ==>
        && Valid()
        && inodes == old(inodes)[inum :=
            old(inodes)[inum].(size := old(inodes)[inum].size + |p|, addrs := inodes[inum].addrs)]
      ensures ok ==> Stored(old(disk), old(inodes), disk, inodes, inum, old(inodes)[inum].size, p)
      ensures var size := old(inodes)[inum].size; var after := old(freeblock) + BlocksFor(size + |p|) - BlocksFor(size);
              && (ok <==> size + |p| <= MAXBYTES && after <= FSSIZE)
              && (ok ==> freeblock == after)
    {
      hide Ref, FileByte, Owned, Fresh, Tight, BlocksFor, Missing, MapsTo, Stored;
      TightSize(disk, own, freeblock, inodes, inum);
      var din := inodes[inum];
      var off := din.size;
      ghost var d0, ino0, off0 := disk, inodes, off;
      var n := 0;
      StoredNothing(disk, inodes, inum, off);
      assert inodes[inum := din] == inodes;
      assert p[..0] == [];
      while n < |p|
        invariant 0 <= n <= |p| && off == off0 + n && inodes == ino0 && din == ino0[inum].(addrs := din.addrs)
        invariant Fresh(disk, own, freeblock) && Owned(SB, disk, inodes[inum := din], own)
        invariant Tight(disk, inodes[inum := din], inum, off)
        invariant forall i: nat :: i < NINODES && i != inum ==> Tight(disk, inodes[inum := din], i, inodes[i].size)
        invariant Stored(d0, ino0, disk, inodes[inum := din], inum, off0, p[..n])
        invariant freeblock == old(freeblock) + BlocksFor(off) - BlocksFor(off0) && freeblock <= FSSIZE
        invariant off <= MAXBYTES
      {
        var fbn := off / BSIZE;
        if fbn >= MAXFILE {
          return false;
        }
        var x, din';
        ghost var d1, cur1 := disk, inodes[inum := din];
        ok, din', x := MapBlock(inum, din, fbn);
        var n1 := if |p| - n < (fbn + 1) * BSIZE - off then |p| - n else (fbn + 1) * BSIZE - off;
        BlocksNext(d1, cur1, inum, off, n1, fbn);
        BlocksGrow(off + n1, off0 + |p|);
        if !ok {
          return;
        }
        din := din';
        ghost var d2, cur := disk, inodes[inum := din];
        StoredGrew(d0, ino0, d1, cur1, d2, cur, inum, off0, p[..n]);
        Store(inum, cur, fbn, x, off - fbn * BSIZE, p[n..n + n1]);
        StoredAgain(d0, ino0, d2, cur, disk, cur, inum, off0, p, n, n1);
        StaysTight(d1, cur1, d2, cur, disk, inum, fbn, x, off, p[n..n + n1]);
        n := n + n1;
        off := off + n1;
      }
      assert p[..n] == p;
      ghost var cur := inodes[inum := din];
      din := din.(size := off);
      inodes := inodes[inum := din];
      Sized(SB, disk, cur, inodes, own, inum);
      SizedTight(disk, cur, inodes);
      SizeUnseen(d0, ino0, disk, cur, inodes, inum, off0, p);
      ok := true;
    }

    /** A blank image. */
    constructor ()
      ensures Valid() && freeinode == 1 && freeblock == NMETA
    {
      disk := seq(FSSIZE, _ => ZERO_BLOCK);
      inodes := seq(NINODES, _ => EMPTY);
      freeblock, freeinode, own := NMETA, 1, map[];
      new;
      Blank(disk, inodes);
    }

    /** `ialloc`: inodes are handed out in order. */
    method Ialloc(kind: Word16) returns (ok: bool, inum: nat)
      requires Valid() && kind != 0
      modifies this`inodes, this`freeinode
      ensures !ok <==> old(freeinode) == NINODES
      ensures ok ==> Valid() && inum == old(freeinode) && freeinode == inum + 1
      ensures ok ==> inodes == old(inodes)[inum := Inode(kind, 1, 0, NO_ADDRS)]
      ensures ok ==> forall j: nat :: j < NINODES ==> Contents(disk, inodes, j) == old(Contents(disk, inodes, j))
    {
      hide FileByte, Tight, Fresh;
      inum := freeinode;
      if inum >= NINODES {
        return false, inum;
      }
      ghost var ino0 := inodes;
      inodes := inodes[inum := Inode(kind, 1, 0, NO_ADDRS)];
      freeinode := inum + 1;
      Renamed(SB, disk, ino0, inodes, own, inum);
      SizedTight(disk, ino0, inodes);
      ok := true;
    }

    /** `iappend` in terms of contents. */
    method Append(inum: nat, p: seq<Byte>) returns (ok: bool)
      requires Valid() && 1 <= inum < freeinode
      modifies this`disk, this`inodes, this`freeblock, this`own
      ensures ok ==>
        && Valid()
        && inodes == old(inodes)[inum :=
            old(inodes)[inum].(size := old(inodes)[inum].size + |p|, addrs := inodes[inum].addrs)]
      ensures ok ==> Contents(disk, inodes, inum) == old(Contents(disk, inodes, inum)) + p
      ensures ok ==>
        forall j: nat :: j < NINODES && j != inum ==> Contents(disk, inodes, j) == old(Contents(disk, inodes, j))
      ensures var size := |old(Contents(disk, inodes, inum))|; var after := old(freeblock)
          + BlocksFor(size + |p|) - BlocksFor(size);
              && (ok <==> size + |p| <= MAXBYTES && after <= FSSIZE)
              && (ok ==> freeblock == after)
    {
      hide FileByte, Tight, Fresh, Owned;
      ok := Iappend(inum, p);
      if ok {
        Spliced(old(disk), old(inodes), disk, inodes, inum, old(inodes)[inum].size, p);
      }
    }

    /** One file of the command line: its inode, its directory entry, its bytes a block at a time. */
    method AddFile(name: seq<Byte>, data: seq<Byte>) returns (ok: bool)
      requires Valid() && freeinode >= 2
      modifies this
      ensures ok ==> Valid() && freeinode == old(freeinode) + 1
      ensures ok ==>
        Contents(disk, inodes, ROOTINO) == old(Contents(disk, inodes, ROOTINO)) + Dirent(old(freeinode), name)
      ensures ok ==> Contents(disk, inodes, old(freeinode)) == data && inodes[old(freeinode)].kind == T_FILE
      ensures ok ==>
        forall j: nat :: 2 <= j < old(freeinode) ==> Contents(disk, inodes, j) == old(Contents(disk, inodes, j))
      ensures ok ==> forall j: nat :: j < old(freeinode) ==> inodes[j].kind == old(inodes)[j].kind
      ensures var size := |old(Contents(disk, inodes, ROOTINO))|;
              var after := old(freeblock) + BlocksFor(size + 16) - BlocksFor(size) + BlocksFor(|data|);
              && (ok <==> old(freeinode) < NINODES && size + 16 <= MAXBYTES && |data| <= MAXBYTES && after <= FSSIZE)
              && (ok ==> freeblock == after)
    {
      hide FileByte, Tight, Fresh, Owned, Ref;
      var inum;
      ok, inum := Ialloc(T_FILE);
      if !ok {
        return;
      }
      ok := Append(ROOTINO, Dirent(inum, name));
      if !ok {
        return;
      }
      var n := 0;
      ghost var f1 := freeblock;
      BlocksGrow(0, |data|);
      while n < |data|
        invariant 0 <= n <= |data| && Valid() && freeinode == inum + 1
        invariant Contents(disk, inodes, ROOTINO) == old(Contents(disk, inodes, ROOTINO)) + Dirent(inum, name)
        invariant Contents(disk, inodes, inum) == data[..n] && inodes[inum].kind == T_FILE
        invariant forall j: nat :: 2 <= j < inum ==> Contents(disk, inodes, j) == old(Contents(disk, inodes, j))
        invariant forall j: nat :: j < inum ==> inodes[j].kind == old(inodes)[j].kind
        invariant freeblock == f1 + BlocksFor(n) && freeblock <= FSSIZE && n <= MAXBYTES
      {
        var cc := if |data| - n < BSIZE then |data| - n else BSIZE;
        BlocksGrow(n + cc, |data|);
        ok := Append(inum, data[n..n + cc]);
        if !ok {
          return;
        }
        assert data[..n + cc] == data[..n] + data[n..n + cc];
        n := n + cc;
      }
    }

    /** The root directory with its first two entries. */
    method MakeRoot() returns (ok: bool)
      requires Valid() && freeinode == 1 && freeblock == NMETA
      modifies this
      ensures ok ==>
        && Valid() && freeinode == 2 && inodes[ROOTINO].kind == T_DIR && Contents(disk, inodes, ROOTINO) == Listing([])
      ensures ok <==> old(freeblock) + BlocksFor(32) <= FSSIZE
      ensures ok ==> freeblock == old(freeblock) + BlocksFor(32)
    {
      hide Ref, FileByte, Tight, Fresh, Owned, Dirent;
      var root;
      ok, root := Ialloc(T_DIR);
      if !ok {
        return;
      }
      ok := Append(ROOTINO, Dirent(ROOTINO, ['.' as int]));
      if !ok {
        return;
      }
      ok := Append(ROOTINO, Dirent(ROOTINO, ['.' as int, '.' as int]));
    }

    /** The loop of `main` over the files named on the command line. */
    method AddAll(files: seq<(seq<Byte>, seq<Byte>)>) returns (ok: bool)
      requires Valid() && freeinode == 1 && freeblock == NMETA
      modifies this
      ensures ok ==> Valid() && freeinode == |files| + 2 && inodes[ROOTINO].kind == T_DIR
      ensures ok ==> Contents(disk, inodes, ROOTINO) == Listing(files)
      ensures ok ==> HasFiles(disk, inodes, files)
      ensures ok ==> freeblock == Used(files)
      ensures ok <==> Fits(files)
    {
      hide Ref, FileByte, Tight, Fresh, Owned, Dirent, BitsOk, Word, BlocksFor, BlocksForAll, Listing;
      BlocksGrow(32, 16 * (|files| + 2));
      NoFiles();
      ok := MakeRoot();
      if !ok {
        return;
      }
      assert files[..0] == [];
      var i := 0;
      while i < |files|
        invariant 0 <= i <= |files| && Valid() && freeinode == i + 2 && inodes[ROOTINO].kind == T_DIR
        invariant Contents(disk, inodes, ROOTINO) == Listing(files[..i])
        invariant freeblock == NMETA + BlocksFor(16 * (i + 2)) + BlocksForAll(files[..i]) && freeblock <= FSSIZE
        invariant forall k :: 0 <= k < i ==> |files[k].1| <= MAXBYTES
        invariant HasFiles(disk, inodes, files[..i])
      {
        BlocksGrow(16 * (i + 3), 16 * (|files| + 2));
        NextFile(files, i);
        ok := AddFile(files[i].0, files[i].1);
        if !ok {
          return;
        }
        i := i + 1;
      }
      assert files[..i] == files;
    }

    /** `balloc`: mark the first `used` blocks in the bitmap. */
    method Balloc(used: nat)
      requires Valid() && used == freeblock
      modifies this`disk
      ensures |disk| == FSSIZE && Owned(SB, disk, inodes, own) && BitsOk(SB, disk, own.Keys)
      ensures SameRefs(old(disk), inodes, disk, inodes) && SameBytes(old(disk), inodes, disk, inodes)
    {
      hide Ref, FileByte, Bit, SetBit;
      var buf: Block := ZERO_BLOCK;
      var i := 0;
      NoBits();
      while i < used
        invariant 0 <= i <= used && forall b: nat :: b < BPB ==> (Bit(buf, b) <==> b < i)
      {
        forall b: nat | b < BPB
          ensures Bit(SetBit(buf, i, true), b) <==> b < i + 1
        {
          BitOfSet(buf, i, true, b);
        }
        buf := SetBit(buf, i, true);
        i := i + 1;
      }
      StoreElsewhere(SB, disk, inodes, own, SB.bmapstart, buf);
      disk := disk[SB.bmapstart := buf];
      forall b: nat | b < SB.size
        ensures BitOf(SB, disk, b) <==> b < SB.datastart || b in own.Keys
      {
        assert b / BPB == 0 && b % BPB == b;
      }
    }

    /** `mkfs` as a whole. It succeeds exactly when there is room for the files. The image is a consistent
        file system with exactly these files; it has no hole exactly when the directory does not fill its
        last block. */
    method Build(files: seq<(seq<Byte>, seq<Byte>)>) returns (ok: bool)
      requires Valid() && freeinode == 1 && freeblock == NMETA
      modifies this
      ensures ok <==> Fits(files)
      ensures ok ==> FsOk(SB, disk, inodes, own) && SizesOk(inodes) && FreeOnesEmpty(inodes) && |inodes| == NINODES
      ensures ok ==> Holds(disk, inodes, files)
      ensures ok ==> (AllWhole(disk, inodes) <==> (|files| + 2) % 64 != 0)
      ensures ok ==> inodes[ROOTINO].size == ((|files| + 2) / 64 + 1) * BSIZE
      ensures ok && (|files| + 2) % 64 == 0 ==> OneHole(disk, inodes, (|files| + 2) / 64)
      ensures ok ==> forall b: nat :: b in own <==> NMETA <= b < Used(files)
    {
      hide Ref, FileByte, Owned, BitsOk, Fresh, Dirent, Listing, Contents, Fits, AllWhole, SameRefs, SameBytes, SlotOf,
           Holds, HasFiles, OneHole, Used;
      ok := AddAll(files);
      if !ok {
        return;
      }
      InUse(disk, own, freeblock);
      ghost var d0, ino0 := disk, inodes;
      var din := inodes[ROOTINO];
      ContentsSize(disk, inodes, ROOTINO);
      Balloc(freeblock);
      var off := (din.size / BSIZE + 1) * BSIZE;
      inodes := inodes[ROOTINO := din.(size := off)];
      ghost var d1 := disk;
      Sized(SB, d1, ino0, inodes, own, ROOTINO);
      HoldsFiles(d0, ino0, d1, inodes, files, off);
      Holes(d0, ino0, d1, inodes, off);
    }
  }

  lemma InUse(d: seq<Block>, own: map<nat, Slot>, freeblock: nat)
    requires Fresh(d, own, freeblock)
    ensures forall b: nat :: b in own <==> NMETA <= b < freeblock
  {
  }

  lemma HoldsFiles(d0: seq<Block>, ino0: seq<Inode>, d: seq<Block>, ino: seq<Inode>, files: seq<(seq<Byte>, seq<Byte>)>,
                   off: nat)
    requires |ino0| == |ino| == NINODES && |files| + 2 <= NINODES && ino == ino0[ROOTINO := ino0[ROOTINO].(size := off)]
    requires SameBytes(d0, ino0, d, ino0) && SameBytes(d, ino0, d, ino) && ino0[ROOTINO].size <= off
    requires Contents(d0, ino0, ROOTINO) == Listing(files) && Tight(d0, ino0, ROOTINO, ino0[ROOTINO].size)
    requires ino0[ROOTINO].kind == T_DIR
    requires HasFiles(d0, ino0, files)
    ensures Holds(d, ino, files)
  {
    hide FileByte, Tight, SameBytes, Listing, Contents;
    ContentsSize(d0, ino0, ROOTINO);
    Padded(d0, ino0, d, ino, Listing(files), off);
    FilesKept(d0, ino0, d, ino);
  }

  /** File `k` is inode `k + 2`. */
  ghost predicate HasFiles(d: seq<Block>, ino: seq<Inode>, files: seq<(seq<Byte>, seq<Byte>)>) {
    |files| + 2 <= |ino| && forall j: nat :: 2 <= j < |files| + 2 ==>
      Contents(d, ino, j) == files[j - 2].1 && ino[j].kind == T_FILE
  }

  /** The files are in the inodes from 2 on, and the root directory lists them, padded with zeros. */
  ghost predicate Holds(d: seq<Block>, ino: seq<Inode>, files: seq<(seq<Byte>, seq<Byte>)>)
    requires |ino| == NINODES
  {
    && |files| + 2 <= NINODES
    && HasFiles(d, ino, files)
    && ino[ROOTINO].kind == T_DIR && |Listing(files)| <= ino[ROOTINO].size
    && Contents(d, ino, ROOTINO) == Listing(files) + Zeros(ino[ROOTINO].size - |Listing(files)|)
  }

  /** A fresh image of `files`: which blocks are in use, and the one hole it can have. */
  ghost predicate Booted(files: seq<(seq<Byte>, seq<Byte>)>, h: Snapshot) {
    && |h.ino| == NINODES && Holds(h.disk, h.ino, files)
    && (forall b: nat :: b in h.own <==> NMETA <= b < Used(files))
    && h.ino[ROOTINO].size == ((|files| + 2) / 64 + 1) * BSIZE
    && if (|files| + 2) % 64 == 0 then OneHole(h.disk, h.ino, (|files| + 2) / 64) else AllWhole(h.disk, h.ino)
  }

  /** From nothing to a running file system: build an image of any files there is room for, mount it and
      run any operations. The flat files follow the operations step by step, up to a read outside every
      transaction that comes to a hole; with no hole in the image nothing panics. */
  method Boot(files: seq<(seq<Byte>, seq<Byte>)>, ops: seq<Op>)
    returns (ok: bool, panicked: bool, fs: Fs?, done: nat, answers: seq<Answer>, ghost hist: seq<Snapshot>,
             ghost txns: seq<seq<I.Write>>)
    requires forall k :: 0 <= k < |ops| && ops[k].OpWrite? ==> |ops[k].src| < 0x1_0000_0000
    ensures ok <==> Fits(files)
    ensures panicked ==> ok && (|files| + 2) % 64 == 0
    ensures ok ==> fs != null && fresh(fs) && fs.AtRest() && ((|files| + 2) % 64 != 0 ==> fs.Whole())
    ensures ok ==> done <= |ops| && (panicked <==> done < |ops|)
    ensures ok ==> |answers| == done && |hist| == done + 1 && Booted(files, hist[0]) && hist[done] == fs.Now()
    ensures ok ==> forall k :: 0 <= k < done ==>
      !hist[k].Panics(SB, ops[k]) && hist[k].Steps(SB, ops[k], answers[k], hist[k + 1])
    ensures panicked ==> hist[done].Panics(SB, ops[done])
    ensures ok ==> |txns| == done && forall k :: 0 <= k < done ==>
      I.Written(hist[k].Image(SB), txns[k]) == hist[k + 1].Image(SB)
    ensures ok ==> forall k :: 0 <= k <= done ==> |hist[k].ino| == NINODES
    ensures ok && (|files| + 2) % 64 != 0 ==>
      forall k :: 0 <= k <= done ==> hist[k].Sound(SB) && AllWhole(hist[k].disk, hist[k].ino)
    ensures ok && (forall k :: 0 <= k < |ops| ==> !ops[k].MayFill()) ==>
      forall k :: 0 <= k <= done ==> hist[k].Sound(SB)
  {
    hide FsOk, FileByte, Contents, AllWhole, Snapshot.Steps, Listing, Fits, Behind, Used, OneHole, Holds,
         Snapshot.Panics,
         Snapshot.Image, I.Written;
    var image := new Image();
    ok := image.Build(files);
    panicked, fs, done, answers, hist, txns := false, null, 0, [], [], [];
    if !ok {
      return;
    }
    var mounted := new Fs(SB, image.disk, image.inodes, image.own);
    fs := mounted;
    panicked, done, answers, hist, txns := mounted.Run(ops);
  }

  /** The files a fresh image starts from. */
  lemma BootedFiles(files: seq<(seq<Byte>, seq<Byte>)>, h: Snapshot, j: nat)
    requires Booted(files, h) && 2 <= j < |files| + 2
    ensures j < |h.Files()| && h.Files()[j] == File(T_FILE, files[j - 2].1)
  {
    hide Contents, OneHole, AllWhole, Listing, Used;
  }

  /** A read meets the one hole exactly when it gets to that block of the root directory. */
  lemma MeetsTheHole(d: seq<Block>, ino: seq<Inode>, q: nat, i: nat, off: nat, m: nat, good: nat)
    requires OneHole(d, ino, q) && i < |ino| && off + m <= ino[i].size
    ensures MeetsHole(d, ino, i, off, m, good) <==>
      i == ROOTINO && m > 0 && off / BSIZE <= q && q * BSIZE < off + m && q * BSIZE <= off + good
  {
    hide Ref, SlotOf;
    assert i == ROOTINO ==> Ref(d, ino, i, SlotOf(q)) == 0;
  }

  lemma FullWhenUsed(files: seq<(seq<Byte>, seq<Byte>)>, own: map<nat, Slot>)
    requires (forall b: nat :: b in own <==> NMETA <= b < Used(files)) && Used(files) <= FSSIZE
    ensures Full(SB, own) <==> Used(files) == FSSIZE
  {
    hide Used;
    if Used(files) < FSSIZE {
      assert Used(files) !in own && NMETA <= Used(files) by {
        UsedAtLeast(files);
      }
    }
  }

  lemma UsedAtLeast(files: seq<(seq<Byte>, seq<Byte>)>)
    ensures NMETA <= Used(files)
  {
  }

  /** The first operation on a fresh image panics exactly when it reads, outside every transaction, the
      block of the root directory that `mkfs` counted in its size but did not write, and a block is left
      to put there. */
  lemma FirstReadPanics(files: seq<(seq<Byte>, seq<Byte>)>, h: Snapshot, op: Op)
    requires Booted(files, h) && Used(files) <= FSSIZE
    ensures h.Panics(SB, op) <==>
      && (|files| + 2) % 64 == 0 && Used(files) < FSSIZE
      && op.OpRead? && !op.inOp && op.i == ROOTINO
      && var q, m := (|files| + 2) / 64, Span(((|files| + 2) / 64 + 1) * BSIZE, op.off, op.n);
         m > 0 && op.off / BSIZE <= q && q * BSIZE < op.off + m && q * BSIZE <= op.off + op.good
  {
    hide Contents, Listing, Used, Ref, HasFiles, MeetsHole, OneHole, Full;
    if op.OpRead? && op.i < |h.ino| {
      FullWhenUsed(files, h.own);
      if (|files| + 2) % 64 == 0 {
        var size := h.ino[op.i].size;
        var m := Span(size, op.off, op.n);
        if m > 0 {
          MeetsTheHole(h.disk, h.ino, (|files| + 2) / 64, op.i, op.off, m, op.good);
        } else {
          NothingMeets(h.disk, h.ino, op.i, op.off, op.good);
        }
      } else {
        WholeReads(SB, h.disk, h.ino, h.own, op.i, op.off, op.n, op.good);
      }
    }
  }

  lemma {:induction false} EmptyFiles(files: seq<(seq<Byte>, seq<Byte>)>)
    requires forall k :: 0 <= k < |files| ==> files[k].1 == []
    ensures BlocksForAll(files) == 0
  {
    if files != [] {
      EmptyFiles(files[..|files| - 1]);
    }
  }

  /** Sixty-two empty files fill the root directory's one block, so its size is rounded up to a second
      block that does not exist. */
  method HoledImage() returns (ok: bool, image: Image)
    ensures ok && |image.inodes| == NINODES && FsOk(SB, image.disk, image.inodes, image.own)
    ensures image.inodes[ROOTINO].size == 2 * BSIZE && Ref(image.disk, image.inodes, ROOTINO, SlotOf(1)) == 0
    ensures !AllWhole(image.disk, image.inodes)
  {
    hide FsOk, AllWhole, Holds, Ref;
    var files := seq(62, _ => ([], []));
    EmptyFiles(files);
    image := new Image();
    ok := image.Build(files);
  }

  /** Booted with these sixty-two files, reading the directory entry after the last one panics when no
      operation is outstanding. */
  method HoledBoot() returns (ok: bool, panicked: bool)
    ensures ok && panicked
  {
    hide FsOk, AllWhole, Holds, Ref, OneHole, Snapshot.Panics;
    var files := seq(62, _ => ([], []));
    EmptyFiles(files);
    var fs, done, answers;
    ghost var hist, txns;
    var ops := [OpRead(ROOTINO, BSIZE, 16, 16, false)];
    ok, panicked, fs, done, answers, hist, txns := Boot(files, ops);
    FirstReadPanics(files, hist[0], ops[0]);
  }
}
