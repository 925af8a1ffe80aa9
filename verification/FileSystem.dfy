/** The block and inode layer of `fs.c` on top of a store of blocks: `bread` returns the block last
    written, which is what the log and buffer cache guarantee. */
module FileSystem {
  import Basics
  import opened FsFormat
  import opened FsLayout
  import I = FsImage

  /** Only block addresses may differ. */
  ghost predicate SameShape(ino: seq<Inode>, ino': seq<Inode>) {
    |ino'| == |ino| && forall i :: 0 <= i < |ino| ==> ino'[i] == ino[i].(addrs := ino'[i].addrs)
  }

  /** Every block below the size exists. */
  ghost predicate NoHoles(d: seq<Block>, ino: seq<Inode>, i: nat)
    requires i < |ino|
  {
    ino[i].size <= MAXBYTES && forall bn: nat :: bn * BSIZE < ino[i].size ==> Ref(d, ino, i, SlotOf(bn)) != 0
  }

  ghost predicate AllWhole(d: seq<Block>, ino: seq<Inode>) {
    forall i :: 0 <= i < |ino| ==> NoHoles(d, ino, i)
  }

  /** No file is larger than its block map can hold. */
  ghost predicate SizesOk(ino: seq<Inode>) {
    forall i :: 0 <= i < |ino| ==> ino[i].size <= MAXBYTES
  }

  /** The inode table on disk lags behind memory at most by blocks that filled holes. */
  ghost predicate Behind(dinodes: seq<Inode>, ino: seq<Inode>) {
    SameShape(ino, dinodes) && forall i, k :: 0 <= i < |ino| && 0 <= k <= NDIRECT ==>
      dinodes[i].addrs[k] == 0 || dinodes[i].addrs[k] == ino[i].addrs[k]
  }

  ghost predicate FsOk(sb: Super, d: seq<Block>, ino: seq<Inode>, own: map<nat, Slot>) {
    SuperOk(sb, |d|, |ino|) && Owned(sb, d, ino, own) && BitsOk(sb, d, own.Keys)
  }

  /** Blocks were at most added: no reference, byte, size or kind of any file changed. */
  ghost predicate OnlyGrew(d: seq<Block>, ino: seq<Inode>, own: map<nat, Slot>, d': seq<Block>, ino': seq<Inode>,
                           own': map<nat, Slot>) {
    && |d'| == |d| && SameShape(ino, ino') && KeptRefs(d, ino, d', ino') && SameBytes(d, ino, d', ino')
    && forall b :: b in own ==> b in own' && own'[b] == own[b]
  }

  lemma GrewRefl(d: seq<Block>, ino: seq<Inode>, own: map<nat, Slot>)
    ensures OnlyGrew(d, ino, own, d, ino, own)
  {
  }

  lemma GrewFacts(d: seq<Block>, ino: seq<Inode>, own: map<nat, Slot>, d': seq<Block>, ino': seq<Inode>,
                  own': map<nat, Slot>)
    requires OnlyGrew(d, ino, own, d', ino', own')
    ensures |ino'| == |ino| && (forall i :: 0 <= i < |ino| ==> ino'[i].size == ino[i].size)
    ensures SameBytes(d, ino, d', ino')
  {
  }

  lemma GrewTrans(d: seq<Block>, ino: seq<Inode>, own: map<nat, Slot>, d1: seq<Block>, ino1: seq<Inode>,
                  own1: map<nat, Slot>,
                  d2: seq<Block>, ino2: seq<Inode>, own2: map<nat, Slot>)
    requires OnlyGrew(d, ino, own, d1, ino1, own1) && OnlyGrew(d1, ino1, own1, d2, ino2, own2)
    ensures OnlyGrew(d, ino, own, d2, ino2, own2)
  {
    hide Ref, FileByte;
  }

  ghost predicate Full(sb: Super, own: map<nat, Slot>) {
    forall x: nat :: sb.datastart <= x < sb.size ==> x in own
  }

  ghost function Bitmap(sb: Super): set<nat> {
    set b: nat | b < sb.size :: BitmapBlock(sb, b)
  }

  /** A block number, if there is one. */
  ghost function Some(r: nat): set<nat> { if r != 0 then {r} else {} }

  /** The blocks of file `i` from file block `lo` to `hi`. */
  ghost function DataRefs(d: seq<Block>, ino: seq<Inode>, i: nat, lo: nat, hi: nat): set<nat> {
    set bn: nat | lo <= bn <= hi && Ref(d, ino, i, SlotOf(bn)) != 0 :: Ref(d, ino, i, SlotOf(bn))
  }

  ghost function InodeBlock(sb: Super, i: nat): nat { sb.inodestart + i / IPB }

  lemma InBitmap(sb: Super, b: nat)
    requires b < sb.size
    ensures BitmapBlock(sb, b) in Bitmap(sb)
  {
  }

  lemma InRange(sb: Super, d: seq<Block>, ino: seq<Inode>, own: map<nat, Slot>, i: nat, k: nat)
    requires Owned(sb, d, ino, own) && Ref(d, ino, i, k) != 0
    ensures sb.datastart <= Ref(d, ino, i, k) < sb.size
    ensures Ref(d, ino, i, k) in own && own[Ref(d, ino, i, k)] == Slot(i, k)
  {
  }

  lemma FreedNone(own: map<nat, Slot>, i: nat)
    ensures Freed(own, i, 0) == {} && own.Keys - Freed(own, i, 0) == own.Keys
  {
  }

  /** Without an indirect block there is nothing left to free after the direct ones. */
  lemma FreedRest(sb: Super, d: seq<Block>, ino: seq<Inode>, own: map<nat, Slot>, i: nat)
    requires Owned(sb, d, ino, own) && i < |ino| && ino[i].addrs[NDIRECT] == 0
    ensures Freed(own, i, SLOTS) == Freed(own, i, NDIRECT)
  {
    forall b | b in own && own[b].inum == i
      ensures own[b].idx < NDIRECT
    {
      assert Ref(d, ino, own[b].inum, own[b].idx) == b;
    }
  }

  lemma FreedAll(sb: Super, d: seq<Block>, ino: seq<Inode>, own: map<nat, Slot>, i: nat)
    requires Owned(sb, d, ino, own)
    ensures forall b :: b in own ==> (b in Freed(own, i, SLOTS) <==> own[b].inum == i)
  {
    hide Word;
    forall b | b in own
      ensures Rank(own[b].idx) < SLOTS
    {
      assert Ref(d, ino, own[b].inum, own[b].idx) == b;
    }
  }

  /** Meaning depends only on the data region. */
  lemma SameData(sb: Super, d: seq<Block>, ino: seq<Inode>, own: map<nat, Slot>, d': seq<Block>)
    requires Owned(sb, d, ino, own) && |d'| == |d| && forall x: nat :: sb.datastart <= x < |d| ==> d'[x] == d[x]
    ensures SameRefs(d, ino, d', ino) && SameBytes(d, ino, d', ino) && Owned(sb, d', ino, own)
  {
    hide Word;
    forall j: nat, k: nat
      ensures Ref(d', ino, j, k) == Ref(d, ino, j, k)
    {
      if j < |ino| && NDIRECT < k < SLOTS {
        assert Ref(d, ino, j, NDIRECT) == ino[j].addrs[NDIRECT];
      }
    }
  }

  /** The flat byte sequence a file stands for. */
  ghost function Contents(d: seq<Block>, ino: seq<Inode>, i: nat): seq<Byte>
    requires i < |ino|
  {
    seq(ino[i].size, x requires 0 <= x => FileByte(d, ino, i, x))
  }

  lemma ContentsSize(d: seq<Block>, ino: seq<Inode>, i: nat)
    requires i < |ino|
    ensures |Contents(d, ino, i)| == ino[i].size
  {
  }

  /** The bytes of file block `bn` are the bytes of the disk block it is mapped to. */
  lemma BlockBytes(d: seq<Block>, ino: seq<Inode>, i: nat, bn: nat, addr: nat)
    requires Ref(d, ino, i, SlotOf(bn)) == addr && 0 < addr < |d|
    ensures forall p :: 0 <= p < BSIZE ==> FileByte(d, ino, i, bn * BSIZE + p) == d[addr][p]
  {
    hide Ref;
    forall p | 0 <= p < BSIZE
      ensures FileByte(d, ino, i, bn * BSIZE + p) == d[addr][p]
    {
      assert (bn * BSIZE + p) / BSIZE == bn && (bn * BSIZE + p) % BSIZE == p;
    }
  }

  lemma ReadChunk(d: seq<Block>, ino: seq<Inode>, d': seq<Block>, ino': seq<Inode>, i: nat, bn: nat, data: Block,
                  pos: nat, k: nat, x: nat)
    requires SameBytes(d, ino, d', ino') && x == bn * BSIZE + pos && pos + k <= BSIZE
    requires forall p :: 0 <= p < BSIZE ==> FileByte(d', ino', i, bn * BSIZE + p) == data[p]
    ensures var t := data[pos..pos + k]; forall y :: 0 <= y < k ==> t[y] == FileByte(d, ino, i, x + y)
  {
    hide FileByte;
    var t := data[pos..pos + k];
    forall y | 0 <= y < k
      ensures t[y] == FileByte(d, ino, i, x + y)
    {
      assert FileByte(d', ino', i, bn * BSIZE + (pos + y)) == data[pos + y];
    }
  }

  // --- Reading where a file has a hole --------------------------------------------------------------

  /** How many bytes `readi` goes after: none past the end of the file or across the 32-bit limit. */
  function Span(size: nat, off: nat, n: nat): nat {
    if off > size || off + n >= 0x1_0000_0000 then 0
    else if off + n > size then size - off
    else n
  }

  /** A read of `m` bytes at `off`, the first `good` of which can be copied out, comes to a hole. */
  ghost predicate MeetsHole(d: seq<Block>, ino: seq<Inode>, i: nat, off: nat, m: nat, good: nat) {
    m > 0 && exists bn: nat :: off / BSIZE <= bn && bn * BSIZE < off + m && bn * BSIZE <= off + good
                               && Ref(d, ino, i, SlotOf(bn)) == 0
  }

  /** Outside an operation this is when `readi` panics: it comes to a hole that a free block could fill. */
  ghost predicate ReadPanics(sb: Super, d: seq<Block>, ino: seq<Inode>, own: map<nat, Slot>, i: nat, off: nat, n: nat,
                             good: nat) {
    i < |ino| && !Full(sb, own) && MeetsHole(d, ino, i, off, Span(ino[i].size, off, n), good)
  }

  /** The file blocks that hold the `n` bytes from `off` on exist. */
  ghost predicate Covered(d: seq<Block>, ino: seq<Inode>, i: nat, off: nat, n: nat) {
    forall bn: nat :: n > 0 && off / BSIZE <= bn && bn * BSIZE < off + n ==> Ref(d, ino, i, SlotOf(bn)) != 0
  }

  lemma CoveredNone(d: seq<Block>, ino: seq<Inode>, i: nat, off: nat)
    ensures Covered(d, ino, i, off, 0)
  {
  }

  lemma HoleMet(d: seq<Block>, ino: seq<Inode>, i: nat, off: nat, m: nat, good: nat, tot: nat, bn: nat)
    requires tot < m && tot <= good && bn == (off + tot) / BSIZE && Ref(d, ino, i, SlotOf(bn)) == 0
    ensures MeetsHole(d, ino, i, off, m, good)
  {
    hide Ref, SlotOf;
  }

  /** The loop of `readi` goes on by `k` bytes, in block `bn`. */
  lemma HoleNotMet(d: seq<Block>, ino: seq<Inode>, i: nat, off: nat, m: nat, good: nat, tot: nat, bn: nat, k: nat)
    requires Covered(d, ino, i, off, tot) && bn == (off + tot) / BSIZE && Ref(d, ino, i, SlotOf(bn)) != 0
    requires 0 < k && tot + k <= m && off + tot + k <= (bn + 1) * BSIZE
    requires tot + k == m || off + tot + k == (bn + 1) * BSIZE
    ensures Covered(d, ino, i, off, tot + k)
    ensures good < tot + k ==> !MeetsHole(d, ino, i, off, m, good)
  {
    hide Ref, SlotOf;
  }

  lemma CoveredMeetsNone(d: seq<Block>, ino: seq<Inode>, i: nat, off: nat, m: nat, good: nat)
    requires Covered(d, ino, i, off, m)
    ensures !MeetsHole(d, ino, i, off, m, good)
  {
    hide Ref, SlotOf;
  }

  lemma WholeCovered(d: seq<Block>, ino: seq<Inode>, i: nat, off: nat, m: nat)
    requires i < |ino| && NoHoles(d, ino, i) && off + m <= ino[i].size
    ensures Covered(d, ino, i, off, m)
  {
    hide Ref, SlotOf;
  }

  /** A file without holes is read without a panic, in or outside an operation. */
  lemma WholeReads(sb: Super, d: seq<Block>, ino: seq<Inode>, own: map<nat, Slot>, i: nat, off: nat, n: nat, good: nat)
    requires i < |ino| && NoHoles(d, ino, i)
    ensures !ReadPanics(sb, d, ino, own, i, off, n, good)
  {
    hide Ref, NoHoles, Covered, MeetsHole;
    var m := Span(ino[i].size, off, n);
    if m > 0 {
      WholeCovered(d, ino, i, off, m);
      CoveredMeetsNone(d, ino, i, off, m, good);
    } else {
      assert !MeetsHole(d, ino, i, off, 0, good) by {
        NothingMeets(d, ino, i, off, good);
      }
    }
  }

  lemma NothingMeets(d: seq<Block>, ino: seq<Inode>, i: nat, off: nat, good: nat)
    ensures !MeetsHole(d, ino, i, off, 0, good)
  {
  }

  /** File `i` has the bytes `t` at `off`, and every other byte of every file is as before. */
  ghost predicate Stored(d: seq<Block>, ino: seq<Inode>, d': seq<Block>, ino': seq<Inode>, i: nat, off: nat,
                         t: seq<Byte>) {
    && (forall x :: 0 <= x < |t| ==> FileByte(d', ino', i, off + x) == t[x])
    && (forall j: nat, x: nat :: j != i || x < off || off + |t| <= x ==>
        FileByte(d', ino', j, x) == FileByte(d, ino, j, x))
  }

  lemma StoredNothing(d: seq<Block>, ino: seq<Inode>, i: nat, off: nat)
    ensures Stored(d, ino, d, ino, i, off, []) && Mapped(d, ino, i, off, 0)
  {
  }

  lemma StoredGrew(d0: seq<Block>, ino0: seq<Inode>, d: seq<Block>, ino: seq<Inode>, d': seq<Block>, ino': seq<Inode>,
                   i: nat, off: nat, t: seq<Byte>)
    requires Stored(d0, ino0, d, ino, i, off, t) && SameBytes(d, ino, d', ino')
    ensures Stored(d0, ino0, d', ino', i, off, t)
  {
    hide FileByte;
  }

  lemma ChunkStored(d: seq<Block>, d': seq<Block>, ino: seq<Inode>, i: nat, bn: nat, addr: nat, pos: nat, t: seq<Byte>,
                    data: Block)
    requires addr < |d| && pos + |t| <= BSIZE && data == d[addr][..pos] + t + d[addr][pos + |t|..]
    requires forall p :: 0 <= p < BSIZE ==> FileByte(d, ino, i, bn * BSIZE + p) == d[addr][p]
    requires forall j: nat, x: nat :: FileByte(d', ino, j, x) ==
                                      if j == i && x / BSIZE == bn then data[x % BSIZE] else FileByte(d, ino, j, x)
    ensures Stored(d, ino, d', ino, i, bn * BSIZE + pos, t)
  {
    hide FileByte;
    forall x | 0 <= x < |t|
      ensures FileByte(d', ino, i, bn * BSIZE + pos + x) == t[x]
    {
      assert (bn * BSIZE + pos + x) / BSIZE == bn && (bn * BSIZE + pos + x) % BSIZE == pos + x;
    }
    forall j: nat, x: nat | j != i || x < bn * BSIZE + pos || bn * BSIZE + pos + |t| <= x
      ensures FileByte(d', ino, j, x) == FileByte(d, ino, j, x)
    {
      if j == i && x / BSIZE == bn {
        assert FileByte(d, ino, i, bn * BSIZE + x % BSIZE) == d[addr][x % BSIZE];
      }
    }
  }

  /** Everything a write of `n` bytes at `off` may log: bitmap, indirect block, inode and data. */
  ghost function WriteSet(sb: Super, d: seq<Block>, ino: seq<Inode>, i: nat, off: nat, n: nat): set<nat> {
    Bitmap(sb) + Some(Ref(d, ino, i, NDIRECT)) + {InodeBlock(sb, i)}
    + if n == 0 then {} else DataRefs(d, ino, i, off / BSIZE, (off + n - 1) / BSIZE)
  }

  lemma WriteSetGrows(sb: Super, d: seq<Block>, ino: seq<Inode>, d': seq<Block>, ino': seq<Inode>, i: nat, off: nat,
                      n: nat)
    requires KeptRefs(d, ino, d', ino') || SameRefs(d, ino, d', ino')
    ensures WriteSet(sb, d, ino, i, off, n) <= WriteSet(sb, d', ino', i, off, n)
  {
    hide Ref, Bitmap;
  }

  lemma InWriteSet(sb: Super, d: seq<Block>, ino: seq<Inode>, i: nat, off: nat, n: nat, bn: nat)
    requires n > 0 && off / BSIZE <= bn <= (off + n - 1) / BSIZE
    ensures Bitmap(sb) + Some(Ref(d, ino, i, NDIRECT)) + Some(Ref(d, ino, i, SlotOf(bn)))
        + {InodeBlock(sb, i)} <= WriteSet(sb, d, ino, i, off, n)
  {
    hide Ref, Bitmap;
  }

  /** References and bytes do not depend on sizes. */
  lemma Resize(sb: Super, d: seq<Block>, ino: seq<Inode>, ino': seq<Inode>, own: map<nat, Slot>, i: nat)
    requires FsOk(sb, d, ino, own) && i < |ino| == |ino'| && ino' == ino[i := ino[i].(size := ino'[i].size)]
    ensures FsOk(sb, d, ino', own) && SameRefs(d, ino, d, ino') && SameBytes(d, ino, d, ino')
  {
    hide BitsOk, Word;
    assert forall j: nat, k: nat :: Ref(d, ino', j, k) == Ref(d, ino, j, k);
  }

  lemma WriteSetSame(sb: Super, d: seq<Block>, ino: seq<Inode>, ino': seq<Inode>, i: nat, off: nat, n: nat)
    requires SameRefs(d, ino, d, ino')
    ensures WriteSet(sb, d, ino', i, off, n) == WriteSet(sb, d, ino, i, off, n)
    ensures InodeBlock(sb, i) in WriteSet(sb, d, ino, i, off, n)
  {
    hide Ref, Bitmap;
  }

  lemma SizeUnseen(d0: seq<Block>, ino0: seq<Inode>, d: seq<Block>, ino: seq<Inode>, ino': seq<Inode>, i: nat, off: nat,
                   t: seq<Byte>)
    requires Stored(d0, ino0, d, ino, i, off, t) && SameBytes(d, ino, d, ino')
    ensures Stored(d0, ino0, d, ino', i, off, t)
  {
    hide FileByte;
  }

  lemma StaysWhole(d0: seq<Block>, ino0: seq<Inode>, d: seq<Block>, ino: seq<Inode>, ino': seq<Inode>, i: nat, off: nat,
                   r: nat)
    requires AllWhole(d0, ino0) && SameShape(ino0, ino) && KeptRefs(d0, ino0, d, ino) && SameRefs(d, ino, d, ino')
    requires i < |ino| == |ino'| && off <= ino0[i].size && off + r <= MAXBYTES
    requires forall j :: 0 <= j < |ino| && j != i ==> ino'[j] == ino[j]
    requires ino'[i].size == if off + r > ino0[i].size then off + r else ino0[i].size
    requires Mapped(d, ino, i, off, r)
    ensures AllWhole(d, ino')
  {
    hide Ref;
    forall j | 0 <= j < |ino'|
      ensures NoHoles(d, ino', j)
    {
      assert NoHoles(d0, ino0, j);
      forall bn: nat | bn * BSIZE < ino'[j].size
        ensures Ref(d, ino', j, SlotOf(bn)) != 0
      {
        if bn * BSIZE < ino0[j].size {
          assert Ref(d0, ino0, j, SlotOf(bn)) != 0;
        } else {
          assert j == i;
        }
      }
    }
  }

  /** The file blocks that begin in these `n` bytes exist. */
  ghost predicate Mapped(d: seq<Block>, ino: seq<Inode>, i: nat, off: nat, n: nat) {
    forall bn: nat :: off <= bn * BSIZE < off + n ==> Ref(d, ino, i, SlotOf(bn)) != 0
  }

  lemma MappedKept(d: seq<Block>, ino: seq<Inode>, d': seq<Block>, ino': seq<Inode>, i: nat, off: nat, n: nat)
    requires Mapped(d, ino, i, off, n) && KeptRefs(d, ino, d', ino')
    ensures Mapped(d', ino', i, off, n)
  {
    hide Ref;
    forall bn: nat | off <= bn * BSIZE < off + n
      ensures Ref(d', ino', i, SlotOf(bn)) != 0
    {
      assert Ref(d, ino, i, SlotOf(bn)) != 0;
    }
  }

  lemma MappedNext(d: seq<Block>, ino: seq<Inode>, d': seq<Block>, i: nat, off: nat, n: nat, m: nat, bn: nat)
    requires Mapped(d, ino, i, off, n) && SameRefs(d, ino, d', ino) && Ref(d, ino, i, SlotOf(bn)) != 0
    requires bn == (off + n) / BSIZE && off + n + m <= (bn + 1) * BSIZE
    ensures Mapped(d', ino, i, off, n + m) && KeptRefs(d, ino, d', ino)
  {
    hide Ref;
    forall b: nat | off <= b * BSIZE < off + n + m
      ensures Ref(d', ino, i, SlotOf(b)) != 0
    {
      if off + n <= b * BSIZE {
        assert b == bn;
      } else {
        assert Ref(d, ino, i, SlotOf(b)) != 0;
      }
    }
  }

  /** `((MAXOPBLOCKS-1-1-2) / 2) * BSIZE`. */
  const CHUNK: nat := 3072

  lemma StoredAgain(d0: seq<Block>, ino0: seq<Inode>, d: seq<Block>, ino: seq<Inode>, d': seq<Block>, ino': seq<Inode>,
                    i: nat, off: nat, src: seq<Byte>, n: nat, m: nat)
    requires n + m <= |src| && Stored(d0, ino0, d, ino, i, off, src[..n])
    requires Stored(d, ino, d', ino', i, off + n, src[n..n + m])
    ensures Stored(d0, ino0, d', ino', i, off, src[..n + m])
  {
    hide FileByte;
    var all, t := src[..n + m], src[n..n + m];
    forall x | 0 <= x < |all|
      ensures FileByte(d', ino', i, off + x) == all[x]
    {
      if x >= n {
        assert FileByte(d', ino', i, off + n + (x - n)) == t[x - n];
      } else {
        assert FileByte(d', ino', i, off + x) == FileByte(d, ino, i, off + x);
      }
    }
  }

  lemma SevenAtMost(a: nat, b: nat, c: nat, d: nat, e: nat, f: nat, g: nat)
    ensures |{a, b, c, d, e, f, g}| <= 7
  {
    assert |{a, b, c}| <= 3;
    assert |{a, b, c, d}| <= 4;
    assert |{a, b, c, d, e}| <= 5;
    assert |{a, b, c, d, e, f}| <= 6;
  }

  /** Four file blocks at most overlap a chunk. */
  lemma ChunkBlocks(d: seq<Block>, ino: seq<Inode>, i: nat, off: nat, n: nat)
    requires 0 < n <= CHUNK
    ensures var lo := off / BSIZE;
            DataRefs(d, ino, i, lo, (off + n - 1) / BSIZE) <=
            {Ref(d, ino, i, SlotOf(lo)), Ref(d, ino, i, SlotOf(lo + 1)), Ref(d, ino, i, SlotOf(lo + 2)),
                Ref(d, ino, i, SlotOf(lo + 3))}
  {
    hide Ref, SlotOf;
    var lo := off / BSIZE;
    assert (off + n - 1) / BSIZE <= lo + 3;
    var all := DataRefs(d, ino, i, lo, (off + n - 1) / BSIZE);
    var four :=
        {Ref(d, ino, i, SlotOf(lo)), Ref(d, ino, i, SlotOf(lo + 1)), Ref(d, ino, i, SlotOf(lo + 2)),
        Ref(d, ino, i, SlotOf(lo + 3))};
    forall x | x in all
      ensures x in four
    {
      var bn: nat :| lo <= bn <= (off + n - 1) / BSIZE && x == Ref(d, ino, i, SlotOf(bn));
      assert bn == lo || bn == lo + 1 || bn == lo + 2 || bn == lo + 3;
    }
  }

  /** One transaction of `filewrite` logs at most seven blocks when one bitmap block covers the disk:
      four of data, the inode, the indirect block and the bitmap. */
  lemma ChunkFitsLog(sb: Super, d: seq<Block>, ino: seq<Inode>, i: nat, off: nat, n: nat, logged: set<nat>, r: int)
    requires 0 < n <= CHUNK && (if r == -1 then logged == {} else logged <= WriteSet(sb, d, ino, i, off, n))
    ensures sb.size <= BPB ==> |logged| <= 7
  {
    hide Ref, DataRefs, SlotOf;
    if sb.size <= BPB && r != -1 {
      var lo := off / BSIZE;
      var r0, r1, r2, r3 := Ref(d, ino, i, SlotOf(lo)), Ref(d, ino, i, SlotOf(lo + 1)), Ref(d, ino, i, SlotOf(lo + 2)),
          Ref(d, ino, i, SlotOf(lo + 3));
      var all := {sb.bmapstart, Ref(d, ino, i, NDIRECT), InodeBlock(sb, i), r0, r1, r2, r3};
      ChunkBlocks(d, ino, i, off, n);
      assert Bitmap(sb) <= {sb.bmapstart};
      Basics.SubsetSize(logged, all);
      SevenAtMost(sb.bmapstart, Ref(d, ino, i, NDIRECT), InodeBlock(sb, i), r0, r1, r2, r3);
    }
  }

  lemma TruncatedWhole(d0: seq<Block>, ino0: seq<Inode>, d: seq<Block>, ino: seq<Inode>, i: nat)
    requires AllWhole(d0, ino0) && |ino| == |ino0| && i < |ino| && ino[i].size == 0
    requires forall j :: 0 <= j < |ino| && j != i ==> ino[j] == ino0[j]
    requires forall j: nat, k: nat :: Ref(d, ino, j, k) == if j == i then 0 else Ref(d0, ino0, j, k)
    ensures AllWhole(d, ino)
  {
    hide Ref;
    forall j | 0 <= j < |ino|
      ensures NoHoles(d, ino, j)
    {
      assert NoHoles(d0, ino0, j);
    }
  }

  /** How far `writei` gets on a disk that does not fill: all of `n` bytes, or, when the source can be read
      for `good` of them only, the whole blocks before that point. */
  function Reach(off: nat, n: nat, good: nat): nat {
    var end := (off + good) / BSIZE * BSIZE;
    if n <= good then n else if end > off then end - off else 0
  }

  /** Where the loop of `writei` can stand: at the start or at a block boundary. */
  predicate AtBlock(off: nat, tot: nat) { tot == 0 || (off + tot) % BSIZE == 0 }

  lemma ReachNext(off: nat, n: nat, good: nat, tot: nat, m: nat)
    requires tot < n && tot <= good && AtBlock(off, tot)
    requires var pos := (off + tot) % BSIZE; m == if n - tot < BSIZE - pos then n - tot else BSIZE - pos
    ensures tot <= Reach(off, n, good) && (tot + m > good ==> tot == Reach(off, n, good))
    ensures tot + m == n || AtBlock(off, tot + m)
  {
  }

  lemma ReachBound(off: nat, n: nat, good: nat)
    ensures Reach(off, n, good) <= n && (n <= good ==> Reach(off, n, good) == n) && AtBlock(off, 0)
  {
  }

  /** `s` with `t` written over it from `off` on. */
  function Splice(s: seq<Byte>, off: nat, t: seq<Byte>): seq<Byte>
    requires off <= |s|
  {
    s[..off] + t + if off + |t| <= |s| then s[off + |t|..] else []
  }

  lemma Spliced(d: seq<Block>, ino: seq<Inode>, d': seq<Block>, ino': seq<Inode>, i: nat, off: nat, t: seq<Byte>)
    requires Stored(d, ino, d', ino', i, off, t) && i < |ino| == |ino'| && off <= ino[i].size
    requires ino'[i].size == if off + |t| > ino[i].size then off + |t| else ino[i].size
    requires forall j :: 0 <= j < |ino| && j != i ==> ino'[j].size == ino[j].size
    ensures Contents(d', ino', i) == Splice(Contents(d, ino, i), off, t)
    ensures forall j: nat :: j < |ino| && j != i ==> Contents(d', ino', j) == Contents(d, ino, j)
  {
    hide FileByte;
    var c, c' := Contents(d, ino, i), Contents(d', ino', i);
    forall x | 0 <= x < |c'|
      ensures c'[x] == Splice(c, off, t)[x]
    {
      if off <= x < off + |t| {
        assert FileByte(d', ino', i, off + (x - off)) == t[x - off];
      }
    }
  }

  const NO_ADDRS: Addrs := [0, 0, 0, 0, 0, 0, 0, 0, 0, 0, 0, 0, 0]

  /** Inodes that are free on disk name no blocks. */
  ghost predicate FreeOnesEmpty(ino: seq<Inode>) {
    forall i :: 0 <= i < |ino| && ino[i].kind == 0 ==> ino[i].size == 0 && ino[i].addrs == NO_ADDRS
  }

  lemma Reborn(sb: Super, d: seq<Block>, ino: seq<Inode>, ino': seq<Inode>, own: map<nat, Slot>, i: nat)
    requires FsOk(sb, d, ino, own) && i < |ino| == |ino'|
    requires ino[i].addrs == ino'[i].addrs == NO_ADDRS && ino'[i].size == 0
    requires forall j :: 0 <= j < |ino| && j != i ==> ino'[j] == ino[j]
    ensures FsOk(sb, d, ino', own) && SameBytes(d, ino, d, ino') && SameRefs(d, ino, d, ino')
    ensures AllWhole(d, ino) ==> AllWhole(d, ino')
  {
    hide BitsOk, Word;
    assert forall j: nat, k: nat :: Ref(d, ino', j, k) == Ref(d, ino, j, k);
    if AllWhole(d, ino) {
      forall j | 0 <= j < |ino'|
        ensures NoHoles(d, ino', j)
      {
        assert NoHoles(d, ino, j);
      }
    }
  }

  lemma Unkinded(sb: Super, d: seq<Block>, ino: seq<Inode>, ino': seq<Inode>, own: map<nat, Slot>, i: nat)
    requires FsOk(sb, d, ino, own) && i < |ino| && ino[i].size == 0
    requires ino' == ino[i := ino[i].(kind := 0)] && forall k: nat :: Ref(d, ino, i, k) == 0
    ensures FsOk(sb, d, ino', own) && SameBytes(d, ino, d, ino') && ino'[i].addrs == NO_ADDRS
    ensures AllWhole(d, ino) ==> AllWhole(d, ino')
  {
    forall k: nat | k <= NDIRECT
      ensures ino[i].addrs[k] == 0
    {
      assert Ref(d, ino, i, k) == 0;
    }
    Reborn(sb, d, ino, ino', own, i);
  }

  /** A file as a user of it sees it: a type, 0 for none, and a flat byte sequence. */
  datatype File = File(kind: Word16, bytes: seq<Byte>)

  ghost function Flat(d: seq<Block>, ino: seq<Inode>): seq<File> {
    seq(|ino|, i requires 0 <= i < |ino| => File(ino[i].kind, Contents(d, ino, i)))
  }

  /** The operations on inodes. */
  datatype Op =
    | OpRead(i: nat, off: Word32, n: Word32, good: nat, inOp: bool)
    | OpWrite(i: nat, off: Word32, src: seq<Byte>, good: nat)
    | OpCreate(kind: Word16)
    | OpTruncate(i: nat)
    | OpRemove(i: nat)
  {
    /** A read inside an operation can fill a hole, and the inode on disk does not hear of it. */
    predicate MayFill() { OpRead? && inOp }
  }

  /** What the caller gets back: a count or an inode number, -1 for failure, and the bytes of a read. */
  datatype Answer = Answer(r: int, data: seq<Byte>)

  /** What a read answers. On a file of these bytes it returns what the size allows, or fails if the
      destination cannot take that much; only if `short` may it end early. */
  ghost predicate ReadAnswer(bytes: seq<Byte>, off: nat, n: nat, good: nat, a: Answer, short: bool) {
    var m := Span(|bytes|, off, n);
    && (a.r == -1 ==> good < m && a.data == [])
    && (a.r != -1 ==>
          0 <= a.r <= m && a.r <= good && a.data == if a.r > 0
              && off + a.r <= |bytes| then bytes[off..off + a.r] else [])
    && (!short ==> a.r == if m <= good then m else -1)
  }

  /** What an operation does to the flat files and what it answers; `full` says that no data block is free
      afterwards, `whole` that no file had a hole. Only on a full disk does a write store less than the
      source allows, and with a hole a read return less than the file has. An operation that names no file
      or no place in it does nothing. */
  ghost predicate FlatStep(f: seq<File>, op: Op, a: Answer, f': seq<File>, full: bool, whole: bool) {
    match op
    case OpRead(i, off, n, good, _) =>
      && f' == f
      && (if i < |f| && f[i].kind != 0 then ReadAnswer(f[i].bytes, off, n, good, a, full && !whole)
          else a == Answer(-1, []))
    case OpWrite(i, off, src, good) =>
      if i < |f| && f[i].kind != 0 && off <= |f[i].bytes| && off + |src| <= MAXBYTES then
        && 0 <= a.r <= Reach(off, |src|, good) <= |src| && FlatWrite(f, i, off, src[..a.r], f')
        && (!full ==> a.r == Reach(off, |src|, good)) && (!full && |src| <= good ==> a.r == |src|)
      else
        f' == f && a.r == -1
    case OpCreate(kind) =>
      if kind != 0 && exists i :: 1 <= i < |f| && f[i].kind == 0 then
        && 1 <= a.r < |f| && f[a.r].kind == 0 && (forall j :: 1 <= j < a.r ==> f[j].kind != 0)
        && f' == f[a.r := File(kind, [])]
      else
        f' == f && a.r == 0
    case OpTruncate(i) => f' == if i < |f| && f[i].kind != 0 then f[i := File(f[i].kind, [])] else f
    case OpRemove(i) => f' == if i < |f| then f[i := File(0, [])] else f
  }

  /** What a run leaves behind at each step. */
  datatype Snapshot = Snapshot(disk: seq<Block>, ino: seq<Inode>, own: map<nat, Slot>, table: seq<Inode>) {
    ghost function Files(): seq<File> { Flat(disk, ino) }

    /** What lies on the disk, the inode table included. */
    ghost function Image(sb: Super): seq<I.L.Block> { I.Image(sb, disk, table) }

    /** All in order, and the inodes on disk are those in memory. */
    ghost predicate Sound(sb: Super) {
      FsOk(sb, disk, ino, own) && SizesOk(ino) && FreeOnesEmpty(ino) && table == ino
    }

    /** The operation, answered by `a`, leads to `h` and does to the flat files what it is to do. */
    ghost predicate Steps(sb: Super, op: Op, a: Answer, h: Snapshot) {
      FlatStep(Files(), op, a, h.Files(), Full(sb, h.own), AllWhole(disk, ino))
    }

    /** The operation panics here: it is a read, outside every transaction, that comes to a hole. */
    ghost predicate Panics(sb: Super, op: Op) {
      && op.OpRead? && !op.inOp && op.i < |ino| && ino[op.i].kind != 0
      && ReadPanics(sb, disk, ino, own, op.i, op.off, op.n, op.good)
    }
  }

  ghost predicate FlatWrite(f: seq<File>, i: nat, off: nat, t: seq<Byte>, f': seq<File>)
    requires i < |f| && off <= |f[i].bytes|
  {
    f' == f[i := File(f[i].kind, Splice(f[i].bytes, off, t))]
  }

  /** Only file `i` changed. */
  lemma FlatOne(d: seq<Block>, ino: seq<Inode>, d': seq<Block>, ino': seq<Inode>, i: nat)
    requires i < |ino| == |ino'|
    requires forall j: nat :: j < |ino| && j != i ==> Contents(d', ino', j) == Contents(d, ino, j)
    requires forall j :: 0 <= j < |ino| && j != i ==> ino'[j].kind == ino[j].kind
    ensures Flat(d', ino') == Flat(d, ino)[i := File(ino'[i].kind, Contents(d', ino', i))]
  {
    hide Contents;
  }

  /** A free inode was given a type. */
  lemma FlatCreated(d: seq<Block>, ino: seq<Inode>, ino': seq<Inode>, i: nat)
    requires SameBytes(d, ino, d, ino') && i < |ino| == |ino'| && ino' == ino[i := ino'[i]] && ino'[i].size == 0
    ensures Flat(d, ino') == Flat(d, ino)[i := File(ino'[i].kind, [])]
  {
    hide FileByte;
    forall j: nat | j < |ino| && j != i
      ensures Contents(d, ino', j) == Contents(d, ino, j)
    {
    }
    FlatOne(d, ino, d, ino', i);
  }

  lemma FlatGrown(d: seq<Block>, ino: seq<Inode>, own: map<nat, Slot>, d': seq<Block>, ino': seq<Inode>,
                  own': map<nat, Slot>)
    requires OnlyGrew(d, ino, own, d', ino', own')
    ensures Flat(d', ino') == Flat(d, ino)
  {
    hide FileByte, Ref;
    forall j: nat | j < |ino|
      ensures Contents(d', ino', j) == Contents(d, ino, j) && ino'[j].kind == ino[j].kind
    {
    }
  }

  lemma StillBehind(d: seq<Block>, ino: seq<Inode>, dinodes: seq<Inode>, d': seq<Block>, ino': seq<Inode>)
    requires Behind(dinodes, ino) && SameShape(ino, ino') && KeptRefs(d, ino, d', ino')
    ensures Behind(dinodes, ino')
  {
    hide Word;
    forall i, k | 0 <= i < |ino| && 0 <= k <= NDIRECT
      ensures dinodes[i].addrs[k] == 0 || dinodes[i].addrs[k] == ino'[i].addrs[k]
    {
      assert Ref(d, ino, i, k) == ino[i].addrs[k] && Ref(d', ino', i, k) == ino'[i].addrs[k];
    }
  }

  class Fs {
    const sb: Super
    var disk: seq<Block>
    var ino: seq<Inode>         // in-memory inodes
    var dinodes: seq<Inode>     // the inode table on disk
    ghost var own: map<nat, Slot>
    ghost var logged: set<nat>  // blocks passed to `log_write`
    ghost var start: seq<I.L.Block>     // what lay on the disk when the operation began
    ghost var trace: seq<I.Write>       // what was written since

    ghost predicate Valid()
      reads this
    {
      FsOk(sb, disk, ino, own) && SizesOk(ino) && |dinodes| == |ino| && Kept()
    }

    /** The writes of the operation account for all that changed on the disk. */
    ghost predicate Kept()
      reads this
    {
      I.Recorded(sb, start, trace, disk, dinodes)
    }

    /** `log_write` of block `b` with new contents. */
    method LogWrite(b: nat, data: Block)
      requires sb.bmapstart <= b < |disk|
      modifies this`disk, this`logged, this`trace
      ensures disk == old(disk)[b := data] && logged == old(logged) + {b} && (old(Kept()) ==> Kept())
    {
      hide I.Recorded;
      if Kept() {
        I.RecordedBlock(sb, start, trace, disk, dinodes, b, data);
      }
      disk := disk[b := data];
      logged := logged + {b};
      trace := trace + [I.Write(b, I.WordsOf(data))];
    }

    /** The scan of `balloc`: the first clear bit. */
    method FindFree(ghost inUse: set<nat>) returns (found: bool, b: nat)
      requires SuperOk(sb, |disk|, |ino|) && BitsOk(sb, disk, inUse)
      ensures found ==>
        && sb.datastart <= b < sb.size && b !in inUse && forall x: nat :: x < b ==> x < sb.datastart || x in inUse
      ensures !found ==> forall x: nat :: x < sb.size ==> x < sb.datastart || x in inUse
    {
      hide I.Recorded, Bit;
      b := 0;
      var base := 0;
      while base < sb.size
        invariant base % BPB == 0
        invariant forall x: nat :: x < base && x < sb.size ==> x < sb.datastart || x in inUse
      {
        assert base / BPB <= (sb.size - 1) / BPB;
        var bp := disk[sb.bmapstart + base / BPB];
        var bi := 0;
        while bi < BPB && base + bi < sb.size
          invariant 0 <= bi <= BPB
          invariant forall x: nat :: x < base + bi && x < sb.size ==> x < sb.datastart || x in inUse
        {
          assert (base + bi) / BPB == base / BPB && (base + bi) % BPB == bi;
          assert BitOf(sb, disk, base + bi) == Bit(bp, bi);
          if !Bit(bp, bi) {
            return true, base + bi;
          }
          bi := bi + 1;
        }
        base := base + BPB;
      }
      found := false;
    }

    /** `balloc`: a zeroed block that was free, or 0 when none is left. A block that is found is logged,
        which panics when no operation is outstanding. */
    method Balloc(inOp: bool) returns (panicked: bool, b: Word32)
      requires Valid()
      modifies this`disk, this`logged, this`trace
      ensures |disk| == |old(disk)| && Owned(sb, disk, ino, own) && SameRefs(old(disk), ino, disk, ino)
      ensures SameBytes(old(disk), ino, disk, ino)
      ensures Kept() && (panicked <==> !inOp && !Full(sb, own))
      ensures b == 0 ==> disk == old(disk) && logged == old(logged) && (panicked || Full(sb, own))
      ensures panicked || !inOp ==> b == 0
      ensures b != 0 ==> sb.datastart <= b < sb.size && b !in own && disk[b] == ZERO_BLOCK
      ensures b != 0 ==> BitsOk(sb, disk, own.Keys + {b as nat}) && logged == old(logged) + {BitmapBlock(sb, b), b}
    {
      hide I.Recorded, Bit, SetBit, Owned, BitsOk, Ref, FileByte;
      var found, x := FindFree(own.Keys);
      panicked, b := found && !inOp, 0;
      if !found || panicked {
        return;
      }
      BitmapBelowData(sb, |disk|, |ino|, x);
      var m := sb.bmapstart + x / BPB;
      ghost var d0 := disk;
      BitsSet(sb, disk, own.Keys, x, true);
      NotOwned(sb, disk, ino, own, m);
      StoreElsewhere(sb, disk, ino, own, m, SetBit(disk[m], x % BPB, true));
      LogWrite(m, SetBit(disk[m], x % BPB, true));
      BitsElsewhere(sb, disk, own.Keys + {x}, x, ZERO_BLOCK);
      StoreElsewhere(sb, disk, ino, own, x, ZERO_BLOCK);
      LogWrite(x, ZERO_BLOCK);
      b := x;
    }

    /** `bfree`. A clear bit would be a panic. */
    method Bfree(b: nat, ghost inUse: set<nat>) returns (panicked: bool)
      requires SuperOk(sb, |disk|, |ino|) && BitsOk(sb, disk, inUse) && sb.datastart <= b < sb.size && Kept()
      modifies this`disk, this`logged, this`trace
      ensures Kept()
      ensures panicked <==> b !in inUse
      ensures panicked ==> disk == old(disk)
      ensures !panicked ==> BitsOk(sb, disk, inUse - {b}) && logged == old(logged) + {BitmapBlock(sb, b)}
      ensures |disk| == |old(disk)|
      ensures forall x: nat :: x < |disk| && x != BitmapBlock(sb, b) ==> disk[x] == old(disk)[x]
    {
      hide I.Recorded, Bit, SetBit;
      BitmapBelowData(sb, |disk|, |ino|, b);
      var m := sb.bmapstart + b / BPB;
      assert BitOf(sb, disk, b) == Bit(disk[m], b % BPB);
      if !Bit(disk[m], b % BPB) {
        return true;
      }
      BitsSet(sb, disk, inUse, b, false);
      LogWrite(m, SetBit(disk[m], b % BPB, false));
      panicked := false;
    }

    /** `ip->addrs[k]`, filled with a fresh block if it is empty. */
    method FillAddr(i: nat, k: nat, inOp: bool) returns (panicked: bool, addr: Word32)
      requires Valid() && i < |ino| && k <= NDIRECT
      modifies this`disk, this`ino, this`own, this`logged, this`trace
      ensures Valid() && OnlyGrew(old(disk), old(ino), old(own), disk, ino, own)
      ensures panicked <==> !inOp && old(ino[i].addrs[k]) == 0 && !old(Full(sb, own))
      ensures addr == Ref(disk, ino, i, k) && (addr == 0 && !panicked ==> Full(sb, own))
      ensures old(ino[i].addrs[k]) != 0 || addr == 0 || !inOp ==>
        && disk == old(disk) && ino == old(ino) && own == old(own) && logged == old(logged)
      ensures addr != 0 ==> logged <= old(logged) + Bitmap(sb) + {addr as nat} && addr < |disk|
      ensures forall j :: 0 <= j < |ino| && j != i ==> ino[j] == old(ino)[j]
    {
      hide I.Recorded, Bit, SetBit, Owned, BitsOk, FileByte, Word, BitmapBlock, Bitmap;
      panicked, addr := false, ino[i].addrs[k];
      GrewRefl(disk, ino, own);
      if addr == 0 {
        ghost var d0 := disk;
        panicked, addr := Balloc(inOp);
        if addr == 0 {
          return;
        }
        InBitmap(sb, addr);
        Attach(sb, disk, ino, own, i, k, addr);
        ino := ino[i := ino[i].(addrs := ino[i].addrs[k := addr])];
        assert own.Keys + {addr as nat} == own[addr as nat := Slot(i, k)].Keys;
        own := own[addr as nat := Slot(i, k)];
      } else {
        InRange(sb, disk, ino, own, i, k);
      }
    }

    /** The indirect half of `bmap`: entry `k` of the indirect block at `a`. */
    method FillEntry(i: nat, a: nat, k: nat, inOp: bool) returns (panicked: bool, addr: Word32)
      requires Valid() && i < |ino| && k < NINDIRECT && 0 < a == ino[i].addrs[NDIRECT] && a < |disk|
      modifies this`disk, this`own, this`logged, this`trace
      ensures Valid() && OnlyGrew(old(disk), ino, old(own), disk, ino, own)
      ensures panicked <==> !inOp && old(Ref(disk, ino, i, NDIRECT + 1 + k)) == 0 && !old(Full(sb, own))
      ensures addr == Ref(disk, ino, i, NDIRECT + 1 + k) && (addr == 0 && !panicked ==> Full(sb, own))
      ensures old(Ref(disk, ino, i, NDIRECT + 1 + k)) != 0 || addr == 0 || !inOp ==>
        && disk == old(disk) && own == old(own) && logged == old(logged)
      ensures addr != 0 ==> logged <= old(logged) + Bitmap(sb) + {addr as nat, a} && addr < |disk|
    {
      hide I.Recorded, Bit, SetBit, Owned, BitsOk, FileByte, Word, SetWord, BitmapBlock, Bitmap;
      panicked, addr := false, Word(disk[a], k);
      assert addr == Ref(disk, ino, i, NDIRECT + 1 + k);
      GrewRefl(disk, ino, own);
      if addr == 0 {
        ghost var d0 := disk;
        panicked, addr := Balloc(inOp);
        if addr == 0 {
          return;
        }
        InBitmap(sb, addr);
        AttachIndirect(sb, disk, ino, own, i, NDIRECT + 1 + k, addr);
        InRange(sb, disk, ino, own, i, NDIRECT);
        BitsElsewhere(sb, disk, own.Keys + {addr as nat}, a, SetWord(disk[a], k, addr));
        LogWrite(a, SetWord(disk[a], k, addr));
        assert own.Keys + {addr as nat} == own[addr as nat := Slot(i, NDIRECT + 1 + k)].Keys;
        own := own[addr as nat := Slot(i, NDIRECT + 1 + k)];
      } else {
        InRange(sb, disk, ino, own, i, NDIRECT + 1 + k);
      }
    }

    /** `bmap`: the block that holds file block `bn`, allocated if need be; 0 when the disk is full.
        No file changes by it. It panics exactly when it has a block to allocate and no operation is
        outstanding. */
    method Bmap(i: nat, bn: nat, inOp: bool) returns (panicked: bool, addr: Word32)
      requires Valid() && i < |ino| && bn < MAXFILE
      modifies this`disk, this`ino, this`own, this`logged, this`trace
      ensures Valid() && OnlyGrew(old(disk), old(ino), old(own), disk, ino, own)
      ensures panicked <==> !inOp && old(Ref(disk, ino, i, SlotOf(bn))) == 0 && !old(Full(sb, own))
      ensures addr == Ref(disk, ino, i, SlotOf(bn)) && (addr == 0 && !panicked ==> Full(sb, own))
      ensures old(Ref(disk, ino, i, SlotOf(bn))) != 0 || !inOp ==>
        && disk == old(disk) && ino == old(ino) && own == old(own) && logged == old(logged)
      ensures logged <= old(logged) + Bitmap(sb) + Some(Ref(disk, ino, i, NDIRECT)) + Some(addr)
      ensures addr != 0 ==> sb.datastart <= addr < |disk|
      ensures forall j :: 0 <= j < |ino| && j != i ==> ino[j] == old(ino)[j]
    {
      hide I.Recorded, Bit, SetBit, Owned, BitsOk, FileByte, Word, SetWord, BitmapBlock, Bitmap;
      if bn < NDIRECT {
        panicked, addr := FillAddr(i, bn, inOp);
      } else {
        var a: Word32;
        panicked, a := FillAddr(i, NDIRECT, inOp);
        ghost var d1, ino1, own1 := disk, ino, own;
        if a == 0 {
          return panicked, 0;
        }
        panicked, addr := FillEntry(i, a, bn - NDIRECT, inOp);
        GrewTrans(old(disk), old(ino), old(own), d1, ino1, own1, disk, ino, own);
      }
      if addr != 0 {
        InRange(sb, disk, ino, own, i, SlotOf(bn));
      }
    }

    /** One `bfree` of `itrunc`, of the slot it comes to after `n` others. */
    method FreeSlot(b: nat, ghost d0: seq<Block>, ghost ino0: seq<Inode>, ghost i: nat, ghost n: nat)
      returns (panicked: bool)
      requires SuperOk(sb, |disk|, |ino|) && Owned(sb, d0, ino0, own) && n < SLOTS && Kept()
      requires b == Ref(d0, ino0, i, Ranked(n)) && BitsOk(sb, disk, own.Keys - Freed(own, i, n))
      modifies this`disk, this`logged, this`trace
      ensures !panicked && |disk| == |old(disk)| && BitsOk(sb, disk, own.Keys - Freed(own, i, n + 1)) && Kept()
      ensures forall x: nat :: sb.datastart <= x < |disk| ==> disk[x] == old(disk)[x]
    {
      hide I.Recorded, BitsOk, Owned, Freed, BitmapBlock, Ref;
      FreedNext(sb, d0, ino0, own, i, n);
      panicked := false;
      if b != 0 {
        BitmapBelowData(sb, |disk|, |ino|, b);
        panicked := Bfree(b, own.Keys - Freed(own, i, n));
        assert own.Keys - Freed(own, i, n) - {b} == own.Keys - Freed(own, i, n + 1);
      } else {
        assert own.Keys - Freed(own, i, n) == own.Keys - Freed(own, i, n + 1);
      }
    }

    /** The first loop of `itrunc`: the direct blocks. */
    method FreeDirect(i: nat) returns (panicked: bool)
      requires Valid() && i < |ino|
      modifies this`disk, this`ino, this`logged, this`trace
      ensures !panicked && |disk| == |old(disk)| && BitsOk(sb, disk, own.Keys - Freed(own, i, NDIRECT)) && Kept()
      ensures forall x: nat :: sb.datastart <= x < |disk| ==> disk[x] == old(disk)[x]
      ensures ino == old(ino)[i := old(ino)[i].(addrs := seq(NDIRECT, _ => 0) + [old(ino)[i].addrs[NDIRECT]])]
    {
      hide I.Recorded, Owned, BitsOk, Freed;
      ghost var d0, ino0 := disk, ino;
      var n := 0;
      panicked := false;
      FreedNone(own, i);
      while n < NDIRECT
        invariant 0 <= n <= NDIRECT && !panicked && |disk| == |d0| && Kept()
        invariant BitsOk(sb, disk, own.Keys - Freed(own, i, n))
        invariant forall x: nat :: sb.datastart <= x < |disk| ==> disk[x] == d0[x]
        invariant |ino| == |ino0| && ino == ino0[i := ino0[i].(addrs := ino[i].addrs)]
        invariant forall k :: 0 <= k < n ==> ino[i].addrs[k] == 0
        invariant forall k :: n <= k <= NDIRECT ==> ino[i].addrs[k] == ino0[i].addrs[k]
      {
        panicked := FreeSlot(ino[i].addrs[n], d0, ino0, i, n);
        if ino[i].addrs[n] != 0 {
          ino := ino[i := ino[i].(addrs := ino[i].addrs[n := 0])];
        }
        n := n + 1;
      }
      assert ino[i].addrs == seq(NDIRECT, _ => 0) + [ino0[i].addrs[NDIRECT]];
    }

    /** The second half of `itrunc`: the entries of the indirect block, then the block itself. */
    method FreeIndirect(i: nat, ghost d0: seq<Block>, ghost ino0: seq<Inode>) returns (panicked: bool)
      requires SuperOk(sb, |disk|, |ino|) && |disk| == |d0| && Owned(sb, d0, ino0, own) && i < |ino| == |ino0| && Kept()
      requires BitsOk(sb, disk, own.Keys - Freed(own, i, NDIRECT)) && ino[i].addrs[NDIRECT] == ino0[i].addrs[NDIRECT]
      requires forall x: nat :: sb.datastart <= x < |disk| ==> disk[x] == d0[x]
      modifies this`disk, this`ino, this`logged, this`trace
      ensures !panicked && |disk| == |d0| && BitsOk(sb, disk, own.Keys - Freed(own, i, SLOTS)) && Kept()
      ensures forall x: nat :: sb.datastart <= x < |disk| ==> disk[x] == d0[x]
      ensures ino == old(ino)[i := old(ino)[i].(addrs := old(ino)[i].addrs[NDIRECT := 0])]
    {
      hide I.Recorded, Owned, BitsOk, Freed, Word;
      panicked := false;
      var a := ino[i].addrs[NDIRECT];
      if a != 0 {
        InRange(sb, d0, ino0, own, i, NDIRECT);
        var bp := disk[a];
        var j := 0;
        while j < NINDIRECT
          invariant 0 <= j <= NINDIRECT && !panicked && |disk| == |d0| && ino == old(ino) && Kept()
          invariant BitsOk(sb, disk, own.Keys - Freed(own, i, NDIRECT + j))
          invariant forall x: nat :: sb.datastart <= x < |disk| ==> disk[x] == d0[x]
        {
          assert Ref(d0, ino0, i, Ranked(NDIRECT + j)) == Word(bp, j);
          panicked := FreeSlot(Word(bp, j), d0, ino0, i, NDIRECT + j);
          j := j + 1;
        }
        panicked := FreeSlot(a, d0, ino0, i, MAXFILE);
        ino := ino[i := ino[i].(addrs := ino[i].addrs[NDIRECT := 0])];
      } else {
        FreedRest(sb, d0, ino0, own, i);
        assert ino[i].addrs[NDIRECT := 0] == ino[i].addrs;
      }
    }

    /** `iupdate`: copy the in-memory inode to disk. */
    method Iupdate(i: nat)
      requires SuperOk(sb, |disk|, |ino|) && i < |ino| == |dinodes| && Kept()
      modifies this`dinodes, this`logged, this`trace
      ensures dinodes == old(dinodes)[i := ino[i]] && logged == old(logged) + {InodeBlock(sb, i)} && Kept()
    {
      hide I.Recorded;
      ghost var t := dinodes[i := ino[i]];
      I.RecordedInode(sb, start, trace, disk, dinodes, t, i);
      dinodes := dinodes[i := ino[i]];
      logged := logged + {InodeBlock(sb, i)};
      trace := trace + [I.Write(InodeBlock(sb, i), I.TableBlock(t, i / IPB))];
    }

    /** `itrunc`: exactly the blocks of this inode become free, and no `bfree` panics. */
    method Itrunc(i: nat) returns (panicked: bool)
      requires Valid() && i < |ino|
      modifies this`disk, this`ino, this`dinodes, this`own, this`logged, this`trace
      ensures !panicked && Valid() && |ino| == |old(ino)| && dinodes == old(dinodes)[i := ino[i]]
      ensures old(AllWhole(disk, ino)) ==> AllWhole(disk, ino)
      ensures ino == old(ino)[i := old(ino)[i].(size := 0, addrs := ino[i].addrs)]
      ensures forall b :: b in own <==> b in old(own) && old(own)[b].inum != i
      ensures forall b :: b in own ==> own[b] == old(own)[b]
      ensures forall j: nat, x: nat :: FileByte(disk, ino, j, x) == if j == i then 0 else old(FileByte(disk, ino, j, x))
      ensures forall j: nat, k: nat :: Ref(disk, ino, j, k) == if j == i then 0 else old(Ref(disk, ino, j, k))
    {
      hide I.Recorded, BitsOk, Freed, Word, Ref, FileByte;
      ghost var d0, ino0, own0 := disk, ino, own;
      panicked := FreeDirect(i);
      panicked := FreeIndirect(i, d0, ino0);
      ino := ino[i := ino[i].(size := 0)];
      own := own - Freed(own, i, SLOTS);
      Iupdate(i);
      FreedAll(sb, d0, ino0, own0, i);
      Truncated(sb, d0, ino0, own0, i, ino);
      SameData(sb, d0, ino, own, disk);
      if AllWhole(d0, ino0) {
        TruncatedWhole(d0, ino0, disk, ino, i);
      }
    }

    /** `readi`. `good` is how many bytes the destination can take before a copy fails, and `inOp` whether
        some operation is outstanding. Inside one, reading a hole maps a zeroed block there, so a read can
        stop short on a full disk; it changes no file. Outside, mapping that block is a panic. */
    method Readi(i: nat, off: Word32, n: Word32, good: nat, inOp: bool)
      returns (panicked: bool, tot: int, dst: seq<Byte>)
      requires Valid() && i < |ino|
      modifies this`disk, this`ino, this`own, this`logged, this`trace
      ensures Valid() && OnlyGrew(old(disk), old(ino), old(own), disk, ino, own)
      ensures |ino| == |old(ino)| && forall j :: 0 <= j < |ino| && j != i ==> ino[j] == old(ino)[j]
      ensures panicked <==> !inOp && old(ReadPanics(sb, disk, ino, own, i, off, n, good))
      ensures off > old(ino)[i].size || off + n >= 0x1_0000_0000 ==> tot == 0 && dst == [] && logged == old(logged)
      ensures off <= old(ino)[i].size && off + n < 0x1_0000_0000 && !panicked ==>
                var m := Span(old(ino)[i].size, off, n);
                if tot == -1 then good < m
                else
                  && 0 <= tot <= m && tot <= good && dst == old(Contents(disk, ino, i))[off..off + tot]
                  && (tot < m ==> Full(sb, own))
      ensures !inOp || old(NoHoles(disk, ino, i)) ==>
                disk == old(disk) && ino == old(ino) && own == old(own) && logged == old(logged)
      ensures old(NoHoles(disk, ino, i)) ==>
                && !panicked
                && (off <= ino[i].size && off + n < 0x1_0000_0000 ==>
                      var m := Span(ino[i].size, off, n);
                      tot == if m <= good then m else -1)
    {
      hide I.Recorded, Owned, BitsOk, Ref, FileByte, Full, OnlyGrew, NoHoles, MeetsHole;
      GrewRefl(disk, ino, own);
      if off > ino[i].size || (off + n) % 0x1_0000_0000 < off {
        NothingMeets(disk, ino, i, off, good);
        return false, 0, [];
      }
      var m := if off + n > ino[i].size then ino[i].size - off else n;
      if NoHoles(disk, ino, i) {
        WholeReads(sb, disk, ino, own, i, off, n, good);
      }
      panicked, tot, dst := ReadLoop(i, off, m, good, inOp);
    }

    method ReadLoop(i: nat, off: nat, m: nat, good: nat, inOp: bool)
      returns (panicked: bool, tot: int, dst: seq<Byte>)
      requires Valid() && i < |ino| && off + m <= ino[i].size
      modifies this`disk, this`ino, this`own, this`logged, this`trace
      ensures Valid() && OnlyGrew(old(disk), old(ino), old(own), disk, ino, own)
      ensures |ino| == |old(ino)| && forall j :: 0 <= j < |ino| && j != i ==> ino[j] == old(ino)[j]
      ensures panicked <==> !inOp && !old(Full(sb, own)) && old(MeetsHole(disk, ino, i, off, m, good))
      ensures if tot == -1 then good < m else 0 <= tot <= m && tot <= good && |dst| == tot
      ensures !panicked && 0 <= tot < m ==> Full(sb, own)
      ensures tot != -1 ==> forall x :: 0 <= x < tot ==> dst[x] == old(FileByte(disk, ino, i, off + x))
      ensures !inOp || old(NoHoles(disk, ino, i)) ==>
                disk == old(disk) && ino == old(ino) && own == old(own) && logged == old(logged)
      ensures old(NoHoles(disk, ino, i)) && !panicked ==> tot == -1 || tot == m
    {
      hide I.Recorded, FsOk, Ref, FileByte, Full, OnlyGrew, SameBytes, KeptRefs, MeetsHole, Covered, SlotOf;
      dst := [];
      tot := 0;
      panicked := false;
      GrewRefl(disk, ino, own);
      CoveredNone(disk, ino, i, off);
      while tot < m
        invariant 0 <= tot <= m && tot <= good && |dst| == tot && !panicked
        invariant Valid() && OnlyGrew(old(disk), old(ino), old(own), disk, ino, own)
        invariant |ino| == |old(ino)| && ino[i].size == old(ino)[i].size
        invariant forall j :: 0 <= j < |ino| && j != i ==> ino[j] == old(ino)[j]
        invariant !inOp || old(NoHoles(disk, ino, i)) ==>
                    disk == old(disk) && ino == old(ino) && own == old(own) && logged == old(logged)
        invariant !inOp ==> Covered(disk, ino, i, off, tot)
        invariant forall x :: 0 <= x < tot ==> dst[x] == old(FileByte(disk, ino, i, off + x))
      {
        var bn, pos := (off + tot) / BSIZE, (off + tot) % BSIZE;
        assert bn * BSIZE <= off + tot < ino[i].size;
        ghost var d1, ino1, own1 := disk, ino, own;
        var addr: Word32;
        panicked, addr := Bmap(i, bn, inOp);
        GrewTrans(old(disk), old(ino), old(own), d1, ino1, own1, disk, ino, own);
        GrewFacts(old(disk), old(ino), old(own), disk, ino, own);
        if addr == 0 {
          if panicked {
            HoleMet(disk, ino, i, off, m, good, tot, bn);
          }
          return;
        }
        var k := if m - tot < BSIZE - pos then m - tot else BSIZE - pos;
        if !inOp {
          HoleNotMet(disk, ino, i, off, m, good, tot, bn, k);
        }
        if tot + k > good {
          return false, -1, dst;
        }
        BlockBytes(disk, ino, i, bn, addr);
        ReadChunk(old(disk), old(ino), disk, ino, i, bn, disk[addr], pos, k, off + tot);
        dst := dst + disk[addr][pos..pos + k];
        tot := tot + k;
      }
      if !inOp {
        CoveredMeetsNone(disk, ino, i, off, m, good);
      }
    }

    /** One iteration of `writei` after `bmap`: copy `t` into the block at `addr` and log it. */
    method StoreChunk(i: nat, bn: nat, addr: nat, pos: nat, t: seq<Byte>)
      requires Valid() && i < |ino| && bn < MAXFILE && 0 < addr < |disk| && sb.datastart <= addr
      requires Ref(disk, ino, i, SlotOf(bn)) == addr && pos + |t| <= BSIZE
      modifies this`disk, this`logged, this`trace
      ensures Valid() && SameRefs(old(disk), ino, disk, ino) && logged == old(logged) + {addr}
      ensures Stored(old(disk), ino, disk, ino, i, bn * BSIZE + pos, t)
    {
      hide I.Recorded, BitsOk, Ref, FileByte;
      ghost var d0 := disk;
      var data: Block := disk[addr][..pos] + t + disk[addr][pos + |t|..];
      InRange(sb, disk, ino, own, i, SlotOf(bn));
      BlockBytes(disk, ino, i, bn, addr);
      StoreData(sb, disk, ino, own, addr, data, i, bn);
      BitsElsewhere(sb, disk, own.Keys, addr, data);
      LogWrite(addr, data);
      ChunkStored(d0, disk, ino, i, bn, addr, pos, t, data);
    }

    /** `writei`. `good` is how many bytes of the source can be read before a copy fails. */
    method Writei(i: nat, off: Word32, src: seq<Byte>, good: nat) returns (r: int)
      requires Valid() && i < |ino| && |src| < 0x1_0000_0000
      modifies this`disk, this`ino, this`dinodes, this`own, this`logged, this`trace
      ensures Valid() && |ino| == |old(ino)|
      ensures old(AllWhole(disk, ino)) ==> AllWhole(disk, ino)
      ensures r == -1 <==> off > old(ino)[i].size || off + |src| > MAXBYTES
      ensures r == -1 ==> unchanged(this)
      ensures r != -1 ==>
                && 0 <= r <= Reach(off, |src|, good) <= |src| && (r < Reach(off, |src|, good) ==> Full(sb, own))
                && ino[i] == old(ino)[i].(size := if off + r > old(ino)[i].size then off + r else old(ino)[i].size,
                    addrs := ino[i].addrs)
                && (forall j :: 0 <= j < |ino| && j != i ==> ino[j] == old(ino)[j])
                && Stored(old(disk), old(ino), disk, ino, i, off, src[..r])
                && dinodes == old(dinodes)[i := ino[i]]
                && logged <= old(logged) + WriteSet(sb, disk, ino, i, off, |src|)
    {
      hide I.Recorded, Owned, BitsOk, Ref, FileByte, SameBytes, WriteSet, Mapped, NoHoles;
      if off > ino[i].size || (off + |src|) % 0x1_0000_0000 < off {
        return -1;
      }
      if off + |src| > MAXBYTES {
        return -1;
      }
      r := WriteLoop(i, off, src, good);
      ghost var ino1 := ino;
      if off + r > ino[i].size {
        ino := ino[i := ino[i].(size := off + r)];
      }
      Iupdate(i);
      Resize(sb, disk, ino1, ino, own, i);
      if old(AllWhole(disk, ino)) {
        StaysWhole(old(disk), old(ino), disk, ino1, ino, i, off, r);
      }
      SizeUnseen(old(disk), old(ino), disk, ino1, ino, i, off, src[..r]);
      WriteSetSame(sb, disk, ino1, ino, i, off, |src|);
    }

    method WriteLoop(i: nat, off: nat, src: seq<Byte>, good: nat) returns (tot: nat)
      requires Valid() && i < |ino| && off + |src| <= MAXBYTES
      modifies this`disk, this`ino, this`own, this`logged, this`trace
      ensures Valid() && SameShape(old(ino), ino) && KeptRefs(old(disk), old(ino), disk, ino)
      ensures tot <= Reach(off, |src|, good) <= |src| && (tot < Reach(off, |src|, good) ==> Full(sb, own))
      ensures Stored(old(disk), old(ino), disk, ino, i, off, src[..tot])
      ensures forall j :: 0 <= j < |ino| && j != i ==> ino[j] == old(ino)[j]
      ensures Mapped(disk, ino, i, off, tot)
      ensures logged <= old(logged) + WriteSet(sb, disk, ino, i, off, |src|)
    {
      hide I.Recorded, FsOk, Ref, FileByte, SameBytes, WriteSet, Bitmap, DataRefs, Mapped, Stored, Full, AtBlock;
      ReachBound(off, |src|, good);
      tot := 0;
      StoredNothing(disk, ino, i, off);
      ghost var d0, ino0 := disk, ino;
      while tot < |src|
        invariant 0 <= tot <= |src| && Valid() && |ino| == |ino0| && SameShape(ino0, ino)
        invariant KeptRefs(d0, ino0, disk, ino)
        invariant Stored(d0, ino0, disk, ino, i, off, src[..tot])
        invariant forall j :: 0 <= j < |ino| && j != i ==> ino[j] == ino0[j]
        invariant Mapped(disk, ino, i, off, tot)
        invariant logged <= old(logged) + WriteSet(sb, disk, ino, i, off, |src|)
        invariant tot <= good && (tot == |src| || AtBlock(off, tot))
      {
        var bn, pos := (off + tot) / BSIZE, (off + tot) % BSIZE;
        ghost var d1, ino1 := disk, ino;
        var _, addr := Bmap(i, bn, true);
        StoredGrew(d0, ino0, d1, ino1, disk, ino, i, off, src[..tot]);
        MappedKept(d1, ino1, disk, ino, i, off, tot);
        WriteSetGrows(sb, d1, ino1, disk, ino, i, off, |src|);
        InWriteSet(sb, disk, ino, i, off, |src|, bn);
        var m := if |src| - tot < BSIZE - pos then |src| - tot else BSIZE - pos;
        ReachNext(off, |src|, good, tot, m);
        if addr == 0 {
          break;
        }
        if tot + m > good {
          break;
        }
        ghost var d2 := disk;
        StoreChunk(i, bn, addr, pos, src[tot..tot + m]);
        StoredAgain(d0, ino0, d2, ino, disk, ino, i, off, src, tot, m);
        MappedNext(d2, ino, disk, i, off, tot, m, bn);
        WriteSetGrows(sb, d2, ino, disk, ino, i, off, |src|);
        InWriteSet(sb, disk, ino, i, off, |src|, bn);
        tot := tot + m;
      }
    }

    /** A new transaction: nothing logged yet. */
    ghost method BeginOp()
      requires Valid()
      modifies this`logged
      ensures Valid() && logged == {}
    {
      logged := {};
    }

    /** One transaction of `filewrite`. */
    method Chunk(i: nat, off: Word32, t: seq<Byte>, good: nat) returns (r: int)
      requires Valid() && i < |ino| && 0 < |t| <= CHUNK
      modifies this`disk, this`ino, this`dinodes, this`own, this`logged, this`trace
      ensures Valid() && |ino| == |old(ino)|
      ensures old(AllWhole(disk, ino)) ==> AllWhole(disk, ino)
      ensures r == -1 <==> off > old(ino)[i].size || off + |t| > MAXBYTES
      ensures r == -1 ==> disk == old(disk) && ino == old(ino) && dinodes == old(dinodes)
      ensures r != -1 ==> 0 <= r <= |t| && (r < |t| ==> good < |t| || Full(sb, own))
      ensures r != -1 ==> Stored(old(disk), old(ino), disk, ino, i, off, t[..r])
      ensures r != -1 ==> ino[i].size == if off + r > old(ino)[i].size then off + r else old(ino)[i].size
      ensures forall j :: 0 <= j < |ino| && j != i ==> ino[j] == old(ino)[j]
      ensures old(dinodes) == old(ino) ==> dinodes == ino
      ensures sb.size <= BPB ==> |logged| <= 7
    {
      hide Valid, Ref, FileByte, WriteSet, AllWhole, Stored, Full, Reach, AtBlock;
      BeginOp();
      ReachBound(off, |t|, good);
      r := Writei(i, off, t, good);
      ChunkFitsLog(sb, disk, ino, i, off, |t|, logged, r);
    }

    /** The inode branch of `filewrite`: `src` in chunks, each one transaction. `worst` is the largest
        number of blocks any of the transactions logged. */
    method FileWrite(i: nat, off: Word32, src: seq<Byte>, good: nat) returns (ret: int, off': nat, ghost worst: nat)
      requires Valid() && i < |ino| && |src| < 0x8000_0000
      modifies this`disk, this`ino, this`dinodes, this`own, this`logged, this`trace
      ensures Valid() && |ino| == |old(ino)|
      ensures old(AllWhole(disk, ino)) ==> AllWhole(disk, ino)
      ensures ret == |src| || ret == -1
      ensures sb.size <= BPB ==> worst <= 7
      ensures off <= off' <= off + |src| && (ret == |src| <==> off' == off + |src|)
      ensures Stored(old(disk), old(ino), disk, ino, i, off, src[..off' - off])
      ensures off' > off ==> ino[i].size == if off' > old(ino)[i].size then off' else old(ino)[i].size
      ensures off' == off ==> ino[i].size == old(ino)[i].size
      ensures forall j :: 0 <= j < |ino| && j != i ==> ino[j] == old(ino)[j]
      ensures old(dinodes) == old(ino) ==> dinodes == ino
      ensures ret == -1 ==> off > old(ino)[i].size || off + |src| > MAXBYTES || good < |src| || Full(sb, own)
    {
      hide Valid, Ref, FileByte, WriteSet, AllWhole, Stored, Full, Reach, AtBlock;
      var n := 0;
      off', worst := off, 0;
      StoredNothing(disk, ino, i, off);
      while n < |src|
        invariant 0 <= n <= |src| && off' == off + n && Valid() && |ino| == |old(ino)|
        invariant old(AllWhole(disk, ino)) ==> AllWhole(disk, ino)
        invariant Stored(old(disk), old(ino), disk, ino, i, off, src[..n])
        invariant (n > 0 ==> off' <= MAXBYTES) && (sb.size <= BPB ==> worst <= 7)
        invariant ino[i].size == if n > 0 && off' > old(ino)[i].size then off' else old(ino)[i].size
        invariant forall j :: 0 <= j < |ino| && j != i ==> ino[j] == old(ino)[j]
        invariant old(dinodes) == old(ino) ==> dinodes == ino
      {
        var n1 := |src| - n;
        if n1 > CHUNK {
          n1 := CHUNK;
        }
        ghost var d1, ino1 := disk, ino;
        var r := Chunk(i, off', src[n..n + n1], if good > n then good - n else 0);
        worst := if |logged| > worst then |logged| else worst;
        if r >= 0 {
          assert src[n..n + n1][..r] == src[n..n + r];
          StoredAgain(old(disk), old(ino), d1, ino1, disk, ino, i, off, src, n, r);
        }
        if r > 0 {
          off' := off' + r;
        }
        if r != n1 {
          break;
        }
        n := n + r;
      }
      ret := if n == |src| then |src| else -1;
    }

    /** What holds between operations: blocks and bitmap agree, the inodes on disk lag behind memory by
        filled holes at most, and free inodes own nothing. */
    ghost predicate AtRest()
      reads this
    {
      Valid() && Behind(dinodes, ino) && FreeOnesEmpty(ino)
    }

    /** The inode table on disk is the one in memory. */
    ghost predicate Synced()
      reads this
    {
      dinodes == ino
    }

    /** Memory and disk agree entirely and no file has a hole. */
    ghost predicate Whole()
      reads this
    {
      AllWhole(disk, ino) && Synced()
    }

    /** A `writei` to an allocated inode leaves the file system at rest, and the file is the old one
        with the bytes spliced in. */
    method Write(i: nat, off: Word32, src: seq<Byte>, good: nat) returns (r: int)
      requires AtRest() && i < |ino| && ino[i].kind != 0 && |src| < 0x1_0000_0000
      modifies this`disk, this`ino, this`dinodes, this`own, this`logged, this`trace
      ensures AtRest() && |ino| == |old(ino)| && (old(Whole()) ==> Whole()) && (old(Synced()) ==> Synced())
      ensures r == -1 <==> off > |old(Contents(disk, ino, i))| || off + |src| > MAXBYTES
      ensures r == -1 ==> unchanged(this)
      ensures r != -1 ==>
        0 <= r <= Reach(off, |src|, good) <= |src| && (r < Reach(off, |src|, good) ==> Full(sb, own))
      ensures r != -1 ==> Contents(disk, ino, i) == Splice(old(Contents(disk, ino, i)), off, src[..r])
      ensures forall j: nat :: j < |ino| && j != i ==> Contents(disk, ino, j) == old(Contents(disk, ino, j))
      ensures forall j :: 0 <= j < |ino| ==> ino[j].kind == old(ino)[j].kind
    {
      hide I.Recorded, FsOk, FileByte, NoHoles, WriteSet;
      r := Writei(i, off, src, good);
      if r != -1 {
        assert old(Whole()) ==> dinodes == ino;
        Spliced(old(disk), old(ino), disk, ino, i, off, src[..r]);
      }
    }

    /** `ialloc`: the first free inode, zeroed and given a type; 0 when there is none. */
    method Ialloc(kind: Word16) returns (inum: nat)
      requires AtRest() && kind != 0
      modifies this`dinodes, this`ino, this`logged, this`trace
      ensures AtRest() && |ino| == |old(ino)| && (old(Whole()) ==> Whole()) && (old(Synced()) ==> Synced())
      ensures inum == 0 ==> ino == old(ino) && forall j :: 1 <= j < |ino| ==> ino[j].kind != 0
      ensures inum != 0 ==>
        && inum < |ino| && old(ino)[inum].kind == 0 && ino == old(ino)[inum := Inode(kind, 0, 0, NO_ADDRS)]
      ensures inum != 0 ==> forall j :: 1 <= j < inum ==> old(ino)[j].kind != 0
      ensures SameBytes(disk, old(ino), disk, ino) && SameRefs(disk, old(ino), disk, ino)
    {
      hide I.Recorded, BitsOk, Owned, Word;
      inum := 1;
      while inum < |dinodes|
        invariant 1 <= inum && forall j :: 1 <= j < inum && j < |ino| ==> ino[j].kind != 0
      {
        if dinodes[inum].kind == 0 {
          ghost var ino0 := ino;
          ino := ino[inum := Inode(kind, 0, 0, NO_ADDRS)];
          Iupdate(inum);
          Reborn(sb, disk, ino0, ino, own, inum);
          return;
        }
        inum := inum + 1;
      }
      inum := 0;
    }

    /** The last-reference branch of `iput`: truncate, mark free, write back. */
    method FreeInode(i: nat) returns (panicked: bool)
      requires AtRest() && i < |ino|
      modifies this`disk, this`ino, this`dinodes, this`own, this`logged, this`trace
      ensures !panicked && AtRest() && |ino| == |old(ino)| && ino[i].kind == 0 && Contents(disk, ino, i) == []
      ensures (old(Whole()) ==> Whole()) && (old(Synced()) ==> Synced())
      ensures forall j :: 0 <= j < |ino| && j != i ==> ino[j] == old(ino)[j]
      ensures forall b :: b in own <==> b in old(own) && old(own)[b].inum != i
      ensures forall j: nat :: j < |ino| && j != i ==> Contents(disk, ino, j) == old(Contents(disk, ino, j))
    {
      hide I.Recorded, BitsOk, Owned, Word, FileByte;
      panicked := Itrunc(i);
      ghost var ino1 := ino;
      ino := ino[i := ino[i].(kind := 0)];
      Iupdate(i);
      Unkinded(sb, disk, ino1, ino, own, i);
      assert old(Whole()) ==> dinodes == ino;
    }

    /** A mounted image, such as `mkfs` builds. */
    constructor (sb: Super, disk: seq<Block>, inodes: seq<Inode>, ghost own: map<nat, Slot>)
      requires FsOk(sb, disk, inodes, own) && SizesOk(inodes) && FreeOnesEmpty(inodes)
      ensures AtRest() && this.sb == sb && this.disk == disk && ino == dinodes == inodes && this.own == own
    {
      this.sb, this.disk, this.own := sb, disk, own;
      ino, dinodes, logged := inodes, inodes, {};
      start, trace := I.Image(sb, disk, inodes), [];
    }

    /** `itrunc` of an allocated inode, as `open` and `exec` call it. */
    method Truncate(i: nat) returns (panicked: bool)
      requires AtRest() && i < |ino| && ino[i].kind != 0
      modifies this`disk, this`ino, this`dinodes, this`own, this`logged, this`trace
      ensures !panicked && AtRest() && |ino| == |old(ino)|
      ensures (old(Whole()) ==> Whole()) && (old(Synced()) ==> Synced())
      ensures Flat(disk, ino) == old(Flat(disk, ino))[i := File(old(ino)[i].kind, [])]
    {
      hide I.Recorded, BitsOk, Owned, FileByte;
      panicked := Itrunc(i);
      assert (old(Whole()) ==> dinodes == ino) && Contents(disk, ino, i) == [];
      FlatOne(old(disk), old(ino), disk, ino, i);
    }

    /** `readi` of an allocated inode: the flat files are as before, and so is everything else unless the
        read met a hole. */
    method Read(i: nat, off: Word32, n: Word32, good: nat, inOp: bool)
      returns (panicked: bool, tot: int, dst: seq<Byte>, off': nat)
      requires AtRest() && i < |ino| && ino[i].kind != 0
      modifies this`disk, this`ino, this`own, this`logged, this`trace
      ensures AtRest() && |ino| == |old(ino)| && (old(Whole()) ==> Whole() && !panicked)
      ensures !inOp && old(Synced()) ==> Synced()
      ensures panicked <==> !inOp && old(ReadPanics(sb, disk, ino, own, i, off, n, good))
      ensures panicked ==> disk == old(disk) && ino == old(ino) && own == old(own)
      ensures Flat(disk, ino) == old(Flat(disk, ino))
      ensures !panicked ==>
        ReadAnswer(old(Flat(disk, ino))[i].bytes, off, n, good, Answer(tot, dst),
                   Full(sb, own) && !old(AllWhole(disk, ino)))
      ensures !panicked ==> off' == off + (if tot > 0 then tot else 0)
    {
      hide I.Recorded, FsOk, FileByte, SameBytes, NoHoles, ReadPanics;
      off' := off;
      panicked, tot, dst := Readi(i, off, n, good, inOp);
      ContentsSize(old(disk), old(ino), i);
      assert old(AllWhole(disk, ino)) ==> old(NoHoles(disk, ino, i));
      if tot > 0 {
        off' := off + tot;
      } else if tot < 0 {
        dst := [];
      }
      FlatGrown(old(disk), old(ino), old(own), disk, ino, own);
      StillBehind(old(disk), old(ino), old(dinodes), disk, ino);
    }

    ghost function Now(): Snapshot
      reads this
    {
      Snapshot(disk, ino, own, dinodes)
    }

    /** One operation; the kernel issues none that names no file. */
    method Perform(op: Op) returns (panicked: bool, a: Answer)
      requires AtRest()
      requires op.OpWrite? ==> |op.src| < 0x1_0000_0000
      modifies this`disk, this`ino, this`dinodes, this`own, this`logged, this`start, this`trace
      ensures AtRest() && |ino| == |old(ino)| && (old(Whole()) ==> Whole() && !panicked)
      ensures old(Synced()) && !op.MayFill() ==> Synced()
      ensures panicked <==> old(Now()).Panics(sb, op)
      ensures panicked ==> Now() == old(Now())
      ensures !panicked ==> old(Now()).Steps(sb, op, a, Now())
      ensures I.Written(old(Now()).Image(sb), trace) == Now().Image(sb)
    {
      hide I.Image, I.Written, FsOk, FileByte, Contents, AllWhole, Splice, Behind, ReadPanics;
      panicked, a := false, Answer(-1, []);
      start, trace := I.Image(sb, disk, dinodes), [];
      I.NothingRecorded(sb, disk, dinodes);
      ghost var f := Flat(disk, ino);
      match op
      case OpRead(i, off, n, good, inOp) =>
        if i < |ino| && ino[i].kind != 0 {
          var tot, dst, off';
          panicked, tot, dst, off' := Read(i, off, n, good, inOp);
          a := Answer(tot, dst);
        }
      case OpWrite(i, off, src, good) =>
        if i < |ino| && ino[i].kind != 0 {
          var r := Write(i, off, src, good);
          a := Answer(r, []);
          ReachBound(off, |src|, good);
          if r != -1 {
            FlatOne(old(disk), old(ino), disk, ino, i);
            assert FlatWrite(f, i, off, src[..r], Flat(disk, ino));
          }
        }
      case OpCreate(kind) =>
        a := Answer(0, []);
        if kind != 0 {
          var inum := Ialloc(kind);
          a := Answer(inum, []);
          if inum != 0 {
            FlatCreated(disk, old(ino), ino, inum);
            assert f[inum].kind == 0;
          }
        }
      case OpTruncate(i) =>
        if i < |ino| && ino[i].kind != 0 {
          panicked := Truncate(i);
        }
      case OpRemove(i) =>
        if i < |ino| {
          panicked := FreeInode(i);
          FlatOne(old(disk), old(ino), disk, ino, i);
        }
    }

    /** Any sequence of operations, up to the first panic: `done` of them complete, keep blocks and inodes
        in order, and do to the flat files what `FlatStep` says at every step, with the
        answers it allows. The run stops early exactly
        where a read outside every transaction comes to a hole, so never when no file has one. */
    method Run(ops: seq<Op>)
      returns (panicked: bool, done: nat, answers: seq<Answer>, ghost hist: seq<Snapshot>,
               ghost txns: seq<seq<I.Write>>)
      requires AtRest()
      requires forall k :: 0 <= k < |ops| && ops[k].OpWrite? ==> |ops[k].src| < 0x1_0000_0000
      modifies this`disk, this`ino, this`dinodes, this`own, this`logged, this`start, this`trace
      ensures AtRest() && (old(Whole()) ==> Whole() && !panicked)
      ensures done <= |ops| && (panicked <==> done < |ops|)
      ensures |answers| == done && |hist| == done + 1 && hist[0] == old(Now()) && hist[done] == Now()
      ensures forall k :: 0 <= k < done ==>
        !hist[k].Panics(sb, ops[k]) && hist[k].Steps(sb, ops[k], answers[k], hist[k + 1])
      ensures panicked ==> hist[done].Panics(sb, ops[done])
      ensures |txns| == done && forall k :: 0 <= k < done ==>
        I.Written(hist[k].Image(sb), txns[k]) == hist[k + 1].Image(sb)
      ensures forall k :: 0 <= k <= done ==> |hist[k].ino| == |old(ino)|
      ensures old(Whole()) ==> forall k :: 0 <= k <= done ==> hist[k].Sound(sb) && AllWhole(hist[k].disk, hist[k].ino)
      ensures old(Synced()) && (forall k :: 0 <= k < |ops| ==> !ops[k].MayFill()) ==>
        forall k :: 0 <= k <= done ==> hist[k].Sound(sb)
    {
      hide I.Recorded, FsOk, FileByte, Contents, AllWhole, Flat, Behind, Snapshot.Panics, Snapshot.Steps,
           Snapshot.Image, I.Written, SizesOk, FreeOnesEmpty;
      panicked, done, answers, hist, txns := false, 0, [], [Now()], [];
      while done < |ops|
        invariant done <= |ops| && !panicked && AtRest() && (old(Whole()) ==> Whole())
        invariant |answers| == done && |hist| == done + 1 && hist[0] == old(Now()) && hist[done] == Now()
        invariant forall k :: 0 <= k < done ==>
          !hist[k].Panics(sb, ops[k]) && hist[k].Steps(sb, ops[k], answers[k], hist[k + 1])
        invariant |txns| == done && forall k :: 0 <= k < done ==>
          I.Written(hist[k].Image(sb), txns[k]) == hist[k + 1].Image(sb)
        invariant forall k :: 0 <= k <= done ==> |hist[k].ino| == |old(ino)|
        invariant old(Whole()) ==>
          forall k :: 0 <= k <= done ==> hist[k].Sound(sb) && AllWhole(hist[k].disk, hist[k].ino)
        invariant old(Synced()) && (forall k :: 0 <= k < |ops| ==> !ops[k].MayFill()) ==>
          Synced() && forall k :: 0 <= k <= done ==> hist[k].Sound(sb)
      {
        var a;
        panicked, a := Perform(ops[done]);
        if panicked {
          return;
        }
        hist, txns := hist + [Now()], txns + [trace];
        answers, done := answers + [a], done + 1;
      }
    }
  }

  lemma NotOwned(sb: Super, d: seq<Block>, ino: seq<Inode>, own: map<nat, Slot>, b: nat)
    requires Owned(sb, d, ino, own) && b < sb.datastart
    ensures b !in own
  {
  }
}
