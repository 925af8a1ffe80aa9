/** What a disk and an inode table mean: which block belongs to which slot of which inode, and the
    bytes of every file. */
module FsLayout {
  import opened FsFormat

  /** The part of the superblock that matters here, and the first data block. */
  datatype Super = Super(size: nat, bmapstart: nat, inodestart: nat, datastart: nat)

  ghost predicate SuperOk(sb: Super, blocks: nat, inodes: nat) {
    && 0 < sb.inodestart && sb.inodestart + inodes / IPB < sb.bmapstart
    && sb.bmapstart + (sb.size - 1) / BPB < sb.datastart <= sb.size == blocks < 0x1_0000_0000
  }

  /** `addrs`: twelve direct blocks and the indirect block. */
  type Addrs = a: seq<Word32> | |a| == NDIRECT + 1 witness seq(NDIRECT + 1, _ => 0)

  datatype Inode = Inode(kind: Word16, nlink: Word16, size: nat, addrs: Addrs)

  const T_DIR: nat := 1
  const IPB: nat := 16
  const SLOTS: nat := 269    // NDIRECT + 1 + NINDIRECT
  const MAXBYTES: nat := MAXFILE * BSIZE

  /** Slots 0 to 11 are direct, 12 is the indirect block, the rest are its entries. */
  datatype Slot = Slot(inum: nat, idx: nat)

  function SlotOf(bn: nat): nat { if bn < NDIRECT then bn else bn + 1 }

  /** The block number a slot holds, 0 for none. */
  ghost function Ref(d: seq<Block>, ino: seq<Inode>, i: nat, k: nat): nat {
    if i >= |ino| || k >= SLOTS then 0
    else if k <= NDIRECT then ino[i].addrs[k]
    else if 0 < ino[i].addrs[NDIRECT] < |d| then Word(d[ino[i].addrs[NDIRECT]], k - NDIRECT - 1)
    else 0
  }

  predicate BitOf(sb: Super, d: seq<Block>, b: nat)
    requires sb.bmapstart + b / BPB < |d|
  {
    Bit(d[sb.bmapstart + b / BPB], b % BPB)
  }

  /** `own` names the one slot that refers to each allocated data block. */
  ghost predicate Owned(sb: Super, d: seq<Block>, ino: seq<Inode>, own: map<nat, Slot>) {
    && (forall i: nat, k: nat :: Ref(d, ino, i, k) != 0 ==>
          Ref(d, ino, i, k) in own && own[Ref(d, ino, i, k)] == Slot(i, k))
    && (forall b :: b in own ==> 0 < sb.datastart <= b < sb.size && Ref(d, ino, own[b].inum, own[b].idx) == b)
  }

  /** A bit is set exactly for metadata and for the blocks in `inUse`. */
  ghost predicate BitsOk(sb: Super, d: seq<Block>, inUse: set<nat>) {
    && sb.bmapstart + (sb.size - 1) / BPB < |d|
    && forall b: nat :: b < sb.size ==> (BitOf(sb, d, b) <==> b < sb.datastart || b in inUse)
  }

  /** Byte `x` of file `i`; a hole reads as zero. */
  ghost function FileByte(d: seq<Block>, ino: seq<Inode>, i: nat, x: nat): Byte {
    var r := Ref(d, ino, i, SlotOf(x / BSIZE));
    if 0 < r < |d| then d[r][x % BSIZE] else 0
  }

  /** Every file reads the same, holes included. */
  ghost predicate SameBytes(d: seq<Block>, ino: seq<Inode>, d': seq<Block>, ino': seq<Inode>) {
    forall i: nat, x: nat :: FileByte(d', ino', i, x) == FileByte(d, ino, i, x)
  }

  ghost predicate SameRefs(d: seq<Block>, ino: seq<Inode>, d': seq<Block>, ino': seq<Inode>) {
    forall i: nat, k: nat :: Ref(d', ino', i, k) == Ref(d, ino, i, k)
  }

  /** A reference that exists stays. */
  ghost predicate KeptRefs(d: seq<Block>, ino: seq<Inode>, d': seq<Block>, ino': seq<Inode>) {
    forall i: nat, k: nat :: Ref(d, ino, i, k) != 0 ==> Ref(d', ino', i, k) == Ref(d, ino, i, k)
  }

  // --- One block changes --------------------------------------------------------------------------

  /** A block nobody refers to can change unnoticed. */
  lemma StoreElsewhere(sb: Super, d: seq<Block>, ino: seq<Inode>, own: map<nat, Slot>, b: nat, data: Block)
    requires Owned(sb, d, ino, own) && b < |d| && b !in own
    ensures var d' := d[b := data]; SameRefs(d, ino, d', ino) && SameBytes(d, ino, d', ino) && Owned(sb, d', ino, own)
  {
    hide Word;
    var d' := d[b := data];
    forall i: nat, k: nat
      ensures Ref(d', ino, i, k) == Ref(d, ino, i, k)
    {
      if i < |ino| && NDIRECT < k < SLOTS {
        assert Ref(d, ino, i, NDIRECT) == ino[i].addrs[NDIRECT];
      }
    }
  }

  /** Storing into a data block changes that block of that file and nothing else. */
  lemma StoreData(sb: Super, d: seq<Block>, ino: seq<Inode>, own: map<nat, Slot>, b: nat, data: Block, i: nat, bn: nat)
    requires Owned(sb, d, ino, own) && b < |d| && b in own && own[b] == Slot(i, SlotOf(bn)) && bn < MAXFILE
    ensures var d' := d[b := data];
            && SameRefs(d, ino, d', ino) && Owned(sb, d', ino, own)
            && forall j: nat, x: nat :: FileByte(d', ino, j, x) ==
                              if j == i && x / BSIZE == bn then data[x % BSIZE] else FileByte(d, ino, j, x)
  {
    hide Word;
    var d' := d[b := data];
    assert Ref(d, ino, i, SlotOf(bn)) == b;
    forall j: nat, k: nat
      ensures Ref(d', ino, j, k) == Ref(d, ino, j, k)
    {
      if j < |ino| && NDIRECT < k < SLOTS {
        assert Ref(d, ino, j, NDIRECT) == ino[j].addrs[NDIRECT];
      }
    }
    forall j: nat, x: nat
      ensures FileByte(d', ino, j, x) == if j == i && x / BSIZE == bn then data[x % BSIZE] else FileByte(d, ino, j, x)
    {
      var r := Ref(d, ino, j, SlotOf(x / BSIZE));
      assert r == b <==> j == i && x / BSIZE == bn;
    }
  }

  // --- A fresh block is attached ------------------------------------------------------------------

  /** One reference is added, to a block that had none. */
  ghost predicate RefAdded(d: seq<Block>, ino: seq<Inode>, d': seq<Block>, ino': seq<Inode>, i: nat, k: nat, b: nat) {
    forall j: nat, l: nat :: Ref(d', ino', j, l) == if j == i && l == k then b else Ref(d, ino, j, l)
  }

  lemma OwnedAdd(sb: Super, d: seq<Block>, ino: seq<Inode>, own: map<nat, Slot>, d': seq<Block>, ino': seq<Inode>,
                 i: nat, k: nat, b: nat)
    requires Owned(sb, d, ino, own) && RefAdded(d, ino, d', ino', i, k, b)
    requires Ref(d, ino, i, k) == 0 && b !in own && 0 < sb.datastart <= b < sb.size
    ensures Owned(sb, d', ino', own[b := Slot(i, k)]) && KeptRefs(d, ino, d', ino') && Ref(d', ino', i, k) == b
  {
    hide Ref;
    var own' := own[b := Slot(i, k)];
    forall j: nat, l: nat | Ref(d', ino', j, l) != 0
      ensures Ref(d', ino', j, l) in own' && own'[Ref(d', ino', j, l)] == Slot(j, l)
    {
      assert !(j == i && l == k) ==> Ref(d', ino', j, l) == Ref(d, ino, j, l);
    }
  }

  /** Putting a zeroed block into an empty slot of the inode itself. */
  lemma Attach(sb: Super, d: seq<Block>, ino: seq<Inode>, own: map<nat, Slot>, i: nat, k: nat, b: Word32)
    requires Owned(sb, d, ino, own) && i < |ino| && k <= NDIRECT && Ref(d, ino, i, k) == 0
    requires 0 < sb.datastart <= b < sb.size && sb.size <= |d| && b !in own && d[b] == ZERO_BLOCK
    ensures var ino' := ino[i := ino[i].(addrs := ino[i].addrs[k := b])];
            && Owned(sb, d, ino', own[b := Slot(i, k)]) && KeptRefs(d, ino, d, ino') && Ref(d, ino', i, k) == b
            && RefAdded(d, ino, d, ino', i, k, b)
            && SameBytes(d, ino, d, ino')
  {
    hide Word;
    var ino' := ino[i := ino[i].(addrs := ino[i].addrs[k := b])];
    forall j: nat, l: nat
      ensures Ref(d, ino', j, l) == if j == i && l == k then b else Ref(d, ino, j, l)
    {
      if j == i && k == NDIRECT && NDIRECT < l < SLOTS {
        WordOfZero(l - NDIRECT - 1);
        assert Ref(d, ino, i, NDIRECT) == ino[i].addrs[NDIRECT];
      }
    }
    OwnedAdd(sb, d, ino, own, d, ino', i, k, b);
    forall j: nat, x: nat
      ensures FileByte(d, ino', j, x) == FileByte(d, ino, j, x)
    {
    }
  }

  /** Putting a zeroed block into an empty entry of the indirect block. */
  lemma AttachIndirect(sb: Super, d: seq<Block>, ino: seq<Inode>, own: map<nat, Slot>, i: nat, k: nat, b: Word32)
    requires Owned(sb, d, ino, own) && i < |ino| && NDIRECT < k < SLOTS && Ref(d, ino, i, k) == 0
    requires 0 < ino[i].addrs[NDIRECT] < |d|
    requires 0 < sb.datastart <= b < sb.size && sb.size <= |d| && b !in own && d[b] == ZERO_BLOCK
    ensures var a: Word32 := ino[i].addrs[NDIRECT];
            var d' := d[a := SetWord(d[a], k - NDIRECT - 1, b)];
            && Owned(sb, d', ino, own[b := Slot(i, k)]) && KeptRefs(d, ino, d', ino) && Ref(d', ino, i, k) == b
            && RefAdded(d, ino, d', ino, i, k, b)
            && SameBytes(d, ino, d', ino)
  {
    hide Word, SetWord;
    var a := ino[i].addrs[NDIRECT];
    var d' := d[a := SetWord(d[a], k - NDIRECT - 1, b)];
    assert Ref(d, ino, i, NDIRECT) == a;
    forall j: nat, l: nat
      ensures Ref(d', ino, j, l) == if j == i && l == k then b else Ref(d, ino, j, l)
    {
      if j < |ino| && NDIRECT < l < SLOTS {
        assert Ref(d, ino, j, NDIRECT) == ino[j].addrs[NDIRECT];
        if j == i {
          WordOfSet(d[a], k - NDIRECT - 1, b, l - NDIRECT - 1);
        }
      }
    }
    OwnedAdd(sb, d, ino, own, d', ino, i, k, b);
    forall j: nat, x: nat
      ensures FileByte(d', ino, j, x) == FileByte(d, ino, j, x)
    {
      var r := Ref(d, ino, j, SlotOf(x / BSIZE));
      assert r != a;
    }
  }

  // --- The bitmap ---------------------------------------------------------------------------------

  ghost function BitmapBlock(sb: Super, b: nat): nat { sb.bmapstart + b / BPB }

  lemma BitmapBelowData(sb: Super, blocks: nat, inodes: nat, b: nat)
    requires SuperOk(sb, blocks, inodes) && b < sb.size
    ensures 0 < BitmapBlock(sb, b) < sb.datastart
  {
    assert b / BPB <= (sb.size - 1) / BPB;
  }

  lemma BitsSet(sb: Super, d: seq<Block>, inUse: set<nat>, b: nat, on: bool)
    requires BitsOk(sb, d, inUse) && sb.datastart <= b < sb.size && BitmapBlock(sb, b) < |d|
    ensures var m := BitmapBlock(sb, b);
            BitsOk(sb, d[m := SetBit(d[m], b % BPB, on)], if on then inUse + {b} else inUse - {b})
  {
    hide Bit, SetBit;
    var m := BitmapBlock(sb, b);
    var d' := d[m := SetBit(d[m], b % BPB, on)];
    forall x: nat | x < sb.size
      ensures BitOf(sb, d', x) == if x == b then on else BitOf(sb, d, x)
    {
      assert x / BPB <= (sb.size - 1) / BPB;
      if BitmapBlock(sb, x) == m {
        BitOfSet(d[m], b % BPB, on, x % BPB);
      }
    }
  }

  lemma BitsElsewhere(sb: Super, d: seq<Block>, inUse: set<nat>, b: nat, data: Block)
    requires BitsOk(sb, d, inUse) && sb.bmapstart + (sb.size - 1) / BPB < sb.datastart <= b < |d|
    ensures BitsOk(sb, d[b := data], inUse)
  {
    hide Bit;
    var d' := d[b := data];
    forall x: nat | x < sb.size
      ensures BitOf(sb, d', x) == BitOf(sb, d, x)
    {
      assert x / BPB <= (sb.size - 1) / BPB;
    }
  }

  // --- Truncation ---------------------------------------------------------------------------------

  /** The order in which `itrunc` frees slots: direct blocks, indirect entries, the indirect block. */
  function Rank(idx: nat): nat { if idx < NDIRECT then idx else if idx == NDIRECT then MAXFILE else idx - 1 }

  function Ranked(n: nat): nat { if n < NDIRECT then n else if n == MAXFILE then NDIRECT else n + 1 }

  /** The blocks of inode `i` in the first `n` slots of that order. */
  ghost function Freed(own: map<nat, Slot>, i: nat, n: nat): set<nat> {
    set b | b in own && own[b].inum == i && Rank(own[b].idx) < n
  }

  lemma FreedNext(sb: Super, d: seq<Block>, ino: seq<Inode>, own: map<nat, Slot>, i: nat, n: nat)
    requires Owned(sb, d, ino, own) && n < SLOTS
    ensures var r := Ref(d, ino, i, Ranked(n));
            && Freed(own, i, n + 1) == Freed(own, i, n) + (if r != 0 then {r} else {})
            && (r != 0 ==> r in own && r !in Freed(own, i, n) && sb.datastart <= r < sb.size)
  {
    hide Word;
    var r := Ref(d, ino, i, Ranked(n));
    forall b | b in Freed(own, i, n + 1) && b !in Freed(own, i, n)
      ensures b == r
    {
      assert Rank(own[b].idx) == n && own[b].idx == Ranked(n);
    }
  }

  /** After all slots the inode owns nothing, and everything else is as before. */
  lemma Truncated(sb: Super, d: seq<Block>, ino: seq<Inode>, own: map<nat, Slot>, i: nat, ino': seq<Inode>)
    requires Owned(sb, d, ino, own) && i < |ino| == |ino'| && (forall k :: 0 <= k <= NDIRECT ==> ino'[i].addrs[k] == 0)
    requires forall j :: 0 <= j < |ino| && j != i ==> ino'[j] == ino[j]
    ensures Owned(sb, d, ino', own - Freed(own, i, SLOTS))
    ensures (own - Freed(own, i, SLOTS)).Keys == own.Keys - Freed(own, i, SLOTS)
    ensures forall j: nat, x: nat :: FileByte(d, ino', j, x) == if j == i then 0 else FileByte(d, ino, j, x)
    ensures forall j: nat, k: nat :: Ref(d, ino', j, k) == if j == i then 0 else Ref(d, ino, j, k)
  {
    hide Word;
    forall j: nat, k: nat
      ensures Ref(d, ino', j, k) == if j == i then 0 else Ref(d, ino, j, k)
    {
    }
    forall b | b in own
      ensures b in Freed(own, i, SLOTS) <==> own[b].inum == i
    {
      assert Ref(d, ino, own[b].inum, own[b].idx) == b;
    }
  }
}
