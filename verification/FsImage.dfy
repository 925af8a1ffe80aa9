/** What lies on the disk, block by block, as the log moves it: inodes packed sixteen to a block, every
    other block as it is. */
module FsImage {
  import opened FsFormat
  import opened FsLayout
  import L = LogDisk

  /** Word `f` of the sixteen an inode takes; the device numbers share words with type and link count. */
  function InodeWord(x: Inode, f: nat): Word32
    requires f < 16
  {
    if f == 0 then x.kind
    else if f == 1 then 0x1_0000 * x.nlink
    else if f == 2 then x.size % 0x1_0000_0000
    else x.addrs[f - 3]
  }

  function InodeOf(w: seq<int>): Inode
    requires |w| == 16
  {
    Inode(w[0] % 0x1_0000, w[1] / 0x1_0000 % 0x1_0000, w[2] % 0x1_0000_0000,
          seq(NDIRECT + 1, k requires 0 <= k <= NDIRECT => w[k + 3] % 0x1_0000_0000))
  }

  lemma InodeRound(x: Inode, w: seq<int>)
    requires |w| == 16 && x.size < 0x1_0000_0000 && forall f :: 0 <= f < 16 ==> w[f] == InodeWord(x, f)
    ensures InodeOf(w) == x
  {
    assert w[0] == x.kind && w[1] == 0x1_0000 * x.nlink && w[2] == x.size;
    forall k | 0 <= k <= NDIRECT
      ensures w[k + 3] % 0x1_0000_0000 == x.addrs[k]
    {
      assert w[k + 3] == InodeWord(x, k + 3);
    }
    assert InodeOf(w).addrs == x.addrs;
  }

  function WordsOf(b: Block): L.Block { seq(NINDIRECT, k requires 0 <= k < NINDIRECT => Word(b, k)) }

  function Digit(w: int, k: nat): Byte
    requires k < 4
  {
    if k == 0 then w % 256 else if k == 1 then w / 256 % 256 else if k == 2 then w / 65536 % 256 else w / 16777216 % 256
  }

  function BytesOf(w: L.Block): Block {
    seq(BSIZE, x requires 0 <= x < BSIZE => Digit(w[x / 4], x % 4))
  }

  lemma DigitsOfWord(b0: Byte, b1: Byte, b2: Byte, b3: Byte, w: int)
    requires w == b0 + 256 * b1 + 65536 * b2 + 16777216 * b3
    ensures Digit(w, 0) == b0 && Digit(w, 1) == b1 && Digit(w, 2) == b2 && Digit(w, 3) == b3
  {
    assert w / 256 == b1 + 256 * b2 + 65536 * b3;
    assert w / 65536 == b2 + 256 * b3;
    assert w / 16777216 == b3;
  }

  lemma BytesRound(b: Block)
    ensures BytesOf(WordsOf(b)) == b
  {
    var w := WordsOf(b);
    forall x | 0 <= x < BSIZE
      ensures Digit(w[x / 4], x % 4) == b[x]
    {
      var k := x / 4;
      DigitsOfWord(b[4 * k], b[4 * k + 1], b[4 * k + 2], b[4 * k + 3], w[k]);
      assert x == 4 * k + x % 4;
    }
  }

  /** Inode block `x` of the table, counted from its start. */
  function TableBlock(t: seq<Inode>, x: nat): L.Block {
    seq(L.BLOCK_WORDS, k requires 0 <= k < L.BLOCK_WORDS =>
      if IPB * x + k / 16 < |t| then InodeWord(t[IPB * x + k / 16], k % 16) else 0)
  }

  function ImageBlock(sb: Super, d: seq<Block>, t: seq<Inode>, x: nat): L.Block
    requires x < |d|
  {
    if sb.inodestart <= x < sb.bmapstart then TableBlock(t, x - sb.inodestart) else WordsOf(d[x])
  }

  /** The whole disk: `d`, with the inode table `t` in its place. */
  function Image(sb: Super, d: seq<Block>, t: seq<Inode>): seq<L.Block> {
    seq(|d|, x requires 0 <= x < |d| => ImageBlock(sb, d, t, x))
  }

  function DiskOf(img: seq<L.Block>): seq<Block> { seq(|img|, x requires 0 <= x < |img| => BytesOf(img[x])) }

  function TableOf(sb: Super, n: nat, img: seq<L.Block>): seq<Inode>
    requires n > 0 ==> sb.inodestart + (n - 1) / IPB < |img|
  {
    seq(n, i requires 0 <= i < n =>
      InodeOf(img[sb.inodestart + i / IPB][i % IPB * 16..i % IPB * 16 + 16]))
  }

  /** The image reads back as what it was made from. */
  lemma ImageRound(sb: Super, d: seq<Block>, t: seq<Inode>, img: seq<L.Block>)
    requires SuperOk(sb, |d|, |t|) && |img| == |d| && forall i :: 0 <= i < |t| ==> t[i].size < 0x1_0000_0000
    requires forall x: nat :: sb.inodestart <= x < |d| ==> img[x] == ImageBlock(sb, d, t, x)
    ensures TableOf(sb, |t|, img) == t && |DiskOf(img)| == |d|
    ensures forall x: nat :: sb.bmapstart <= x < |d| ==> DiskOf(img)[x] == d[x]
  {
    hide InodeOf, InodeWord, WordsOf, BytesOf;
    forall i: nat | i < |t|
      ensures TableOf(sb, |t|, img)[i] == t[i]
    {
      TableRound(sb, d, t, img, i);
    }
    forall x: nat | sb.bmapstart <= x < |d|
      ensures DiskOf(img)[x] == d[x]
    {
      BytesRound(d[x]);
    }
  }

  lemma TableRound(sb: Super, d: seq<Block>, t: seq<Inode>, img: seq<L.Block>, i: nat)
    requires SuperOk(sb, |d|, |t|) && |img| == |d| && i < |t| && t[i].size < 0x1_0000_0000
    requires forall x: nat :: sb.inodestart <= x < |d| ==> img[x] == ImageBlock(sb, d, t, x)
    ensures TableOf(sb, |t|, img)[i] == t[i]
  {
    hide InodeOf, InodeWord, WordsOf;
    var x, k := sb.inodestart + i / IPB, i % IPB;
    assert i / IPB <= |t| / IPB;
    assert img[x] == TableBlock(t, i / IPB);
    var w := img[x][k * 16..k * 16 + 16];
    forall f | 0 <= f < 16
      ensures w[f] == InodeWord(t[i], f)
    {
      assert (k * 16 + f) / 16 == k && (k * 16 + f) % 16 == f;
    }
    InodeRound(t[i], w);
  }

  // --- Writes, one block at a time ------------------------------------------------------------------

  datatype Write = Write(b: nat, data: L.Block)

  ghost function Written(start: seq<L.Block>, ws: seq<Write>): (r: seq<L.Block>)
    ensures |r| == |start|
  {
    if ws == [] then start
    else
      var r, w := Written(start, ws[..|ws| - 1]), ws[|ws| - 1];
      if w.b < |r| then r[w.b := w.data] else r
  }

  /** The writes so far took the disk from `start` to where it is. */
  ghost predicate Recorded(sb: Super, start: seq<L.Block>, ws: seq<Write>, d: seq<Block>, t: seq<Inode>) {
    Written(start, ws) == Image(sb, d, t)
  }

  lemma NothingRecorded(sb: Super, d: seq<Block>, t: seq<Inode>)
    ensures Recorded(sb, Image(sb, d, t), [], d, t)
  {
  }

  lemma RecordedBlock(sb: Super, start: seq<L.Block>, ws: seq<Write>, d: seq<Block>, t: seq<Inode>, b: nat, data: Block)
    requires Recorded(sb, start, ws, d, t) && b < |d| && sb.bmapstart <= b
    ensures Recorded(sb, start, ws + [Write(b, WordsOf(data))], d[b := data], t)
  {
    hide WordsOf, TableBlock;
    assert (ws + [Write(b, WordsOf(data))])[..|ws|] == ws;
    assert Image(sb, d[b := data], t) == Image(sb, d, t)[b := WordsOf(data)];
  }

  lemma RecordedInode(sb: Super, start: seq<L.Block>, ws: seq<Write>, d: seq<Block>, t: seq<Inode>, t': seq<Inode>,
                      i: nat)
    requires SuperOk(sb, |d|, |t|) && Recorded(sb, start, ws, d, t) && i < |t| == |t'| && t' == t[i := t'[i]]
    ensures Recorded(sb, start, ws + [Write(sb.inodestart + i / IPB, TableBlock(t', i / IPB))], d, t')
  {
    hide WordsOf, InodeWord;
    var x := sb.inodestart + i / IPB;
    assert i / IPB <= |t| / IPB;
    var ws' := ws + [Write(x, TableBlock(t', i / IPB))];
    assert ws'[..|ws|] == ws;
    forall y: nat | y < |d|
      ensures ImageBlock(sb, d, t', y) == Image(sb, d, t)[x := TableBlock(t', i / IPB)][y]
    {
      if y != x && sb.inodestart <= y < sb.bmapstart {
        SameTableBlock(t, t', i, y - sb.inodestart);
      }
    }
    assert Image(sb, d, t') == Image(sb, d, t)[x := TableBlock(t', i / IPB)];
  }

  lemma SameTableBlock(t: seq<Inode>, t': seq<Inode>, i: nat, x: nat)
    requires i < |t| == |t'| && t' == t[i := t'[i]] && x != i / IPB
    ensures TableBlock(t', x) == TableBlock(t, x)
  {
    hide InodeWord;
    forall k | 0 <= k < L.BLOCK_WORDS
      ensures IPB * x + k / 16 != i
    {
    }
  }
}
