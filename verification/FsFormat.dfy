/** Disk blocks as bytes, with the two structured views `fs.c` takes of them: 256 little-endian
    words (indirect blocks) and 8192 bits (bitmap blocks). */
module FsFormat {

  const BSIZE: nat := 1024
  const BPB: nat := 8192           // bitmap bits per block
  const NDIRECT: nat := 12
  const NINDIRECT: nat := 256
  const MAXFILE: nat := 268        // NDIRECT + NINDIRECT

  type Byte = x: int | 0 <= x < 256
  type Block = b: seq<Byte> | |b| == BSIZE witness seq(BSIZE, _ => 0)
  type Word16 = x: int | 0 <= x < 0x1_0000
  type Word32 = x: int | 0 <= x < 0x1_0000_0000

  const ZERO_BLOCK: Block := seq(BSIZE, _ => 0)

  function Word(b: Block, k: nat): Word32
    requires k < NINDIRECT
  {
    var b0: int, b1: int, b2: int, b3: int := b[4 * k], b[4 * k + 1], b[4 * k + 2], b[4 * k + 3];
    b0 + 256 * b1 + 65536 * b2 + 16777216 * b3
  }

  function SetWord(b: Block, k: nat, v: Word32): Block
    requires k < NINDIRECT
  {
    b[4 * k := v % 256][4 * k + 1 := v / 256 % 256][4 * k + 2 := v / 65536 % 256][4 * k + 3 := v / 16777216]
  }

  lemma Digits(v: Word32)
    ensures v % 256 + 256 * (v / 256 % 256) + 65536 * (v / 65536 % 256) + 16777216 * (v / 16777216) == v
    ensures v / 16777216 < 256
  {
    assert v / 65536 == v / 256 / 256 && v / 16777216 == v / 65536 / 256;
  }

  lemma WordOfSet(b: Block, k: nat, v: Word32, j: nat)
    requires k < NINDIRECT && j < NINDIRECT
    ensures Word(SetWord(b, k, v), j) == if j == k then v else Word(b, j)
  {
    Digits(v);
  }

  lemma WordOfZero(j: nat)
    requires j < NINDIRECT
    ensures Word(ZERO_BLOCK, j) == 0
  {
  }

  // --- Bits ---------------------------------------------------------------------------------------

  /** `v & (1 << k)` is not zero. */
  predicate TestBit(v: nat, k: nat) {
    if k == 0 then v % 2 == 1 else TestBit(v / 2, k - 1)
  }

  /** `v | (1 << k)` and `v & ~(1 << k)`. */
  function WithBit(v: nat, k: nat, on: bool): nat {
    if k == 0 then v / 2 * 2 + (if on then 1 else 0) else 2 * WithBit(v / 2, k - 1, on) + v % 2
  }

  lemma {:induction false} BitOfWith(v: nat, k: nat, on: bool, j: nat)
    ensures TestBit(WithBit(v, k, on), j) == if j == k then on else TestBit(v, j)
  {
    if k > 0 && j > 0 {
      BitOfWith(v / 2, k - 1, on, j - 1);
    }
  }

  function Pow2(n: nat): nat { if n == 0 then 1 else 2 * Pow2(n - 1) }

  lemma {:induction false} WithBitBound(v: nat, k: nat, on: bool, n: nat)
    requires v < Pow2(n) && k < n
    ensures WithBit(v, k, on) < Pow2(n)
  {
    hide Pow2;
    PowStep(n);
    if k == 0 {
      assert v / 2 < Pow2(n - 1);
    } else {
      assert v / 2 < Pow2(n - 1);
      WithBitBound(v / 2, k - 1, on, n - 1);
      WithBitStep(v, k, on);
    }
  }

  lemma PowStep(n: nat)
    requires n > 0
    ensures Pow2(n) == 2 * Pow2(n - 1)
  {
  }

  lemma WithBitStep(v: nat, k: nat, on: bool)
    requires k > 0
    ensures WithBit(v, k, on) == 2 * WithBit(v / 2, k - 1, on) + v % 2
  {
  }

  function ByteWith(v: Byte, k: nat, on: bool): Byte
    requires k < 8
  {
    assert WithBit(v, k, on) < 256 by {
      WithBitBound(v, k, on, 8);
      assert Pow2(8) == 256;
    }
    WithBit(v, k, on)
  }

  /** Bit `i` of a bitmap block. */
  predicate Bit(b: Block, i: nat)
    requires i < BPB
  {
    TestBit(b[i / 8], i % 8)
  }

  function SetBit(b: Block, i: nat, on: bool): Block
    requires i < BPB
  {
    b[i / 8 := ByteWith(b[i / 8], i % 8, on)]
  }

  lemma BitOfSet(b: Block, i: nat, on: bool, j: nat)
    requires i < BPB && j < BPB
    ensures Bit(SetBit(b, i, on), j) == if j == i then on else Bit(b, j)
  {
    hide TestBit, WithBit;
    if i / 8 == j / 8 {
      BitOfWith(b[i / 8], i % 8, on, j % 8);
    }
  }
}
