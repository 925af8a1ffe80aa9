/** The on-disk redo log: block format, header format, and what recovery will make of a disk. */
module LogDisk {

  const BLOCK_WORDS: nat := 256
  const MAXOPBLOCKS: nat := 10
  const LOGSIZE: nat := 30

  /** A 1024-byte block seen as 256 four-byte words, the view the log header uses. */
  type Block = b: seq<int> | |b| == BLOCK_WORDS witness seq(BLOCK_WORDS, _ => 0)

  /** `log.start` and `log.size`; the first block of the region is the header. */
  datatype Layout = Layout(start: nat, size: nat)

  ghost predicate LayoutOk(l: Layout, blocks: nat) {
    1 <= l.size && l.start + l.size <= blocks
  }

  /** A block outside the log region: the only kind the log ever installs to. */
  ghost predicate IsHome(l: Layout, blocks: nat, b: int) {
    0 <= b < blocks && !(l.start <= b < l.start + l.size)
  }

  ghost predicate AllHome(l: Layout, blocks: nat, hs: seq<int>) {
    forall i :: 0 <= i < |hs| ==> IsHome(l, blocks, hs[i])
  }

  ghost predicate Distinct(hs: seq<int>) {
    forall i, j :: 0 <= i < j < |hs| ==> hs[i] != hs[j]
  }

  /** A header block whose count and entries recovery can follow. */
  ghost predicate HeadOk(d: seq<Block>, l: Layout)
    requires LayoutOk(l, |d|)
  {
    var h := d[l.start];
    && 0 <= h[0] <= LOGSIZE
    && h[0] < l.size
    && AllHome(l, |d|, h[1..1 + h[0]])
  }

  /** The block numbers the on-disk header names (`read_head`). */
  ghost function Head(d: seq<Block>, l: Layout): seq<int>
    requires LayoutOk(l, |d|) && HeadOk(d, l)
  {
    d[l.start][1..1 + d[l.start][0]]
  }

  /** `write_head` overwrites the count and the entries in use and keeps the other words. */
  function SetHead(old_: Block, hs: seq<int>): (h: Block)
    requires |hs| < BLOCK_WORDS
    ensures h[0] == |hs| && h[1..1 + |hs|] == hs
  {
    [|hs|] + hs + old_[1 + |hs|..]
  }

  /** The contents block `b` ends up with when `hs` is installed front to back. */
  ghost function Lookup(d: seq<Block>, l: Layout, hs: seq<int>, b: nat): Block
    requires b < |d| && l.start + |hs| < |d|
  {
    if hs == [] then d[b]
    else if hs[|hs| - 1] == b then d[l.start + |hs|]
    else Lookup(d, l, hs[..|hs| - 1], b)
  }

  /** What recovery would leave in home block `b` if the machine stopped now. */
  ghost function View(d: seq<Block>, l: Layout, b: nat): Block
    requires LayoutOk(l, |d|) && HeadOk(d, l) && b < |d|
  {
    Lookup(d, l, Head(d, l), b)
  }

  lemma {:induction false} LookupMiss(d: seq<Block>, l: Layout, hs: seq<int>, b: nat)
    requires b < |d| && l.start + |hs| < |d|
    requires b !in hs
    ensures Lookup(d, l, hs, b) == d[b]
  {
    if hs != [] {
      LookupMiss(d, l, hs[..|hs| - 1], b);
    }
  }

  lemma {:induction false} LookupHit(d: seq<Block>, l: Layout, hs: seq<int>, i: nat)
    requires i < |hs| && 0 <= hs[i] < |d| && l.start + |hs| < |d|
    requires Distinct(hs)
    ensures Lookup(d, l, hs, hs[i]) == d[l.start + 1 + i]
  {
    if i < |hs| - 1 {
      LookupHit(d, l, hs[..|hs| - 1], i);
    }
  }

  /** Lookup depends only on the log blocks, and on `d[b]` only when `b` is not logged. */
  lemma {:induction false} LookupFrame(d: seq<Block>, d': seq<Block>, l: Layout, hs: seq<int>, b: nat)
    requires |d| == |d'| && b < |d| && l.start + |hs| < |d|
    requires forall i :: l.start < i <= l.start + |hs| ==> d[i] == d'[i]
    requires b in hs || d[b] == d'[b]
    ensures Lookup(d, l, hs, b) == Lookup(d', l, hs, b)
  {
    if hs != [] && hs[|hs| - 1] != b {
      LookupFrame(d, d', l, hs[..|hs| - 1], b);
    }
  }

  /** Recovering `d` would put `contents` into the home blocks. */
  ghost predicate Restores(d: seq<Block>, l: Layout, contents: seq<Block>)
    requires LayoutOk(l, |d|)
  {
    && |contents| == |d| && HeadOk(d, l)
    && forall b: nat :: IsHome(l, |d|, b) ==> View(d, l, b) == contents[b]
  }

  /** The first `k` blocks named by `hs` have been installed. */
  ghost predicate Installed(d: seq<Block>, l: Layout, hs: seq<int>, k: nat)
    requires LayoutOk(l, |d|)
  {
    && k <= |hs| < l.size
    && forall b: nat :: IsHome(l, |d|, b) ==> d[b] == Lookup(d, l, hs[..k], b)
  }

  /** Installing a logged block once more leaves what recovery would produce unchanged. */
  lemma InstallKeepsView(d: seq<Block>, d': seq<Block>, l: Layout, k: nat, contents: seq<Block>)
    requires LayoutOk(l, |d|) && Restores(d, l, contents) && k < |Head(d, l)|
    requires d' == d[Head(d, l)[k] := d[l.start + 1 + k]]
    ensures Restores(d', l, contents) && Head(d', l) == Head(d, l)
  {
    assert d'[l.start] == d[l.start];
    forall b: nat | IsHome(l, |d|, b)
      ensures View(d', l, b) == contents[b]
    {
      LookupFrame(d, d', l, Head(d, l), b);
    }
  }

  lemma InstallExtendsPrefix(d: seq<Block>, d': seq<Block>, l: Layout, hs: seq<int>, k: nat)
    requires LayoutOk(l, |d|) && AllHome(l, |d|, hs) && k < |hs| && Installed(d, l, hs, k)
    requires d' == d[hs[k] := d[l.start + 1 + k]]
    ensures Installed(d', l, hs, k + 1)
  {
    assert hs[..k + 1][..k] == hs[..k];
    forall b: nat | IsHome(l, |d|, b)
      ensures d'[b] == Lookup(d', l, hs[..k + 1], b)
    {
      if b != hs[k] {
        LookupFrame(d, d', l, hs[..k], b);
      }
    }
  }

  /** Header and log blocks of `d` describe writing `contents` to the blocks `hs`. */
  ghost predicate LogImage(d: seq<Block>, l: Layout, hs: seq<int>, contents: seq<Block>)
    requires LayoutOk(l, |d|)
  {
    && |contents| == |d| && HeadOk(d, l) && Head(d, l) == hs
    && forall j :: 0 <= j < |hs| ==> d[l.start + 1 + j] == contents[hs[j]]
  }

  /** Every home block holds `contents` except, perhaps, those named by `hs[k..]`. */
  ghost predicate HomeImage(d: seq<Block>, l: Layout, hs: seq<int>, k: nat, contents: seq<Block>)
    requires LayoutOk(l, |d|) && AllHome(l, |d|, hs)
  {
    && |contents| == |d| && k <= |hs|
    && (forall j :: 0 <= j < k ==> d[hs[j]] == contents[hs[j]])
    && forall b: nat :: IsHome(l, |d|, b) && b !in hs ==> d[b] == contents[b]
  }

  /** Writing the header turns logged blocks into a committed transaction. */
  lemma HeaderCommits(d: seq<Block>, d': seq<Block>, l: Layout, hs: seq<int>, contents: seq<Block>, old_: Block)
    requires LayoutOk(l, |d|) && AllHome(l, |d|, hs) && |hs| <= LOGSIZE && |hs| < l.size
    requires |contents| == |d| && d' == d[l.start := SetHead(old_, hs)]
    requires forall j :: 0 <= j < |hs| ==> d[l.start + 1 + j] == contents[hs[j]]
    requires forall b: nat :: IsHome(l, |d|, b) && b !in hs ==> d[b] == contents[b]
    ensures LogImage(d', l, hs, contents) && HomeImage(d', l, hs, 0, contents)
  {
  }

  lemma LogImageKept(d: seq<Block>, d': seq<Block>, l: Layout, hs: seq<int>, contents: seq<Block>, b: nat)
    requires LayoutOk(l, |d|) && LogImage(d, l, hs, contents)
    requires IsHome(l, |d|, b) && d' == d[b := contents[b]]
    ensures LogImage(d', l, hs, contents)
  {
    assert d'[l.start] == d[l.start];
  }

  lemma HomeImageGrows(d: seq<Block>, d': seq<Block>, l: Layout, hs: seq<int>, k: nat, contents: seq<Block>)
    requires LayoutOk(l, |d|) && AllHome(l, |d|, hs) && HomeImage(d, l, hs, k, contents)
    requires k < |hs| && d' == d[hs[k] := contents[hs[k]]]
    ensures HomeImage(d', l, hs, k + 1, contents)
  {
  }

  lemma LogImageView(d: seq<Block>, l: Layout, hs: seq<int>, k: nat, contents: seq<Block>, b: nat)
    requires LayoutOk(l, |d|) && LogImage(d, l, hs, contents) && Distinct(hs)
    requires HomeImage(d, l, hs, k, contents) && IsHome(l, |d|, b)
    ensures View(d, l, b) == contents[b]
  {
    if b in hs {
      var i :| 0 <= i < |hs| && hs[i] == b;
      LookupHit(d, l, hs, i);
    } else {
      LookupMiss(d, l, hs, b);
    }
  }

  /** From the header write on, recovery yields the new contents of every home block. */
  lemma HeaderWriteCommits(d: seq<Block>, d': seq<Block>, l: Layout, hs: seq<int>, contents: seq<Block>, old_: Block)
    requires LayoutOk(l, |d|) && AllHome(l, |d|, hs) && |hs| <= LOGSIZE && |hs| < l.size && Distinct(hs)
    requires |contents| == |d| && d' == d[l.start := SetHead(old_, hs)]
    requires forall j :: 0 <= j < |hs| ==> d[l.start + 1 + j] == contents[hs[j]]
    requires forall b: nat :: IsHome(l, |d|, b) && b !in hs ==> d[b] == contents[b]
    ensures Restores(d', l, contents) && Head(d', l) == hs
  {
    hide SetHead;
    HeaderCommits(d, d', l, hs, contents, old_);
    forall b: nat | IsHome(l, |d'|, b)
      ensures HeadOk(d', l) && View(d', l, b) == contents[b]
    {
      LogImageView(d', l, hs, 0, contents, b);
    }
  }
}
