/** Directories as `dirlookup` reads them: entries of sixteen bytes, an inode number of two and a name of at
    most fourteen. */
module Directory {
  import opened FsFormat
  import opened FsLayout
  import opened FileSystem
  import I = FsImage

  /** The bytes before the first zero. */
  function CString(q: seq<Byte>): (s: seq<Byte>)
    ensures |s| <= |q|
  {
    if q == [] || q[0] == 0 then [] else [q[0]] + CString(q[1..])
  }

  /** What a C string can hold. */
  predicate IsName(name: seq<Byte>) { forall i :: 0 <= i < |name| ==> name[i] != 0 }

  /** What counts of a name: its first fourteen bytes. */
  function Significant(name: seq<Byte>): seq<Byte> { if |name| > 14 then name[..14] else name }

  datatype Place = Nowhere | At(inum: nat, off: nat)

  /** The first entry from `off` on that is in use and has this name. */
  function Lookup(b: seq<Byte>, key: seq<Byte>, off: nat): Place
    decreases |b| - off
  {
    if off + 16 > |b| then Nowhere
    else
      var lo: int, hi: int := b[off], b[off + 1];
      if (lo != 0 || hi != 0) && CString(b[off + 2..off + 16]) == key then At(lo + 256 * hi, off)
      else Lookup(b, key, off + 16)
  }

  lemma {:induction false} CStringIs(q: seq<Byte>, n: nat)
    requires n <= |q| && (forall k :: 0 <= k < n ==> q[k] != 0) && (n < |q| ==> q[n] == 0)
    ensures CString(q) == q[..n]
    decreases n
  {
    if n > 0 {
      CStringIs(q[1..], n - 1);
      assert q[..n] == [q[0]] + q[1..][..n - 1];
    }
  }

  lemma {:induction false} CStringStops(q: seq<Byte>)
    ensures var n := |CString(q)|; CString(q) == q[..n] && (n < |q| ==> q[n] == 0)
    ensures forall k :: 0 <= k < |CString(q)| ==> q[k] != 0
  {
    if q != [] && q[0] != 0 {
      CStringStops(q[1..]);
      assert q[..|CString(q)|] == [q[0]] + q[1..][..|CString(q[1..])|];
      forall k | 0 <= k < |CString(q)|
        ensures q[k] != 0
      {
        assert k > 0 ==> q[k] == q[1..][k - 1];
      }
    }
  }

  /** `namecmp`: the loop of `strncmp` over fourteen bytes. */
  method NameCmp(name: seq<Byte>, q: seq<Byte>) returns (equal: bool)
    requires IsName(name) && |q| == 14
    ensures equal <==> CString(q) == Significant(name)
  {
    hide CString;
    var i := 0;
    while i < 14 && i < |name| && name[i] == q[i]
      invariant 0 <= i <= 14 && i <= |name| && forall k :: 0 <= k < i ==> name[k] == q[k]
    {
      i := i + 1;
    }
    equal := i == 14 || (if i < |name| then name[i] else 0) == q[i];
    CStringStops(q);
    if equal {
      CStringIs(q, i);
      assert q[..i] == Significant(name);
    } else {
      var s := Significant(name);
      assert i < |s| ==> s[i] == name[i] != q[i];
      assert i < |CString(q)| ==> CString(q)[i] == q[i];
    }
  }

  lemma ContentsGrown(d: seq<Block>, ino: seq<Inode>, own: map<nat, Slot>, d': seq<Block>, ino': seq<Inode>,
                      own': map<nat, Slot>, i: nat)
    requires OnlyGrew(d, ino, own, d', ino', own') && i < |ino|
    ensures |ino'| == |ino| && ino'[i].size == ino[i].size && ino'[i].kind == ino[i].kind
    ensures Contents(d', ino', i) == Contents(d, ino, i)
  {
    hide FileByte;
  }

  /** One entry, read as sixteen bytes. */
  lemma LookupStep(b: seq<Byte>, key: seq<Byte>, off: nat, e: seq<Byte>)
    requires off + 16 <= |b| && e == b[off..off + 16]
    ensures Lookup(b, key, off) ==
      if (e[0] != 0 || e[1] != 0) && CString(e[2..]) == key then At(e[0] as int + 256 * e[1] as int, off)
      else Lookup(b, key, off + 16)
  {
    hide CString;
    assert e[0] == b[off] && e[1] == b[off + 1] && e[2..] == b[off + 2..off + 16];
  }

  /** `dirlookup`: what the first matching entry says, and where it stands. It panics on what is no
      directory; on one whose size is a number of entries only where it has a hole and the disk is full. */
  method DirLookup(fs: Fs, dp: nat, name: seq<Byte>) returns (panicked: bool, place: Place)
    requires fs.Valid() && dp < |fs.ino| && IsName(name)
    modifies fs`disk, fs`ino, fs`own, fs`logged, fs`trace
    ensures fs.Valid() && OnlyGrew(old(fs.disk), old(fs.ino), old(fs.own), fs.disk, fs.ino, fs.own)
    ensures !panicked ==> place == Lookup(old(Contents(fs.disk, fs.ino, dp)), Significant(name), 0)
    ensures old(fs.ino)[dp].kind != T_DIR ==> panicked
    ensures panicked ==>
      || old(fs.ino)[dp].kind != T_DIR || old(fs.ino)[dp].size % 16 != 0
      || (Full(fs.sb, fs.own) && !old(NoHoles(fs.disk, fs.ino, dp)))
  {
    hide FsOk, OnlyGrew, Full, NoHoles, Contents, Lookup, CString, Significant, ReadPanics, I.Recorded;
    place := Nowhere;
    GrewRefl(fs.disk, fs.ino, fs.own);
    if fs.ino[dp].kind != T_DIR {
      return true, place;
    }
    ghost var b, key := Contents(fs.disk, fs.ino, dp), Significant(name);
    ContentsSize(fs.disk, fs.ino, dp);
    var off := 0;
    while off < fs.ino[dp].size
      invariant fs.Valid() && OnlyGrew(old(fs.disk), old(fs.ino), old(fs.own), fs.disk, fs.ino, fs.own)
      invariant |fs.ino| == |old(fs.ino)| && fs.ino[dp].size == |b| <= MAXBYTES && off % 16 == 0
      invariant Contents(fs.disk, fs.ino, dp) == b && Lookup(b, key, off) == Lookup(b, key, 0)
      invariant old(NoHoles(fs.disk, fs.ino, dp)) ==> fs.disk == old(fs.disk) && fs.ino == old(fs.ino)
      decreases |b| - off
    {
      ghost var d1, ino1, own1 := fs.disk, fs.ino, fs.own;
      var tot, dst;
      panicked, tot, dst := fs.Readi(dp, off, 16, 16, true);
      GrewTrans(old(fs.disk), old(fs.ino), old(fs.own), d1, ino1, own1, fs.disk, fs.ino, fs.own);
      ContentsGrown(old(fs.disk), old(fs.ino), old(fs.own), fs.disk, fs.ino, fs.own, dp);
      if tot != 16 {
        return true, place;
      }
      LookupStep(b, key, off, dst);
      if dst[0] != 0 || dst[1] != 0 {
        var equal := NameCmp(name, dst[2..]);
        if equal {
          return false, At(dst[0] as int + 256 * dst[1] as int, off);
        }
      }
      off := off + 16;
    }
    LookupEnd(b, key, off);
    panicked := false;
  }

  lemma LookupEnd(b: seq<Byte>, key: seq<Byte>, off: nat)
    requires off >= |b|
    ensures Lookup(b, key, off) == Nowhere
  {
  }
}
