/** The root directory `mkfs` writes, read back with `dirlookup`. */
module RootDirectory {
  import opened FsFormat
  import opened FsLayout
  import opened FileSystem
  import opened Mkfs
  import opened Directory
  import I = FsImage

  type Files = seq<(seq<Byte>, seq<Byte>)>

  /** The names of the entries in order, as far as they count, and the inodes they are for. */
  function EntryName(files: Files, k: nat): seq<Byte>
    requires k < |files| + 2
  {
    if k == 0 then [46] else if k == 1 then [46, 46] else Significant(files[k - 2].0)
  }

  function EntryInum(k: nat): nat { if k < 2 then 1 else k }

  predicate AllNames(files: Files) { forall k :: 0 <= k < |files| ==> IsName(files[k].0) }

  /** These sixteen bytes are an entry. */
  ghost predicate IsEntry(e: seq<Byte>, inum: nat, name: seq<Byte>) {
    |e| == 16 && e[0] as int + 256 * e[1] as int == inum && CString(e[2..]) == name
  }

  lemma DirentIsEntry(inum: nat, name: seq<Byte>)
    requires inum < 65536 && IsName(name)
    ensures IsEntry(Dirent(inum, name), inum, Significant(name))
  {
    hide CString;
    var e := Dirent(inum, name);
    var q := e[2..];
    var n := |Significant(name)|;
    assert forall k :: 0 <= k < n ==> q[k] == name[k];
    CStringIs(q, n);
    assert q[..n] == Significant(name);
  }

  lemma {:induction false} EntryAt(files: Files, k: nat)
    requires |files| < 65534 && k < |files| + 2 && AllNames(files)
    ensures IsEntry(Listing(files)[16 * k..16 * k + 16], EntryInum(k), EntryName(files, k))
  {
    hide IsEntry, Dirent;
    var s := Listing(files);
    if files == [] {
      var a, b := Dirent(ROOTINO, ['.' as int]), Dirent(ROOTINO, ['.' as int, '.' as int]);
      assert s == a + b && s[..16] == a && s[16..32] == b;
      DirentIsEntry(ROOTINO, ['.' as int]);
      DirentIsEntry(ROOTINO, ['.' as int, '.' as int]);
    } else {
      var n := |files| - 1;
      var front, last := Listing(files[..n]), Dirent(|files| + 1, files[n].0);
      assert s == front + last;
      if k < n + 2 {
        EntryAt(files[..n], k);
        assert s[16 * k..16 * k + 16] == front[16 * k..16 * k + 16];
      } else {
        DirentIsEntry(|files| + 1, files[n].0);
        assert s[16 * k..16 * k + 16] == last;
      }
    }
  }

  /** The listing, padded with zeros to whole entries. */
  ghost predicate IsRoot(b: seq<Byte>, files: Files) {
    && |files| < 65534 && |b| % 16 == 0 && 16 * (|files| + 2) <= |b|
    && b == Listing(files) + Zeros(|b| - 16 * (|files| + 2))
  }

  lemma RootEntry(b: seq<Byte>, files: Files, k: nat, key: seq<Byte>)
    requires IsRoot(b, files) && AllNames(files) && k < |files| + 2
    ensures Lookup(b, key, 16 * k) ==
      if EntryName(files, k) == key then At(EntryInum(k), 16 * k) else Lookup(b, key, 16 * (k + 1))
  {
    hide CString, Listing, Lookup;
    EntryAt(files, k);
    var e := b[16 * k..16 * k + 16];
    assert e == Listing(files)[16 * k..16 * k + 16];
    LookupStep(b, key, 16 * k, e);
    assert e[0] != 0 || e[1] != 0;
  }

  lemma {:induction false} Padding(b: seq<Byte>, files: Files, k: nat, key: seq<Byte>)
    requires IsRoot(b, files) && |files| + 2 <= k && 16 * k <= |b|
    ensures Lookup(b, key, 16 * k) == Nowhere
    decreases |b| - 16 * k
  {
    if 16 * k < |b| {
      var e := b[16 * k..16 * k + 16];
      assert e[0] == 0 && e[1] == 0;
      LookupStep(b, key, 16 * k, e);
      Padding(b, files, k + 1, key);
    }
  }

  /** The place is that of the first entry of this name from entry `from` on, or there is none. */
  ghost predicate FirstOf(files: Files, key: seq<Byte>, from: nat, place: Place) {
    match place
    case Nowhere => forall j: nat :: from <= j < |files| + 2 ==> EntryName(files, j) != key
    case At(inum, off) =>
      var k := off / 16;
      && off == 16 * k && from <= k < |files| + 2 && EntryName(files, k) == key && inum == EntryInum(k)
      && forall j: nat :: from <= j < k ==> EntryName(files, j) != key
  }

  lemma {:induction false} FindsFirst(b: seq<Byte>, files: Files, from: nat, key: seq<Byte>)
    requires IsRoot(b, files) && AllNames(files) && from <= |files| + 2
    ensures FirstOf(files, key, from, Lookup(b, key, 16 * from))
    decreases |files| + 2 - from
  {
    hide Lookup, EntryName, IsRoot, AllNames;
    if from < |files| + 2 {
      RootEntry(b, files, from, key);
      FindsFirst(b, files, from + 1, key);
    } else {
      RootSize(b, files);
      Padding(b, files, from, key);
    }
  }

  lemma RootSize(b: seq<Byte>, files: Files)
    requires IsRoot(b, files)
    ensures 16 * (|files| + 2) <= |b|
  {
  }

  lemma BootedRoot(files: Files, h: Snapshot)
    requires Booted(files, h)
    ensures ROOTINO < |h.ino| && h.ino[ROOTINO].kind == T_DIR && IsRoot(Contents(h.disk, h.ino, ROOTINO), files)
    ensures h.ino[ROOTINO].size % 16 == 0
  {
    hide Contents, Listing, HasFiles, OneHole, AllWhole;
    ContentsSize(h.disk, h.ino, ROOTINO);
  }

  /** Boot an image and look a name up in its root directory: the first file of that name is found, under
      the inode that holds its bytes, or there is none. Without a hole in the image the lookup does not
      panic. */
  method BootAndLookup(files: Files, name: seq<Byte>) returns (panicked: bool, place: Place, ghost h: Snapshot)
    requires Fits(files) && AllNames(files) && IsName(name)
    ensures Booted(files, h) && (panicked ==> (|files| + 2) % 64 == 0)
    ensures !panicked ==> FirstOf(files, Significant(name), 0, place)
    ensures !panicked && place.At? && place.inum >= 2 ==>
      place.inum < |files| + 2 && place.inum < |h.Files()|
          && h.Files()[place.inum] == File(T_FILE, files[place.inum - 2].1)
  {
    hide Booted, Lookup, EntryName, FsOk, OnlyGrew, Full, NoHoles, Contents, Significant, Used, IsRoot, Fits,
         Snapshot.Sound, Snapshot.Image, Snapshot.Files, AllNames;
    var ok, fs, done, answers;
    ghost var hist, txns;
    ok, panicked, fs, done, answers, hist, txns := Boot(files, []);
    h := hist[0];
    BootedRoot(files, h);
    panicked, place := DirLookup(fs, ROOTINO, name);
    FindsFirst(Contents(h.disk, h.ino, ROOTINO), files, 0, Significant(name));
    if place.At? && place.inum >= 2 && !panicked {
      BootedFiles(files, h, place.inum);
    }
  }
}
