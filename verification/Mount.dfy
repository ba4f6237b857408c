/** Mounting what mksfs has built (tools/mksfs.c, kern/fs/sfs/sfs_fs.c): an image meets the invariant of the file system
    if and only if no file is longer than a block map reaches, and then the kernel finds every block that was put into a
    file. */
module Mounting {
  import opened Bitmaps
  import opened SfsLayout
  import opened SfsBytes
  import M = Mksfs
  import S = Sfs

  type Files = seq<M.CacheFile>

  /** The index blocks have been written out. */
  ghost predicate Flushed(disk: Disk, img: M.Image)
    reads img
  {
    && |disk| == img.ninos && Shaped(disk)
    && forall b :: b in img.cache && b < |disk| && M.Words(img.cache[b]) ==> disk[b] == M.Written(img.cache[b])
  }

  /** The inodes on the disk are those of the files; mksfs counts the links in them as well. */
  ghost predicate AreInodes(dins: map<nat, Din>, files: Files)
    reads files
  {
    && (forall x :: x in dins ==> exists k :: 0 <= k < |files| && files[k].ino == x)
    && forall k :: 0 <= k < |files| ==>
         var f := files[k];
         f.ino in dins && dins[f.ino] == Din(f.size, f.blocks, f.direct, f.indirect, dins[f.ino].nlinks)
  }

  /** No file is longer than a block map of the kernel. */
  ghost predicate Short(files: Files)
    reads files
  {
    forall k :: 0 <= k < |files| ==> files[k].blocks <= NSLOTS
  }

  // ---------- the use of each block ----------

  ghost predicate HasBlock(f: M.CacheFile, b: nat)
    reads f
  {
    b in M.Numbers(f.ino, f.layout)
  }

  ghost function PlaceIn(s: seq<nat>, b: nat): (i: nat)
    requires b in s
    ensures i < |s| && s[i] == b
  {
    var i :| 0 <= i < |s| && s[i] == b; i
  }

  /** What a block of a file is used for. */
  ghost function UseIn(ino: nat, l: M.Layout, b: nat): Use {
    if b == ino then Node(ino)
    else if b in l.inos then Data(ino, PlaceIn(l.inos, b))
    else Use.Index(ino)
  }

  ghost function UseOf(files: Files, b: nat): Use
    reads files
  {
    if exists k :: 0 <= k < |files| && HasBlock(files[k], b) then
      var k :| 0 <= k < |files| && HasBlock(files[k], b);
      UseIn(files[k].ino, files[k].layout, b)
    else Meta
  }

  ghost function Owner(files: Files, next: nat): map<nat, Use>
    reads files
  {
    map b: nat | b < next :: UseOf(files, b)
  }

  lemma UseAt(files: Files, img: M.Image, k: nat, b: nat)
    requires M.Whole(files, img) && k < |files| && HasBlock(files[k], b)
    ensures UseOf(files, b) == UseIn(files[k].ino, files[k].layout, b) && 0 < b < img.nextIno
  {
    hide M.Numbers, UseIn, M.CacheFile.Holds, M.Proper;
    assert M.Fine(files[k], img.cache, img.Start(), img.nextIno);
    forall j | 0 <= j < |files| && HasBlock(files[j], b) ensures j == k {
    }
  }

  /** A short file has at most one index block. */
  lemma ShortIndex(f: M.CacheFile, cache: M.Cache)
    requires f.Holds(cache) && f.blocks <= NSLOTS
    ensures M.Index(f.layout) == if f.indirect == 0 then {} else {f.indirect}
    ensures f.indirect != 0 ==> M.HasTable(cache, f.indirect)
    ensures f.blocks == |f.layout.inos|
  {
    M.GroupsAt(|f.layout.inos|);
    M.Nonzero(cache, f.layout);
    if f.layout.l1s != [] {
      assert M.HasTable(cache, f.layout.l1s[0]);
    }
  }

  ghost predicate SlotsAre(disk: Disk, d: Din, inos: seq<nat>) {
    DinShape(disk, d) && d.blocks == |inos| && forall i: nat :: i < NSLOTS ==> Slot(disk, d, i) == M.Nth(inos, i)
  }

  lemma FoundSlots(files: Files, img: M.Image, disk: Disk, dins: map<nat, Din>, k: nat)
    requires M.Whole(files, img) && Flushed(disk, img) && AreInodes(dins, files) && Short(files) && k < |files|
    ensures files[k].ino in dins && SlotsAre(disk, dins[files[k].ino], files[k].layout.inos)
  {
    hide M.CacheFile.Holds, M.Proper, M.Index, M.Written, M.Words;
    var f := files[k];
    assert M.Fine(f, img.cache, img.Start(), img.nextIno);
    ShortIndex(f, img.cache);
    forall b | b in M.Numbers(f.ino, f.layout) ensures b < |disk| {
    }
    M.InNumbers(f.ino, f.layout, f.indirect);
    forall i | 0 <= i < |f.layout.inos| ensures f.layout.inos[i] < 0x1_0000_0000 {
      M.InNumbers(f.ino, f.layout, f.layout.inos[i]);
    }
    var d := dins[f.ino];
    M.KernelFinds(f, img.cache, disk, d.nlinks, 0);
    forall i: nat | i < NSLOTS ensures DinShape(disk, d) && Slot(disk, d, i) == M.Nth(f.layout.inos, i) {
      M.KernelFinds(f, img.cache, disk, d.nlinks, i);
    }
  }

  lemma PlaceIs(s: seq<nat>, i: nat)
    requires i < |s| && M.Distinct(s)
    ensures PlaceIn(s, s[i]) == i
  {
  }

  lemma Blocked(f: M.CacheFile, b: nat)
    ensures HasBlock(f, b) <==> b == f.ino || b in M.Index(f.layout) || b in f.layout.inos
  {
    M.InNumbers(f.ino, f.layout, b);
  }

  lemma FileOwns(files: Files, img: M.Image, disk: Disk, dins: map<nat, Din>, k: nat)
    requires M.Whole(files, img) && AreInodes(dins, files) && Short(files) && k < |files|
    requires files[k].ino in dins && SlotsAre(disk, dins[files[k].ino], files[k].layout.inos)
    ensures DinShape(disk, dins[files[k].ino])
    ensures Owns(disk, files[k].ino, dins[files[k].ino], Owner(files, img.nextIno))
  {
    hide M.CacheFile.Holds, M.Index, M.Numbers, Slot, DinShape, UseOf, HasBlock;
    var f, owner := files[k], Owner(files, img.nextIno);
    assert M.Fine(f, img.cache, img.Start(), img.nextIno);
    ShortIndex(f, img.cache);
    Blocked(f, f.ino);
    UseAt(files, img, k, f.ino);
    if f.indirect != 0 {
      Blocked(f, f.indirect);
      UseAt(files, img, k, f.indirect);
    }
    forall i: nat | i < f.blocks ensures Has(owner, f.layout.inos[i], Data(f.ino, i)) {
      Blocked(f, f.layout.inos[i]);
      UseAt(files, img, k, f.layout.inos[i]);
      PlaceIs(f.layout.inos, i);
    }
  }

  lemma NamedUse(files: Files, img: M.Image, disk: Disk, dins: map<nat, Din>, b: nat)
    requires M.Whole(files, img) && AreInodes(dins, files) && Short(files) && b < img.nextIno
    requires forall x :: x in dins ==> DinShape(disk, dins[x])
    requires forall k :: 0 <= k < |files| ==>
               files[k].ino in dins && SlotsAre(disk, dins[files[k].ino], files[k].layout.inos)
    ensures Named(disk, dins, b, UseOf(files, b))
  {
    hide M.CacheFile.Holds, M.Index, M.Numbers, Slot, DinShape;
    if k :| 0 <= k < |files| && HasBlock(files[k], b) {
      var f := files[k];
      assert M.Fine(f, img.cache, img.Start(), img.nextIno);
      UseAt(files, img, k, b);
      ShortIndex(f, img.cache);
      M.InNumbers(f.ino, f.layout, b);
      assert SlotsAre(disk, dins[f.ino], f.layout.inos);
    }
  }

  /** Block 0 and those of the freemap are used for no file. */
  lemma MetaUse(files: Files, img: M.Image, b: nat)
    requires M.Whole(files, img) && b != 1 && b < img.Start()
    ensures UseOf(files, b) == Meta
  {
    hide M.CacheFile.Holds, M.Numbers, M.Proper;
    forall k | 0 <= k < |files| ensures !HasBlock(files[k], b) {
      assert M.Fine(files[k], img.cache, img.Start(), img.nextIno);
    }
  }

  /** The kernel finds the image in order just when all files are short enough. */
  lemma MountsExactly(files: Files, img: M.Image, bits: seq<bool>, disk: Disk, dins: map<nat, Din>)
    requires M.Whole(files, img) && Flushed(disk, img) && AreInodes(dins, files)
    requires M.MarksFree(bits, img.nextIno, img.ninos)
    ensures Short(files) ==> Inv(Fs(bits[..img.ninos], disk, dins, Owner(files, img.nextIno)))
    ensures !Short(files) ==> forall owner :: !Inv(Fs(bits[..img.ninos], disk, dins, owner))
  {
    hide M.CacheFile.Holds, M.Numbers, M.Proper, Slot, UseOf, SlotsAre, Owns, Named;
    if Short(files) {
      var owner := Owner(files, img.nextIno);
      forall k | 0 <= k < |files|
        ensures files[k].ino in dins && SlotsAre(disk, dins[files[k].ino], files[k].layout.inos)
        ensures DinShape(disk, dins[files[k].ino]) && Owns(disk, files[k].ino, dins[files[k].ino], owner)
      {
        FoundSlots(files, img, disk, dins, k);
        FileOwns(files, img, disk, dins, k);
      }
      forall b: nat | b < img.nextIno ensures Named(disk, dins, b, owner[b]) {
        NamedUse(files, img, disk, dins, b);
      }
      MetaUse(files, img, 0);
    } else {
      var k :| 0 <= k < |files| && files[k].blocks > NSLOTS;
      assert dins[files[k].ino].blocks > NSLOTS;
    }
  }

  /** The blocks of a file as they were put into it. */
  ghost function Blocks(disk: Disk, inos: seq<nat>): seq<Block> {
    seq(|inos|, i requires 0 <= i < |inos| => BlockAt(disk, inos[i]))
  }

  lemma SameBlocks(disk: Disk, d: Din, inos: seq<nat>)
    requires SlotsAre(disk, d, inos)
    ensures File(disk, d) == Blocks(disk, inos)
  {
    hide Slot;
  }

  lemma CutAt(bits: seq<bool>, next: nat, hi: nat)
    requires M.MarksFree(bits, next, hi)
    ensures hi <= |bits| && forall b :: hi <= b < |bits| ==> !bits[b]
  {
  }

  lemma AllSized(dins: map<nat, Din>, files: Files, img: M.Image)
    requires M.Whole(files, img) && AreInodes(dins, files)
    ensures Sized(dins)
  {
    hide M.CacheFile.Holds, M.Numbers, M.Proper;
    forall x | x in dins ensures dins[x].size <= dins[x].blocks * 4096 {
      var k :| 0 <= k < |files| && files[k].ino == x;
      assert M.Fine(files[k], img.cache, img.Start(), img.nextIno);
      M.Blocks(files[k], img.cache);
    }
  }

  /** Each file has the blocks that were put into it. */
  ghost predicate Finds(files: Files, disk: Disk, dins: map<nat, Din>)
    reads files
  {
    forall k :: 0 <= k < |files| ==>
      && files[k].ino in dins && DinShape(disk, dins[files[k].ino])
      && File(disk, dins[files[k].ino]) == Blocks(disk, files[k].layout.inos)
  }

  lemma AllFound(files: Files, img: M.Image, disk: Disk, dins: map<nat, Din>)
    requires M.Whole(files, img) && Flushed(disk, img) && AreInodes(dins, files) && Short(files)
    ensures Finds(files, disk, dins)
  {
    hide M.Whole, Flushed, AreInodes, Short, SlotsAre, File, Blocks;
    forall k | 0 <= k < |files|
      ensures files[k].ino in dins && DinShape(disk, dins[files[k].ino])
      ensures File(disk, dins[files[k].ino]) == Blocks(disk, files[k].layout.inos)
    {
      FoundSlots(files, img, disk, dins, k);
      FileOwns(files, img, disk, dins, k);
      SameBlocks(disk, dins[files[k].ino], files[k].layout.inos);
    }
  }

  lemma ImageSize(files: Files, img: M.Image, disk: Disk)
    requires M.Whole(files, img) && Flushed(disk, img)
    ensures 0 < |disk| == img.ninos <= M.MAX_NBLKS
  {
    hide M.Fine, M.Numbers;
  }

  /** sfs_do_mount of an image in which all files are short enough: the count of free blocks agrees, and each file has
      the blocks that were put into it. */
  method Mount(files: Files, img: M.Image, bits: seq<bool>, disk: Disk, dins: map<nat, Din>) returns (fs: S.FileSystem)
    requires M.Whole(files, img) && Flushed(disk, img) && AreInodes(dins, files) && Short(files)
    requires M.MarksFree(bits, img.nextIno, img.ninos) && Count(bits) == img.unused
    requires |bits| % M.BLKBITS == 0 && |bits| < img.ninos + M.BLKBITS
    ensures fs.Valid() && fs.dins == dins && Sized(fs.dins) && fs.disk == disk && fs.unused == img.unused
    ensures Finds(files, disk, dins)
  {
    hide M.Whole, M.MarksFree, Flushed, AreInodes, Short, Finds, Inv, Sized, Count;
    MountsExactly(files, img, bits, disk, dins);
    CutAt(bits, img.nextIno, img.ninos);
    AllSized(dins, files, img);
    AllFound(files, img, disk, dins);
    ImageSize(files, img, disk);
    var freemap := new Bitmap(|bits|);
    freemap.Load(bits);
    var unused := S.CountUnused(freemap);
    fs := new S.FileSystem(freemap, unused, disk, dins, Owner(files, img.nextIno));
  }
}
