/** The image builder tools/mksfs.c: block numbers, index blocks kept in a cache until the end, and the freemap. */
module Mksfs {
  import opened SfsLayout
  import opened Bitmaps

  const MAX_NBLKS := 1024 * 512
  const BLKBITS := 32768
  const MAX_FILE_BLOCKS := 32768

  type Cache = map<nat, seq<nat>>

  /** The index blocks that n file blocks take, not counting the block that lists them. */
  function Groups(n: nat): nat {
    if n <= 12 then 0 else (n - 12 + 1023) / 1024
  }

  /** All the index blocks that n file blocks take. */
  function IndexBlocks(n: nat): nat {
    if Groups(n) > 1 then Groups(n) + 1 else Groups(n)
  }

  lemma IndexNext(n: nat)
    ensures IndexBlocks(n + 1) == IndexBlocks(n) +
              if n == 12 then 1 else if n == 1036 then 2 else if n > 1036 && (n - 1036) % 1024 == 0 then 1 else 0
  {
    GroupsAt(n);
    GroupsAt(n + 1);
  }

  ghost predicate HasTable(cache: Cache, b: nat) {
    b != 0 && b in cache && |cache[b]| == NENTRY
  }

  /** Index block g, entry j. */
  ghost function Word(cache: Cache, l1s: seq<nat>, g: nat, j: nat): nat
    requires g < |l1s| && HasTable(cache, l1s[g]) && j < NENTRY
  {
    cache[l1s[g]][j]
  }

  /** What a file holds: its block numbers, the index blocks in order, and the block that lists those from the second
      on. */
  datatype Layout = Layout(inos: seq<nat>, l1s: seq<nat>, l2: nat)

  ghost function Nth(s: seq<nat>, i: nat): nat {
    if i < |s| then s[i] else 0
  }

  ghost predicate Distinct(s: seq<nat>) {
    forall i, j :: 0 <= i < j < |s| ==> s[i] != s[j]
  }

  /** The cached index blocks hold the layout, and zeros behind it. */
  ghost predicate Laid(cache: Cache, l: Layout) {
    && Distinct(l.l1s) && (forall g :: 0 <= g < |l.l1s| ==> HasTable(cache, l.l1s[g]))
    && (forall g: nat, j: nat :: g < |l.l1s| && j < NENTRY ==>
          Word(cache, l.l1s, g, j) == Nth(l.inos, 12 + 1024 * g + j))
    && (|l.l1s| > 1 ==> l.l2 != 0)
    && (l.l2 != 0 ==>
          && HasTable(cache, l.l2) && l.l2 !in l.l1s
          && forall k: nat :: k < NENTRY ==> cache[l.l2][k] == Nth(l.l1s, k + 1))
  }

  /** The index blocks of a file. */
  ghost function Index(l: Layout): set<nat> {
    (set g | 0 <= g < |l.l1s| :: l.l1s[g]) + if l.l2 == 0 then {} else {l.l2}
  }

  /** The index blocks that a file has gained have numbers from lo to hi. */
  ghost predicate Gained(was: Layout, now: Layout, lo: nat, hi: nat) {
    Index(was) <= Index(now) && forall b :: b in Index(now) && b !in Index(was) ==> lo <= b < hi
  }

  lemma GainedNone(l: Layout, lo: nat, hi: nat, inos: seq<nat>)
    ensures Gained(l, l.(inos := inos), lo, hi)
  {
  }

  lemma GainedList(l: Layout, b: nat, lo: nat, hi: nat)
    requires l.l2 == 0 && b != 0 && lo <= b < hi
    ensures Gained(l, l.(l2 := b), lo, hi)
  {
  }

  lemma GainedTable(l: Layout, b: nat, lo: nat, hi: nat)
    requires lo <= b < hi
    ensures Gained(l, l.(l1s := l.l1s + [b]), lo, hi)
  {
    var m := l.(l1s := l.l1s + [b]);
    forall x | x in Index(l) ensures x in Index(m) {
      if g :| 0 <= g < |l.l1s| && l.l1s[g] == x {
        assert m.l1s[g] == x;
      }
    }
  }

  lemma FirstGained(l: Layout, b: nat, ino: nat, lo: nat, hi: nat)
    requires l.l1s == [] && lo <= b < hi
    ensures Gained(l, l.(l1s := [b], inos := l.inos + [ino]), lo, hi)
  {
    assert l.l1s + [b] == [b];
    GainedTable(l, b, lo, hi);
    var m := l.(l1s := [b]);
    assert Index(l.(l1s := [b], inos := l.inos + [ino])) == Index(m);
  }

  lemma GainedOn(l: Layout, m: Layout, n: Layout, a: nat, b: nat, c: nat)
    requires Gained(l, m, a, b) && Gained(m, n, b, c) && a <= b <= c
    ensures Gained(l, n, a, c)
  {
  }

  /** The cached blocks of other files are as they were. */
  ghost predicate Kept(before: Cache, after: Cache, l: Layout) {
    forall b :: b in before && b !in l.l1s && b != l.l2 ==> b in after && after[b] == before[b]
  }

  /** There are just as many index blocks as it takes. */
  ghost predicate Full(l: Layout) {
    |l.l1s| == Groups(|l.inos|) && (l.l2 == 0 <==> |l.l1s| <= 1)
  }

  ghost function SetWord(cache: Cache, b: nat, j: nat, v: nat): Cache
    requires HasTable(cache, b) && j < NENTRY
  {
    var words: seq<nat> := cache[b][j := v];
    cache[b := words]
  }

  ghost function NewBlock(cache: Cache, b: nat): Cache {
    var words: seq<nat> := seq(NENTRY, j => 0);
    cache[b := words]
  }

  /** Writing the next word of the last index block appends a block. */
  lemma AppendWord(cache: Cache, l: Layout, ino: nat, j: nat)
    requires Laid(cache, l) && l.l1s != [] && |l.inos| == 12 + 1024 * (|l.l1s| - 1) + j && j < NENTRY
    ensures Laid(SetWord(cache, l.l1s[|l.l1s| - 1], j, ino), l.(inos := l.inos + [ino]))
  {
    var g := |l.l1s| - 1;
    var b := l.l1s[g];
    var c, m := SetWord(cache, b, j, ino), l.(inos := l.inos + [ino]);
    forall h: nat, i: nat | h < |l.l1s| && i < NENTRY ensures Word(c, m.l1s, h, i) == Nth(m.inos, 12 + 1024 * h + i) {
      assert Word(cache, l.l1s, h, i) == Nth(l.inos, 12 + 1024 * h + i);
      assert h != g ==> l.l1s[h] != b;
    }
  }

  lemma Fresh(cache: Cache, l: Layout, b: nat)
    requires Laid(cache, l) && b != 0 && b !in cache
    ensures b !in l.l1s && b != l.l2
  {
    forall g: nat | g < |l.l1s| ensures l.l1s[g] != b {
      assert HasTable(cache, l.l1s[g]);
    }
  }

  /** The first index block. */
  lemma FirstTable(cache: Cache, l: Layout, b: nat)
    requires Laid(cache, l) && b != 0 && b !in cache && |l.inos| == 12 && l.l1s == [] && l.l2 == 0
    ensures Laid(NewBlock(cache, b), l.(l1s := [b]))
  {
    var c, m := NewBlock(cache, b), l.(l1s := [b]);
    forall h: nat, i: nat | h < 1 && i < NENTRY ensures Word(c, m.l1s, h, i) == Nth(m.inos, 12 + 1024 * h + i) {
    }
  }

  /** The block that lists the index blocks. */
  lemma AddList(cache: Cache, l: Layout, b: nat)
    requires Laid(cache, l) && b != 0 && b !in cache && |l.l1s| == 1 && l.l2 == 0
    ensures Laid(NewBlock(cache, b), l.(l2 := b))
  {
    Fresh(cache, l, b);
    var c, m := NewBlock(cache, b), l.(l2 := b);
    forall h: nat, i: nat | h < |l.l1s| && i < NENTRY ensures Word(c, m.l1s, h, i) == Nth(m.inos, 12 + 1024 * h + i) {
      assert Word(cache, l.l1s, h, i) == Nth(l.inos, 12 + 1024 * h + i);
      assert l.l1s[h] in l.l1s;
    }
  }

  /** Another index block, entered in the list. */
  lemma AddTable(cache: Cache, l: Layout, b: nat)
    requires Laid(cache, l) && b != 0 && b !in cache && l.l2 != 0 && 1 <= |l.l1s| < NENTRY
    requires |l.inos| == 12 + 1024 * |l.l1s|
    ensures HasTable(NewBlock(cache, b), l.l2)
    ensures Laid(SetWord(NewBlock(cache, b), l.l2, |l.l1s| - 1, b), l.(l1s := l.l1s + [b]))
  {
    Fresh(cache, l, b);
    var n := |l.l1s|;
    var c, m := SetWord(NewBlock(cache, b), l.l2, n - 1, b), l.(l1s := l.l1s + [b]);
    forall h: nat, i: nat | h < |m.l1s| && i < NENTRY
        ensures HasTable(c, m.l1s[h]) && Word(c, m.l1s, h, i) == Nth(m.inos, 12 + 1024 * h + i) {
      if h < n {
        assert Word(cache, l.l1s, h, i) == Nth(l.inos, 12 + 1024 * h + i);
        assert l.l1s[h] in l.l1s && m.l1s[h] == l.l1s[h];
      }
    }
  }

  /** The index blocks in use, and which of them the next block goes to. */
  lemma GroupsAt(n: nat)
    ensures n <= 12 ==> Groups(n) == 0
    ensures 12 < n <= 1036 ==> Groups(n) == 1
    ensures n >= 1036 ==> Groups(n) == 1 + (n - 1036) / 1024 + if (n - 1036) % 1024 == 0 then 0 else 1
  {
  }

  lemma LastTable(cache: Cache, l: Layout)
    requires Laid(cache, l) && l.l1s != []
    ensures HasTable(cache, l.l1s[|l.l1s| - 1])
  {
  }

  lemma ListTable(cache: Cache, l: Layout, k: nat)
    requires Laid(cache, l) && l.l2 != 0 && k < NENTRY
    ensures HasTable(cache, l.l2) && cache[l.l2][k] == Nth(l.l1s, k + 1)
  {
  }

  lemma Listed(cache: Cache, l: Layout)
    requires Laid(cache, l) && l.l2 == 0
    ensures |l.l1s| <= 1
  {
  }

  lemma Nonzero(cache: Cache, l: Layout)
    requires Laid(cache, l)
    ensures forall g :: 0 <= g < |l.l1s| ==> l.l1s[g] != 0
  {
    forall g | 0 <= g < |l.l1s| ensures l.l1s[g] != 0 {
      assert HasTable(cache, l.l1s[g]);
    }
  }

  /** The bits from next to hi are set, and no others. */
  ghost predicate MarksFree(bits: seq<bool>, next: nat, hi: nat) {
    hi <= |bits| && forall k :: 0 <= k < |bits| ==> (bits[k] <==> next <= k < hi)
  }

  /** struct sfs_fs. */
  class Image {
    const ninos: nat
    var nextIno: nat
    var unused: nat
    /** The cached index blocks by number; all were given numbers by AllocIno. */
    var cache: Cache

    /** create_sfs, for an image file that is not too small. */
    constructor (fileBlocks: nat)
      requires var n := if fileBlocks > MAX_NBLKS then MAX_NBLKS else fileBlocks; 2 + (n + BLKBITS - 1) / BLKBITS < n
      ensures Valid() && ninos == if fileBlocks > 524_288 then 524_288 else fileBlocks
      ensures nextIno == 2 + (ninos + 32767) / 32768 && cache == map[]
    {
      var n := if fileBlocks > MAX_NBLKS then MAX_NBLKS else fileBlocks;
      ninos := n;
      nextIno := 2 + (n + BLKBITS - 1) / BLKBITS;
      unused := n - (2 + (n + BLKBITS - 1) / BLKBITS);
      cache := map[];
    }

    /** The first number behind the superblock, the root and the freemap. */
    ghost function Start(): nat {
      2 + (ninos + BLKBITS - 1) / BLKBITS
    }

    /** The count of unused blocks is that of the numbers not given out. */
    ghost predicate Valid()
      reads this
    {
      && 0 < nextIno && Start() <= nextIno <= ninos <= MAX_NBLKS && unused == ninos - nextIno
      && forall b :: b in cache ==> 0 < b < nextIno
    }

    /** sfs_alloc_ino: false when it stops for want of space. */
    method AllocIno() returns (ok: bool, ino: nat)
      requires Valid()
      modifies `nextIno, `unused
      ensures Valid() && ok == (old(nextIno) < ninos)
      ensures ok ==> ino == old(nextIno) && nextIno == ino + 1 && ino !in cache && ino != 0
      ensures !ok ==> nextIno == old(nextIno) && unused == old(unused)
    {
      if nextIno < ninos {
        unused := unused - 1;
        ino := nextIno;
        nextIno := nextIno + 1;
        return true, ino;
      }
      return false, 0;
    }

    /** update_cache. Searching the cache is the branch that could fail: the blocks are entered there under the hash
        of 0. */
    method UpdateCache(cb: nat, inop: nat) returns (ok: bool, ino: nat, searched: bool)
      requires Valid()
      modifies `nextIno, `unused, `cache
      ensures Valid() && searched == (inop != 0 && cb != inop)
      ensures ok <==> inop != 0 || old(nextIno) < ninos
      ensures inop != 0 ==> ino == inop && cache == old(cache) && nextIno == old(nextIno)
      ensures inop == 0 && ok ==>
                ino == old(nextIno) != 0 && ino !in old(cache) && cache == NewBlock(old(cache), ino)
                && nextIno == old(nextIno) + 1
      ensures !ok ==> cache == old(cache)
    {
      searched := false;
      if inop == 0 {
        ok, ino := AllocIno();
        if ok {
          var words: seq<nat> := seq(NENTRY, j => 0);
          cache := cache[ino := words];
        }
      } else {
        ok, ino := true, inop;
        if cb == 0 || cb != inop {
          searched := true;
        }
      }
    }

    /** The freemap that close_sfs writes passes the count that the kernel makes when it mounts the image. */
    method CloseFreemap() returns (bits: seq<bool>)
      requires Valid()
      ensures Count(bits) == unused && |bits| % BLKBITS == 0 && |bits| < ninos + BLKBITS
      ensures MarksFree(bits, nextIno, ninos)
    {
      bits := Freemap(nextIno, ninos);
    }

    /** Storing a word into a cached block. */
    method Store(b: nat, j: nat, v: nat)
      requires Valid() && HasTable(cache, b) && j < NENTRY
      modifies `cache
      ensures Valid() && cache == SetWord(old(cache), b, j, v)
    {
      var words: seq<nat> := cache[b][j := v];
      cache := cache[b := words];
    }
  }

  /** struct cache_inode. The pointers l1 and l2 are the numbers of the blocks, 0 for null. */
  class CacheFile {
    const ino: nat
    var nblks: nat
    var size: nat
    var blocks: nat
    var direct: seq<nat>
    var indirect: nat
    var dbIndirect: nat
    var l1: nat
    var l2: nat
    ghost var layout: Layout

    /** alloc_cache_inode. */
    constructor (ino: nat)
      ensures this.ino == ino && layout == Layout([], [], 0) && size == 0 && forall cache :: Holds(cache)
    {
      this.ino := ino;
      nblks, size, blocks, indirect, dbIndirect, l1, l2 := 0, 0, 0, 0, 0, 0, 0;
      direct := [0, 0, 0, 0, 0, 0, 0, 0, 0, 0, 0, 0];
      layout := Layout([], [], 0);
    }

    /** The inode and the cached blocks are those of the layout. */
    ghost predicate Holds(cache: Cache)
      reads this
    {
      Basic(cache) && Full(layout)
    }

    ghost predicate Basic(cache: Cache)
      reads this
    {
      && |direct| == NDIRECT && nblks == blocks == |layout.inos|
      && (forall i: nat :: i < NDIRECT ==> direct[i] == Nth(layout.inos, i))
      && Laid(cache, layout) && indirect == Nth(layout.l1s, 0) && dbIndirect == l2 == layout.l2
      && l1 == if layout.l1s == [] then 0 else layout.l1s[|layout.l1s| - 1]
    }

    /** append_block with a block below the single indirect ones. */
    method AppendDirect(ino: nat, bytes: nat, ghost cache: Cache)
      requires Holds(cache) && nblks < NDIRECT
      modifies this
      ensures Holds(cache) && layout == old(layout).(inos := old(layout.inos) + [ino]) && size == old(size) + bytes
    {
      DirectOnly(cache, layout, ino);
      direct := direct[nblks := ino];
      Count(bytes);
      layout := layout.(inos := layout.inos + [ino]);
    }

    /** The end of append_block: the number goes into the index block at hand. */
    method PutNumber(img: Image, ino: nat, bytes: nat, j: nat)
      requires img.Valid() && Basic(img.cache) && layout.l1s != [] && j < NENTRY
      requires |layout.inos| == 12 + 1024 * (|layout.l1s| - 1) + j
      modifies this, img`cache
      ensures img.Valid() && Basic(img.cache) && layout == old(layout).(inos := old(layout.inos) + [ino])
      ensures Kept(old(img.cache), img.cache, layout) && size == old(size) + bytes
    {
      hide Laid, Image.Start;
      ghost var l := layout;
      LastTable(img.cache, l);
      AppendWord(img.cache, l, ino, j);
      img.Store(l1, j, ino);
      Count(bytes);
      layout := l.(inos := l.inos + [ino]);
    }

    /** append_block with a block listed in the inode's own index block. */
    method AppendSingle(img: Image, ino: nat, bytes: nat) returns (ok: bool, searched: bool)
      requires img.Valid() && Holds(img.cache) && NDIRECT <= nblks < NSLOTS
      modifies this, img
      ensures img.Valid() && !searched && (ok <==> old(nblks) != 12 || old(img.nextIno) < img.ninos)
      ensures ok ==> Appended(old(img.cache), img.cache, old(layout), ino) && size == old(size) + bytes
      ensures ok ==> img.nextIno == old(img.nextIno) + if old(nblks) == 12 then 1 else 0
      ensures ok ==> Gained(old(layout), layout, old(img.nextIno), img.nextIno)
    {
      hide Laid, Groups, Gained, Image.Start;
      GroupsAt(nblks);
      Nonzero(img.cache, layout);
      var j := nblks - NDIRECT;
      ghost var c, l := img.cache, layout;
      var b;
      ok, b, searched := img.UpdateCache(l1, indirect);
      if !ok {
        return;
      }
      GainedNone(l, old(img.nextIno), img.nextIno, l.inos + [ino]);
      if indirect == 0 {
        FirstTable(c, l, b);
        FirstGained(l, b, ino, old(img.nextIno), img.nextIno);
        l := l.(l1s := [b]);
      }
      l1, indirect, layout := b, b, l;
      GroupsAt(nblks + 1);
      PutNumber(img, ino, bytes, j);
    }

    /** The first update_cache of a block listed in an index block that is itself listed. */
    method UseList(img: Image) returns (ok: bool, searched: bool)
      requires img.Valid() && Basic(img.cache) && |layout.l1s| >= 1
      modifies this, img
      ensures img.Valid() && !searched && (ok <==> old(layout.l2) != 0 || old(img.nextIno) < img.ninos)
      ensures ok ==> img.nextIno == old(img.nextIno) + if old(layout.l2) == 0 then 1 else 0
      ensures ok ==> Gained(old(layout), layout, old(img.nextIno), img.nextIno)
      ensures ok ==>
                Basic(img.cache) && layout == old(layout).(l2 := layout.l2) && layout.l2 != 0 && nblks == old(nblks)
                && Kept(old(img.cache), img.cache, layout)
      ensures ok ==> l1 == old(l1) && size == old(size)
    {
      hide Laid, Groups, Gained, Image.Start;
      ghost var c, l := img.cache, layout;
      var b;
      ok, b, searched := img.UpdateCache(l2, dbIndirect);
      if !ok {
        return;
      }
      GainedNone(l, old(img.nextIno), img.nextIno, l.inos);
      if dbIndirect == 0 {
        Listed(c, l);
        AddList(c, l, b);
        GainedList(l, b, old(img.nextIno), img.nextIno);
        layout := l.(l2 := b);
      }
      l2, dbIndirect := b, b;
    }

    /** The second: index block k + 1 is the one at hand, or the next to be made. */
    method UseTable(img: Image, k: nat) returns (ok: bool, searched: bool)
      requires img.Valid() && Basic(img.cache) && layout.l2 != 0 && 1 <= k + 1 <= |layout.l1s| <= k + 2 < NENTRY
      requires |layout.l1s| == k + 1 ==> |layout.inos| == 12 + 1024 * (k + 1)
      modifies this, img
      ensures img.Valid() && !searched && (ok <==> old(|layout.l1s|) != k + 1 || old(img.nextIno) < img.ninos)
      ensures ok ==> img.nextIno == old(img.nextIno) + if old(|layout.l1s|) == k + 1 then 1 else 0
      ensures ok ==> Gained(old(layout), layout, old(img.nextIno), img.nextIno)
      ensures ok ==>
                Basic(img.cache) && layout == old(layout).(l1s := layout.l1s) && |layout.l1s| == k + 2
                && nblks == old(nblks) && size == old(size)
      ensures ok ==> Kept(old(img.cache), img.cache, layout) && forall b :: b in old(layout.l1s) ==> b in layout.l1s
    {
      hide Laid, Groups, Gained, Image.Start;
      Nonzero(img.cache, layout);
      ListTable(img.cache, layout, k);
      ghost var c, l := img.cache, layout;
      var entry := img.cache[l2][k];
      var b;
      ok, b, searched := img.UpdateCache(l1, entry);
      if !ok {
        return;
      }
      GainedNone(l, old(img.nextIno), img.nextIno, l.inos);
      if entry == 0 {
        AddTable(c, l, b);
        GainedTable(l, b, old(img.nextIno), img.nextIno);
        img.Store(l2, k, b);
        layout := l.(l1s := l.l1s + [b]);
      }
      l1 := b;
    }

    /** append_block with such a block. */
    method AppendDouble(img: Image, ino: nat, bytes: nat) returns (ok: bool, searched: bool)
      requires img.Valid() && Holds(img.cache) && NSLOTS <= nblks < MAX_FILE_BLOCKS
      modifies this, img
      ensures img.Valid() && !searched
      ensures ok <==> old(img.nextIno) + IndexBlocks(old(nblks) + 1) - IndexBlocks(old(nblks)) <= img.ninos
      ensures ok ==> Appended(old(img.cache), img.cache, old(layout), ino) && size == old(size) + bytes
      ensures ok ==> img.nextIno == old(img.nextIno) + IndexBlocks(old(nblks) + 1) - IndexBlocks(old(nblks))
      ensures ok ==> Gained(old(layout), layout, old(img.nextIno), img.nextIno)
    {
      hide Laid, Groups, IndexBlocks, Gained, Image.Start;
      ghost var was, lo := layout, img.nextIno;
      GroupsAt(nblks);
      IndexNext(nblks);
      var m := nblks - NSLOTS;
      ok, searched := UseList(img);
      if !ok {
        return;
      }
      ghost var listed, mid := layout, img.nextIno;
      ok, searched := UseTable(img, m / 1024);
      if !ok {
        return;
      }
      ghost var l := layout;
      GainedOn(was, listed, l, lo, mid, img.nextIno);
      GainedNone(l, img.nextIno, img.nextIno, l.inos + [ino]);
      GainedOn(was, l, l.(inos := l.inos + [ino]), lo, img.nextIno, img.nextIno);
      GroupsAt(nblks + 1);
      PutNumber(img, ino, bytes, m % 1024);
    }

    /** One more block, and the cached blocks of other files as they were. */
    ghost predicate Appended(before: Cache, after: Cache, was: Layout, ino: nat)
      reads this
    {
      Holds(after) && layout.inos == was.inos + [ino] && Kept(before, after, layout)
    }

    /** append_block: blocks come in order, so the cached block at hand is always the right one. It stops when the
        file is too big, or the image too small for the index blocks that the next block takes. */
    method AppendBlock(img: Image, ino: nat, bytes: nat) returns (ok: bool, searched: bool)
      requires img.Valid() && Holds(img.cache)
      modifies this, img
      ensures img.Valid() && !searched
      ensures ok <==>
                old(nblks) < 32768
                && old(img.nextIno) + IndexBlocks(old(nblks) + 1) - IndexBlocks(old(nblks)) <= img.ninos
      ensures ok ==> Appended(old(img.cache), img.cache, old(layout), ino) && size == old(size) + bytes
      ensures ok ==> img.nextIno == old(img.nextIno) + IndexBlocks(old(nblks) + 1) - IndexBlocks(old(nblks))
      ensures ok ==> Gained(old(layout), layout, old(img.nextIno), img.nextIno)
    {
      hide Laid, IndexBlocks, Groups, Gained, Image.Start;
      GainedNone(layout, img.nextIno, img.nextIno, layout.inos + [ino]);
      IndexNext(nblks);
      if nblks >= MAX_FILE_BLOCKS {
        return false, false;
      }
      if nblks < NDIRECT {
        AppendDirect(ino, bytes, img.cache);
        return true, false;
      }
      if nblks < NSLOTS {
        ok, searched := AppendSingle(img, ino, bytes);
      } else {
        ok, searched := AppendDouble(img, ino, bytes);
      }
    }

    method Count(bytes: nat)
      modifies `nblks, `size, `blocks
      ensures nblks == old(nblks) + 1 && blocks == old(blocks) + 1 && size == old(size) + bytes
    {
      nblks := nblks + 1;
      size := size + bytes;
      blocks := blocks + 1;
    }
  }

  lemma DirectOnly(cache: Cache, l: Layout, ino: nat)
    requires Laid(cache, l) && Full(l) && |l.inos| < NDIRECT
    ensures Laid(cache, l.(inos := l.inos + [ino])) && Full(l.(inos := l.inos + [ino]))
  {
  }

  // ---------- what the kernel finds ----------

  ghost predicate Words(words: seq<nat>) {
    |words| == NENTRY && forall j :: 0 <= j < NENTRY ==> words[j] < 0x1_0000_0000
  }

  /** A cached index block as it is written out. */
  ghost function Written(words: seq<nat>): Block
    requires Words(words)
  {
    seq(BLKSIZE, p requires 0 <= p < BLKSIZE => Encode(words[p / 4])[p % 4])
  }

  lemma EntryWritten(words: seq<nat>, i: nat)
    requires Words(words) && i < NENTRY
    ensures Entry(Written(words), i) == words[i]
  {
    var w := Written(words);
    assert w[4 * i..4 * i + 4] == Encode(words[i]);
    DecodeEncode(words[i]);
  }

  /** The kernel's block map leads to each block that was appended, as far as an inode of the kernel can reach, and
      nowhere behind them. */
  lemma KernelFinds(file: CacheFile, cache: Cache, disk: Disk, links: nat, i: nat)
    requires file.Holds(cache) && i < NSLOTS && file.indirect < |disk|
    requires |disk[file.indirect]| == BLKSIZE
    requires forall k :: 0 <= k < |file.layout.inos| ==> file.layout.inos[k] < 0x1_0000_0000
    requires file.indirect in cache && Words(cache[file.indirect]) ==>
               disk[file.indirect] == Written(cache[file.indirect])
    ensures var n := if file.blocks < NSLOTS then file.blocks else NSLOTS;
            var d := Din(file.size, n, file.direct, file.indirect, links);
            DinShape(disk, d) && Slot(disk, d, i) == Nth(file.layout.inos, i)
  {
    hide Written, Encode, Decode, Groups;
    var l := file.layout;
    Nonzero(cache, l);
    GroupsAt(|l.inos|);
    if |l.inos| > NDIRECT {
      assert HasTable(cache, l.l1s[0]);
      forall j: nat | j < NENTRY ensures cache[l.l1s[0]][j] == Nth(l.inos, 12 + j) {
        assert Word(cache, l.l1s, 0, j) == Nth(l.inos, 12 + 1024 * 0 + j);
      }
      if i >= NDIRECT { EntryWritten(cache[l.l1s[0]], i - NDIRECT); }
    }
  }

  // ---------- the freemap ----------

  /** The part of the freemap that starts at block i. */
  method FillBuffer(i: nat, nextIno: nat, ninos: nat) returns (buffer: seq<bool>)
    requires i < ninos && nextIno <= ninos
    ensures |buffer| == BLKBITS && forall k :: 0 <= k < BLKBITS ==> (buffer[k] <==> nextIno <= i + k < ninos)
  {
    buffer := seq(BLKBITS, k => false);
    if i + BLKBITS > nextIno {
      var start, end := 0, BLKBITS;
      if i < nextIno {
        start := nextIno - i;
      }
      if i + BLKBITS > ninos {
        end := ninos - i;
      }
      var j := start;
      while j < end
        invariant |buffer| == BLKBITS && start <= j <= end
        invariant forall k :: 0 <= k < BLKBITS ==> (buffer[k] <==> start <= k < j)
      {
        buffer := buffer[j := true];
        j := j + 1;
      }
    }
  }

  /** The first loop of close_sfs: the freemap as the kernel reads it. */
  method Freemap(nextIno: nat, ninos: nat) returns (bits: seq<bool>)
    requires nextIno <= ninos
    ensures ninos <= |bits| < ninos + BLKBITS && |bits| % BLKBITS == 0
    ensures forall k :: 0 <= k < |bits| ==> (bits[k] <==> nextIno <= k < ninos)
    ensures Count(bits) == ninos - nextIno
  {
    bits := [];
    var i := 0;
    while i < ninos
      invariant |bits| == i && i % BLKBITS == 0 && i < ninos + BLKBITS
      invariant forall k :: 0 <= k < i ==> (bits[k] <==> nextIno <= k < ninos)
    {
      var buffer := FillBuffer(i, nextIno, ninos);
      bits := bits + buffer;
      i := i + BLKBITS;
    }
    CountRange(bits, nextIno, ninos);
  }

  lemma {:induction false} CountRange(bits: seq<bool>, lo: nat, hi: nat)
    requires lo <= hi <= |bits| && forall k :: 0 <= k < |bits| ==> (bits[k] <==> lo <= k < hi)
    ensures Count(bits) == hi - lo
  {
    if bits != [] {
      var n := |bits| - 1;
      assert bits == bits[..n] + [bits[n]];
      CountLast(bits[..n], bits[n]);
      if bits[n] {
        CountRange(bits[..n], lo, hi - 1);
      } else if hi <= n {
        CountRange(bits[..n], lo, hi);
      } else {
        CountRange(bits[..n], n, n);
      }
    }
  }

  // ---------- the whole image ----------

  /** The blocks of a file: its inode, its index blocks and its data. */
  ghost function Numbers(ino: nat, l: Layout): set<nat> {
    {ino} + Index(l) + set i | 0 <= i < |l.inos| :: l.inos[i]
  }

  /** No block of a file has two uses in it. */
  ghost predicate Proper(ino: nat, l: Layout) {
    && Distinct(l.inos) && ino !in l.inos && ino !in Index(l)
    && forall i :: 0 <= i < |l.inos| ==> l.inos[i] !in Index(l)
  }

  /** The numbers of files are that of the root and those given out. */
  ghost predicate Given(b: nat, lo: nat, hi: nat) {
    (b == 1 || lo <= b) && 0 < b < hi
  }

  /** All that a file of the image must meet. */
  ghost predicate Fine(f: CacheFile, cache: Cache, lo: nat, next: nat)
    reads f
  {
    && f.Holds(cache) && Proper(f.ino, f.layout) && f.size <= f.nblks * 4096
    && forall b :: b in Numbers(f.ino, f.layout) ==> Given(b, lo, next)
  }

  /** Every file is laid out in the cache, and no block number is used twice in the image. */
  ghost predicate Whole(files: seq<CacheFile>, img: Image)
    reads files, img
  {
    && img.Valid() && (forall i, j :: 0 <= i < j < |files| ==> files[i] != files[j])
    && (forall i :: 0 <= i < |files| ==> Fine(files[i], img.cache, img.Start(), img.nextIno))
    && (forall i, j :: 0 <= i < j < |files| ==>
          Numbers(files[i].ino, files[i].layout) !! Numbers(files[j].ino, files[j].layout))
  }

  lemma InIndex(l: Layout, b: nat)
    ensures b in Index(l) <==> b in l.l1s || (b == l.l2 && l.l2 != 0)
  {
  }

  /** The index blocks of a layout are those its cached form depends on. */
  lemma LaidKept(before: Cache, after: Cache, l: Layout)
    requires Laid(before, l) && forall b :: b in Index(l) && b in before ==> b in after && after[b] == before[b]
    ensures Laid(after, l)
  {
    forall g | 0 <= g < |l.l1s| ensures HasTable(after, l.l1s[g]) && after[l.l1s[g]] == before[l.l1s[g]] {
      assert HasTable(before, l.l1s[g]) && l.l1s[g] in Index(l);
    }
    forall g: nat, j: nat | g < |l.l1s| && j < NENTRY
        ensures Word(after, l.l1s, g, j) == Nth(l.inos, 12 + 1024 * g + j) {
      assert Word(before, l.l1s, g, j) == Nth(l.inos, 12 + 1024 * g + j);
    }
    assert l.l2 != 0 ==> l.l2 in Index(l);
  }

  /** A file that shares no index block with the one appended to is as it was. */
  lemma OtherHolds(f: CacheFile, before: Cache, after: Cache, l: Layout)
    requires f.Holds(before) && Kept(before, after, l) && Index(f.layout) !! Index(l)
    ensures f.Holds(after)
  {
    forall b | b in Index(f.layout) && b in before ensures b in after && after[b] == before[b] {
      assert b !in Index(l);
      InIndex(l, b);
      assert b == l.l2 ==> l.l2 == 0;
    }
    LaidKept(before, after, f.layout);
  }

  lemma InNumbers(ino: nat, l: Layout, b: nat)
    ensures b in Numbers(ino, l) <==> b == ino || b in Index(l) || b in l.inos
  {
  }

  /** A new data block and the index blocks made for it. */
  lemma ProperAppended(ino: nat, was: Layout, now: Layout, data: nat, hi: nat)
    requires Proper(ino, was) && (forall b :: b in Numbers(ino, was) ==> b < data) && data < hi
    requires now.inos == was.inos + [data] && Gained(was, now, data + 1, hi)
    ensures Proper(ino, now) && forall b :: b in Numbers(ino, now) ==> b < hi && (b in Numbers(ino, was) || data <= b)
  {
    hide Index;
    InNumbers(ino, was, ino);
    forall i | 0 <= i < |was.inos| ensures was.inos[i] < data {
      InNumbers(ino, was, was.inos[i]);
    }
    forall b | b in Index(now) ensures b < data ==> b in Index(was) {
    }
    forall b | b in Index(was) ensures b < data {
      InNumbers(ino, was, b);
    }
    forall b | b in Numbers(ino, now) ensures b < hi && (b in Numbers(ino, was) || data <= b) {
      InNumbers(ino, now, b);
      InNumbers(ino, was, b);
      if b in now.inos {
        var i :| 0 <= i < |now.inos| && now.inos[i] == b;
        assert i < |was.inos| ==> now.inos[i] == was.inos[i];
      }
    }
  }

  lemma Blocks(f: CacheFile, cache: Cache)
    requires f.Holds(cache)
    ensures f.nblks == f.blocks == |f.layout.inos|
  {
  }

  /** The next block of data goes to file k. */
  method AppendTo(files: seq<CacheFile>, k: nat, img: Image, bytes: nat) returns (ok: bool)
    requires Whole(files, img) && k < |files| && bytes <= 4096
    modifies files[k], img
    ensures ok ==> Whole(files, img) && files[k].layout.inos == old(files[k].layout.inos) + [old(img.nextIno)]
    ensures ok ==> files[k].size == old(files[k].size) + bytes
    ensures var n := old(|files[k].layout.inos|);
            && (ok <==> n < 32768 && old(img.nextIno) + 1 + IndexBlocks(n + 1) - IndexBlocks(n) <= img.ninos)
            && (ok ==> img.nextIno == old(img.nextIno) + 1 + IndexBlocks(n + 1) - IndexBlocks(n))
  {
    hide Proper, Numbers, Index, CacheFile.Holds, Gained, IndexBlocks;
    IndexNext(files[k].nblks);
    var file := files[k];
    ghost var was, cache := file.layout, img.cache;
    assert Fine(file, cache, img.Start(), img.nextIno);
    Blocks(file, cache);
    var ino, searched;
    ok, ino := img.AllocIno();
    if !ok {
      return;
    }
    ok, searched := file.AppendBlock(img, ino, bytes);
    if ok {
      Blocks(file, img.cache);
      ProperAppended(file.ino, was, file.layout, ino, img.nextIno);
      forall j | 0 <= j < |files| && j != k
        ensures Fine(files[j], img.cache, img.Start(), img.nextIno)
        ensures Numbers(files[j].ino, files[j].layout) !! Numbers(file.ino, file.layout)
      {
        Apart(files[j], file.ino, was, file.layout, cache, img.cache, img.Start(), ino, img.nextIno);
      }
    }
  }

  /** What an append does to another file. */
  lemma Apart(f: CacheFile, ino: nat, was: Layout, now: Layout, before: Cache, after: Cache, start: nat, lo: nat,
              hi: nat)
    requires Fine(f, before, start, lo) && Kept(before, after, now) && lo <= hi
    requires Numbers(f.ino, f.layout) !! Numbers(ino, was)
    requires forall b :: b in Numbers(ino, now) ==> b in Numbers(ino, was) || lo <= b
    ensures Fine(f, after, start, hi) && Numbers(f.ino, f.layout) !! Numbers(ino, now)
  {
    hide Proper;
    forall b | b in Index(f.layout) ensures b !in Index(now) {
      InNumbers(f.ino, f.layout, b);
      InNumbers(ino, now, b);
    }
    OtherHolds(f, before, after, now);
  }

  /** A new file or directory, and another block for one that there is. */
  datatype Op = NewFile | Append(k: nat, bytes: nat)

  /** alloc_cache_inode with a number of its own. */
  method Create(files: seq<CacheFile>, img: Image) returns (ok: bool, files': seq<CacheFile>)
    requires Whole(files, img)
    modifies img
    ensures Whole(files', img) && (ok <==> old(img.nextIno) < img.ninos)
    ensures if ok then |files'| == |files| + 1 && files'[..|files|] == files && fresh(files'[|files|])
                && files'[|files|].layout.inos == [] && files'[|files|].size == 0 && img.nextIno == old(img.nextIno) + 1
              else files' == files
  {
    hide Index, CacheFile.Holds;
    files' := files;
    var ino;
    ok, ino := img.AllocIno();
    if ok {
      var file := new CacheFile(ino);
      Alone(ino);
      files' := files + [file];
      forall j | 0 <= j < |files|
        ensures Fine(files[j], img.cache, img.Start(), img.nextIno)
        ensures Numbers(files[j].ino, files[j].layout) !! Numbers(ino, file.layout)
      {
        assert Fine(files[j], img.cache, img.Start(), ino);
      }
    }
  }

  lemma Alone(ino: nat)
    ensures Proper(ino, Layout([], [], 0)) && Numbers(ino, Layout([], [], 0)) == {ino}
  {
  }

  // ---------- what the image of a sequence of operations holds ----------

  /** The blocks and the size of a file. */
  datatype Extent = Extent(blocks: nat, size: nat)

  ghost function Grown(e: seq<Extent>, op: Op): seq<Extent> {
    match op
    case NewFile => e + [Extent(0, 0)]
    case Append(k, bytes) =>
      if k < |e| && bytes <= 4096 then e[k := Extent(e[k].blocks + 1, e[k].size + bytes)] else e
  }

  /** The files, beginning with an empty root. */
  ghost function Made(ops: seq<Op>): seq<Extent> {
    if ops == [] then [Extent(0, 0)] else Grown(Made(ops[..|ops| - 1]), ops[|ops| - 1])
  }

  /** Inode, data blocks and index blocks of a file. */
  ghost function Takes(e: Extent): nat {
    1 + e.blocks + IndexBlocks(e.blocks)
  }

  ghost function Taken(e: seq<Extent>): nat {
    if e == [] then 0 else Takes(e[0]) + Taken(e[1..])
  }

  /** The files and the freemap go on a disk of ninos blocks behind the superblock, and none is too big. */
  ghost predicate Fits(e: seq<Extent>, ninos: nat) {
    && 1 + (ninos + 32767) / 32768 + Taken(e) <= ninos
    && forall i :: 0 <= i < |e| ==> e[i].blocks <= 32768
  }

  lemma {:induction false} TakenLast(e: seq<Extent>, x: Extent)
    ensures Taken(e + [x]) == Taken(e) + Takes(x)
  {
    if e != [] {
      TakenLast(e[1..], x);
      assert (e + [x])[1..] == e[1..] + [x];
    } else {
      assert (e + [x])[1..] == [];
    }
  }

  lemma {:induction false} TakenUpdate(e: seq<Extent>, k: nat, x: Extent)
    requires k < |e|
    ensures Taken(e[k := x]) == Taken(e) - Takes(e[k]) + Takes(x)
  {
    if k > 0 {
      TakenUpdate(e[1..], k - 1, x);
      assert e[k := x][1..] == e[1..][k - 1 := x];
    } else {
      assert e[k := x][1..] == e[1..];
    }
  }

  lemma GrownTakes(e: seq<Extent>, op: Op)
    ensures Taken(e) <= Taken(Grown(e, op)) && |e| <= |Grown(e, op)|
    ensures forall i :: 0 <= i < |e| ==> e[i].blocks <= Grown(e, op)[i].blocks
  {
    hide Takes;
    match op
    case NewFile => TakenLast(e, Extent(0, 0));
    case Append(k, bytes) =>
      if k < |e| && bytes <= 4096 {
        TakenUpdate(e, k, Extent(e[k].blocks + 1, e[k].size + bytes));
        TakesMore(e[k], bytes);
      }
  }

  lemma TakesMore(e: Extent, bytes: nat)
    ensures Takes(Extent(e.blocks + 1, e.size + bytes)) > Takes(e)
  {
    IndexNext(e.blocks);
  }

  /** What does not fit after some operations does not fit after all. */
  lemma {:induction false} FitsBefore(ops: seq<Op>, n: nat, ninos: nat)
    requires n <= |ops| && Fits(Made(ops), ninos)
    ensures Fits(Made(ops[..n]), ninos)
  {
    if n == |ops| {
      assert ops[..n] == ops;
    } else {
      var all, last := ops[..|ops| - 1], ops[|ops| - 1];
      GrownTakes(Made(all), last);
      FitsBefore(all, n, ninos);
      assert all[..n] == ops[..n];
    }
  }

  ghost predicate Matches(files: seq<CacheFile>, e: seq<Extent>)
    reads files
  {
    && |files| == |e|
    && forall i :: 0 <= i < |files| ==> |files[i].layout.inos| == e[i].blocks && files[i].size == e[i].size
  }

  /** The image holds just these files. */
  ghost predicate Shows(files: seq<CacheFile>, img: Image, e: seq<Extent>)
    reads files, img
  {
    && Whole(files, img) && Matches(files, e) && Fits(e, img.ninos)
    && img.nextIno == 1 + (img.ninos + 32767) / 32768 + Taken(e)
  }

  /** What one more file takes. */
  lemma FileFits(e: seq<Extent>, ninos: nat)
    requires Fits(e, ninos)
    ensures var f := Grown(e, NewFile);
            && Taken(f) == Taken(e) + 1
            && (Fits(f, ninos) <==> 1 + (ninos + 32767) / 32768 + Taken(e) < ninos)
  {
    TakenLast(e, Extent(0, 0));
  }

  /** What one more block takes. */
  lemma BlockFits(e: seq<Extent>, ninos: nat, k: nat, bytes: nat)
    requires Fits(e, ninos) && k < |e| && bytes <= 4096
    ensures var f, n := Grown(e, Append(k, bytes)), e[k].blocks;
            && Taken(f) == Taken(e) + 1 + IndexBlocks(n + 1) - IndexBlocks(n)
            && (Fits(f, ninos) <==> n < 32768 && 1 + (ninos + 32767) / 32768 + Taken(f) <= ninos)
  {
    hide IndexBlocks;
    var f := Grown(e, Append(k, bytes));
    TakenUpdate(e, k, f[k]);
  }

  method Perform(files: seq<CacheFile>, img: Image, op: Op, ghost e: seq<Extent>)
    returns (ok: bool, files': seq<CacheFile>)
    requires Shows(files, img, e)
    modifies files, img
    ensures ok <==> Fits(Grown(e, op), img.ninos)
    ensures ok ==> Shows(files', img, Grown(e, op))
    ensures forall i :: 0 <= i < |files'| ==> files'[i] in files || fresh(files'[i])
  {
    hide Fine, Numbers, IndexBlocks, Fits, Taken;
    ok, files' := true, files;
    match op {
    case NewFile =>
      FileFits(e, img.ninos);
      ok, files' := Create(files, img);
    case Append(k, bytes) =>
      if k < |files| && bytes <= 4096 {
        BlockFits(e, img.ninos, k, bytes);
        ok := AppendTo(files, k, img, bytes);
      }
    }
  }

  /** Any number of files, filled in any order: all of it is done if and only if it fits on the disk and no file gets
      too big. Then the files are those asked for, with their blocks and sizes; each is laid out as the kernel will
      find it, no block is used twice, and none of them is marked free. */
  method Build(fileBlocks: nat, ops: seq<Op>) returns (img: Image, files: seq<CacheFile>, bits: seq<bool>, done: nat)
    requires var n := if fileBlocks > MAX_NBLKS then MAX_NBLKS else fileBlocks; 2 + (n + BLKBITS - 1) / BLKBITS < n
    ensures done <= |ops| && img.ninos == if fileBlocks > 524_288 then 524_288 else fileBlocks
    ensures done == |ops| <==> Fits(Made(ops), img.ninos)
    ensures done == |ops| ==>
              && Shows(files, img, Made(ops)) && Count(bits) == img.unused && MarksFree(bits, img.nextIno, img.ninos)
              && NoneFree(files, bits) && |bits| % 32768 == 0 && |bits| < img.ninos + 32768
  {
    hide Index, CacheFile.Holds, Numbers, Proper, Fine, Fits, Taken, Matches;
    img := new Image(fileBlocks);
    var root := new CacheFile(1);
    files, bits, done := [root], [], 0;
    RootFine(root, img);
    while done < |ops|
      invariant done <= |ops| && Shows(files, img, Made(ops[..done])) && fresh(img)
      invariant img.ninos == if fileBlocks > 524_288 then 524_288 else fileBlocks
      invariant forall i :: 0 <= i < |files| ==> fresh(files[i])
    {
      var ok;
      assert ops[..done + 1][..done] == ops[..done];
      ok, files := Perform(files, img, ops[done], Made(ops[..done]));
      if !ok {
        if Fits(Made(ops), img.ninos) {
          FitsBefore(ops, done + 1, img.ninos);
        }
        return;
      }
      done := done + 1;
    }
    assert ops[..done] == ops;
    bits := img.CloseFreemap();
    TakenNumbers(files, img, bits);
  }

  lemma RootFine(root: CacheFile, img: Image)
    requires img.Valid() && root.ino == 1 < img.nextIno && root.layout == Layout([], [], 0) && root.Holds(img.cache)
    requires root.size == 0 && img.nextIno == 2 + (img.ninos + 32767) / 32768 < img.ninos
    ensures Shows([root], img, Made([]))
  {
    Alone(1);
  }

  /** The freemap marks no block of a file as free. */
  ghost predicate NoneFree(files: seq<CacheFile>, bits: seq<bool>)
    reads files
  {
    forall i, b :: 0 <= i < |files| && b in Numbers(files[i].ino, files[i].layout) ==> b < |bits| && !bits[b]
  }

  lemma TakenNumbers(files: seq<CacheFile>, img: Image, bits: seq<bool>)
    requires Whole(files, img) && MarksFree(bits, img.nextIno, img.ninos)
    ensures NoneFree(files, bits)
  {
    hide Numbers;
    forall i: nat | i < |files| ensures Fine(files[i], img.cache, img.Start(), img.nextIno) {
    }
  }
}
