/** The file layer of the simple file system (kern/fs/sfs/sfs_inode.c and sfs_io.c). */
module Sfs {
  import opened Bitmaps
  import opened SfsLayout
  import opened SfsBytes

  /** The return codes, and the failure of a kernel assertion. */
  datatype Ret = Ok | Inval | NoMem | Panic

  const MAX_FILE_SIZE := 1024 * 1024 * 128

  /** An unsigned 32-bit number stored in an off_t. */
  function ToOff(n: nat): int {
    var w := n % 0x1_0000_0000;
    if w < 0x8000_0000 then w else w - 0x1_0000_0000
  }

  lemma IndexTaken(s: Fs, x: nat)
    requires Inv(s) && x in s.dins
    ensures DinShape(s.disk, s.dins[x]) && !s.free[s.dins[x].indirect]
  {
    assert Owns(s.disk, x, s.dins[x], s.owner);
  }

  predicate BadRange(offset: int, len: nat) {
    offset < 0 || offset >= MAX_FILE_SIZE || offset + len >= 0x8000_0000
  }

  /** A range is good if it starts below 128 MB and its end can be stored; so every range within the largest file is,
      and none is cut short. */
  lemma GoodRange(offset: int, len: nat)
    ensures !BadRange(offset, len) <==> 0 <= offset < 134_217_728 && offset + len < 2_147_483_648
    ensures 0 <= offset && offset + len <= 4_243_456 ==> !BadRange(offset, len) && End(offset, len) == offset + len
    ensures 0 <= offset ==> (End(offset, len) == offset + len <==> offset + len <= 134_217_728)
  {
  }

  /** Nothing is written in full that does not fit into the largest file. */
  lemma WrittenInFull(d: Din, u: nat, offset: nat, len: nat)
    requires offset < MAX_FILE_SIZE && WriteRet(d, u, offset, End(offset, len)).Ok?
    ensures End(offset, len) == offset + len && (len > 0 ==> offset + len <= 4_243_456)
  {
    CeilIs(End(offset, len));
  }

  /** Where a read or write of len bytes at offset is to end. */
  function End(offset: nat, len: nat): nat {
    if offset + len > MAX_FILE_SIZE then MAX_FILE_SIZE else offset + len
  }

  /** The start of sfs_io_nolock: the end of the range is computed in 32 bits. */
  method Range(offset: int, len: nat) returns (bad: bool, endpos: int)
    requires -0x8000_0000 <= offset < 0x8000_0000 && len < 0x1_0000_0000
    ensures bad == BadRange(offset, len) && (!bad ==> endpos == End(offset, len))
  {
    endpos := ToOff((if offset < 0 then offset + 0x1_0000_0000 else offset) + len);
    if offset < 0 || offset >= MAX_FILE_SIZE || offset > endpos {
      return true, endpos;
    }
    if endpos > MAX_FILE_SIZE {
      endpos := MAX_FILE_SIZE;
    }
    bad := false;
  }

  // ---------- what sfs_bmap_get_nolock leaves when it fills the slot behind the last block of file x ----------

  ghost function FilledDirect(s: Fs, x: nat, b: nat): Fs
    requires x in s.dins && b < |s.free| == |s.disk| && |s.dins[x].direct| == NDIRECT && s.dins[x].blocks < NDIRECT
  {
    var d := s.dins[x];
    Fs(s.free[b := false], s.disk[b := Zero()], s.dins[x := d.(direct := d.direct[d.blocks := b])], s.owner)
  }

  ghost function FilledIndirect(s: Fs, x: nat, b: nat): Fs
    requires x in s.dins && b < |s.free| == |s.disk| < 0x1_0000_0000 && DinShape(s.disk, s.dins[x])
    requires NDIRECT <= s.dins[x].blocks < NSLOTS
  {
    var d := s.dins[x];
    Fs(s.free[b := false],
       s.disk[b := Zero()][d.indirect := Splice(s.disk[d.indirect], 4 * (d.blocks - NDIRECT), Encode(b))], s.dins,
           s.owner)
  }

  ghost function FilledIndexed(s: Fs, x: nat, e: nat, b: nat): Fs
    requires x in s.dins && e < |s.free| && b < |s.free| == |s.disk| < 0x1_0000_0000
    requires NDIRECT <= s.dins[x].blocks < NSLOTS
  {
    var d := s.dins[x];
    Fs(s.free[e := false][b := false],
       s.disk[e := Zero()][b := Zero()][e := Splice(Zero(), 4 * (d.blocks - NDIRECT), Encode(b))],
       s.dins[x := d.(indirect := e)], s.owner)
  }

  /** The slot behind the last block of x has been filled with b, a free block, and an index block e made if there was
      none. */
  ghost predicate Filled(s: Fs, now: Fs, x: nat, e: nat, b: nat) {
    && x in s.dins && b < |s.free| == |s.disk| < 0x1_0000_0000 && s.free[b] && DinShape(s.disk, s.dins[x])
    && s.dins[x].blocks < NSLOTS
    && if s.dins[x].blocks < NDIRECT then now == FilledDirect(s, x, b)
       else if s.dins[x].indirect != 0 then now == FilledIndirect(s, x, b)
       else e < |s.free| && s.free[e] && e != b && now == FilledIndexed(s, x, e, b)
  }

  /** What sfs_bmap_get_nolock leaves when it has made a block. */
  lemma IsFilled(s: Fs, now: Fs, x: nat, e: nat, b: nat)
    requires x in s.dins && b < |s.free| == |s.disk| < 0x1_0000_0000 && s.free[b] && DinShape(s.disk, s.dins[x])
    requires s.dins[x].blocks < NSLOTS
    requires var d := s.dins[x];
             if d.blocks < NDIRECT then now == FilledDirect(s, x, b)
             else if d.indirect != 0 then now == FilledIndirect(s, x, b)
             else e < |s.free| && s.free[e] && e != b && now == FilledIndexed(s, x, e, b)
    ensures Filled(s, now, x, e, b)
  {
  }

  lemma SetBack(bits: seq<bool>, e: nat)
    requires e < |bits| && bits[e]
    ensures bits[e := false][e := true] == bits
  {
  }

  /** What it leaves when there is none: at most a free block has been cleared. */
  lemma IsUnspent(s: Fs, t: Fs, e: nat)
    requires t.free == s.free && t.dins == s.dins && t.owner == s.owner && |s.disk| == |s.free|
    requires t.disk == s.disk || (e < |s.disk| && s.free[e] && t.disk == s.disk[e := Zero()])
    ensures Unspent(s, t)
  {
  }

  /** Counting the new block in completes the step. */
  ghost function CountedIn(now: Fs, x: nat, owner: map<nat, Use>): Fs
    requires x in now.dins
  {
    now.(dins := now.dins[x := now.dins[x].(blocks := now.dins[x].blocks + 1)], owner := owner)
  }

  lemma DirectCounted(s: Fs, x: nat, b: nat)
    requires x in s.dins && b < |s.free| == |s.disk| && |s.dins[x].direct| == NDIRECT && s.dins[x].blocks < NDIRECT
    ensures CountedIn(FilledDirect(s, x, b), x, s.owner[b := Data(x, s.dins[x].blocks)]) ==
              WithDirect(Cleared(s, b), x, b)
  {
    var d := s.dins[x];
    var d' := d.(direct := d.direct[d.blocks := b]);
    assert s.dins[x := d'][x := d'.(blocks := d.blocks + 1)] == s.dins[x := d'.(blocks := d.blocks + 1)];
  }

  lemma IndirectCounted(s: Fs, x: nat, b: nat)
    requires x in s.dins && b < |s.free| == |s.disk| < 0x1_0000_0000 && DinShape(s.disk, s.dins[x])
    requires NDIRECT <= s.dins[x].blocks < NSLOTS && b != s.dins[x].indirect
    ensures CountedIn(FilledIndirect(s, x, b), x, s.owner[b := Data(x, s.dins[x].blocks)]) ==
              WithIndirect(Cleared(s, b), x, b)
  {
  }

  lemma IndexedCounted(s: Fs, x: nat, e: nat, b: nat)
    requires x in s.dins && e < |s.free| && b < |s.free| == |s.disk| < 0x1_0000_0000 && DinShape(s.disk, s.dins[x])
    requires NDIRECT <= s.dins[x].blocks < NSLOTS && b != e && e != 0 && |s.disk[e]| == BLKSIZE
    ensures CountedIn(FilledIndexed(s, x, e, b), x, s.owner[e := Index(x)][b := Data(x, s.dins[x].blocks)]) ==
            WithIndirect(Cleared(WithIndex(Cleared(s, e), x, e), b), x, b)
  {
    var d := s.dins[x];
    var d' := d.(indirect := e);
    assert s.dins[x := d'][x := d'.(blocks := d.blocks + 1)] == s.dins[x := d'.(blocks := d.blocks + 1)];
  }

  lemma FilledAppends(s: Fs, now: Fs, x: nat, e: nat, b: nat) returns (owner: map<nat, Use>)
    requires Inv(s) && Filled(s, now, x, e, b)
    ensures x in now.dins && Appends(s, CountedIn(now, x, owner), x, b)
  {
    var n := s.dins[x].blocks;
    if n < NDIRECT {
      AppendDirect(s, x, b);
      DirectCounted(s, x, b);
      owner := s.owner[b := Data(x, n)];
    } else if s.dins[x].indirect != 0 {
      assert Owns(s.disk, x, s.dins[x], s.owner);
      AppendIndirect(s, x, b);
      IndirectCounted(s, x, b);
      owner := s.owner[b := Data(x, n)];
    } else {
      AppendIndexed(s, x, e, b);
      IndexedCounted(s, x, e, b);
      owner := s.owner[e := Index(x)][b := Data(x, n)];
    }
  }

  // ---------- what sfs_bmap_free_nolock leaves ----------

  ghost function Emptied(s: Fs, x: nat, index: nat): Fs
    requires x in s.dins && DinShape(s.disk, s.dins[x]) && index < NSLOTS && Slot(s.disk, s.dins[x], index) < |s.free|
  {
    var d := s.dins[x];
    var b := Slot(s.disk, d, index);
    if b == 0 then s
    else if index < NDIRECT then s.(free := s.free[b := true], dins := s.dins[x := d.(direct := d.direct[index := 0])])
    else s.(free := s.free[b := true],
        disk := s.disk[d.indirect := Splice(s.disk[d.indirect], 4 * (index - NDIRECT), Encode(0))])
  }

  ghost function CountedOut(now: Fs, x: nat, uses: map<nat, Use>): Fs
    requires x in now.dins && now.dins[x].blocks > 0
  {
    now.(dins := now.dins[x := now.dins[x].(blocks := now.dins[x].blocks - 1)], owner := uses)
  }

  lemma EmptiedCounted(s: Fs, x: nat, b: nat)
    requires x in s.dins && DinShape(s.disk, s.dins[x]) && 0 < s.dins[x].blocks && |s.free| == |s.disk|
    requires b == Slot(s.disk, s.dins[x], s.dins[x].blocks - 1) && 0 < b < |s.free|
    ensures CountedOut(Emptied(s, x, s.dins[x].blocks - 1), x, s.owner - {b}) ==
            if s.dins[x].blocks <= NDIRECT then WithoutDirect(s, x, b) else WithoutIndirect(s, x, b)
  {
    var d := s.dins[x];
    if d.blocks <= NDIRECT {
      var d' := d.(direct := d.direct[d.blocks - 1 := 0]);
      assert s.dins[x := d'][x := d'.(blocks := d.blocks - 1)] == s.dins[x := d'.(blocks := d.blocks - 1)];
    }
  }

  lemma EmptiedDrops(s: Fs, x: nat) returns (uses: map<nat, Use>)
    requires Inv(s) && x in s.dins && s.dins[x].blocks > 0
    ensures var b := Slot(s.disk, s.dins[x], s.dins[x].blocks - 1);
            && 0 < b < |s.free| && !s.free[b]
            && Drops(s, CountedOut(Emptied(s, x, s.dins[x].blocks - 1), x, uses), x)
  {
    var b := Slot(s.disk, s.dins[x], s.dins[x].blocks - 1);
    LastOwned(s, x, b);
    EmptiedCounted(s, x, b);
    uses := s.owner - {b};
    if s.dins[x].blocks <= NDIRECT { ShrinkDirect(s, x, b); } else { ShrinkIndirect(s, x, b); }
  }

  lemma LoadedWritten(s: Fs, t: Fs, x: nat, i: nat, b: nat, pos: nat, u: nat)
    requires Inv(s) && x in s.dins && i <= s.dins[x].blocks
    requires (i < s.dins[x].blocks && s == t) || (i == s.dins[x].blocks && Appends(s, t, x, b))
    ensures Written(s, t, x, pos, []) && i < t.dins[x].blocks
    ensures Spent(s.dins[x], t.dins[x], if i == s.dins[x].blocks then u + Need(s.dins[x]) else u, u)
    ensures t.dins[x].blocks == if i < s.dins[x].blocks then s.dins[x].blocks else i + 1
  {
    if i < s.dins[x].blocks {
      WrittenNone(s, x, pos);
      SpentNone(s.disk, s.dins[x], u);
    } else {
      AppendWritten(s, t, x, b, pos);
      SpentAppend(s, t, x, b, u + Need(s.dins[x]));
    }
  }

  lemma LoadedPiece(s: Fs, t: Fs, x: nat, i: nat, b: nat, off: nat, pos: nat, piece: seq<Byte>, u: nat)
    requires Inv(s) && x in s.dins && i <= s.dins[x].blocks && off + |piece| <= BLKSIZE && pos == i * 4096 + off
    requires (i < s.dins[x].blocks && s == t && b == Slot(s.disk, s.dins[x], i))
               || (i == s.dins[x].blocks && Appends(s, t, x, b))
    ensures Shaped(t.disk) && 0 < b < |t.disk| && |t.disk[b]| == BLKSIZE && x in t.dins && i < t.dins[x].blocks
    ensures Written(s, t.(disk := t.disk[b := Splice(t.disk[b], off, piece)]), x, pos, piece)
    ensures Spent(s.dins[x], t.dins[x], if i == s.dins[x].blocks then u + Need(s.dins[x]) else u, u)
    ensures t.dins[x].blocks == if i < s.dins[x].blocks then s.dins[x].blocks else i + 1
  {
    LoadedWritten(s, t, x, i, b, pos, u);
    PieceWritten(t, x, i, b, off, pos, piece);
    WrittenLater(s, t, t.(disk := t.disk[b := Splice(t.disk[b], off, piece)]), x, pos, piece);
  }

  lemma LoadedRet(s: Fs, t: Fs, x: nat, u: nat, v: nat, offset: nat, alen: nat, len: nat, ret: Ret)
    requires Kept(s, t, x) && Spent(s.dins[x], t.dins[x], u, v) && Tight(s.dins[x], t.dins[x], offset, alen)
    requires offset / 4096 <= s.dins[x].blocks && alen <= len && 0 < len && !ret.Inval?
    requires ret.Panic? ==> Ceil(offset + len) > NSLOTS && t.dins[x].blocks == NSLOTS
    requires ret.Ok? ==> alen == len && Ceil(offset + len) <= t.dins[x].blocks
    requires ret.NoMem? ==> Short(s.dins[x], u, Ceil(offset + len)) && v < Need(t.dins[x])
    ensures ret == LoadRet(s.dins[x], u, offset + len)
    ensures Stranded(s.dins[x], u, offset) <==> ret.NoMem? && alen == 0 && offset > s.dins[x].blocks * 4096
  {
    hide Inv, OthersKept;
    InSlots(t, x);
    StrandedExact(s.dins[x], t.dins[x], u, v, offset, alen, len, ret);
  }

  lemma InSlots(s: Fs, x: nat)
    requires Inv(s) && x in s.dins
    ensures DinShape(s.disk, s.dins[x]) && s.dins[x].blocks <= NSLOTS && Shaped(s.disk)
  {
  }

  lemma Starts(s: Fs, u: nat, x: nat, offset: nat, buf: seq<Byte>)
    requires Inv(s) && x in s.dins
    ensures Progress(s, s, x, offset, buf, 0) && Spent(s.dins[x], s.dins[x], u, u)
    ensures Tight(s.dins[x], s.dins[x], offset, 0)
  {
    WrittenNone(s, x, offset);
    SpentNone(s.disk, s.dins[x], u);
  }

  /** With u blocks free, file d cannot be given n blocks, or as many as it may have. */
  ghost predicate Short(d: Din, u: nat, n: nat) {
    !Affordable(d, u, if n < NSLOTS then n else NSLOTS)
  }

  lemma ShortMore(d: Din, u: nat, m: nat, n: nat)
    requires Short(d, u, m) && m <= n
    ensures Short(d, u, n)
  {
  }

  lemma ShortAt(d: Din, u: nat, i: nat, n: nat)
    requires d.blocks <= i < n && i < NSLOTS && u < Cost(d, i + 1)
    ensures Short(d, u, n)
  {
  }

  /** What a write to the end n returns, which starts at one of the blocks of file d or right behind them, with u
      blocks free. */
  ghost function LoadRet(d: Din, u: nat, n: nat): Ret {
    if Short(d, u, Ceil(n)) then NoMem else if Ceil(n) > NSLOTS then Panic else Ok
  }

  /** What a write of bytes offset to n returns: a block further behind fails an assertion. */
  ghost function WriteRet(d: Din, u: nat, offset: nat, n: nat): Ret {
    if offset == n then Ok else if offset / 4096 > d.blocks then Panic else LoadRet(d, u, n)
  }

  /** There is no block left for an offset inside the block behind the last of file d. */
  ghost predicate Stranded(d: Din, u: nat, offset: nat) {
    d.blocks < NSLOTS && d.blocks * 4096 < offset < d.blocks * 4096 + 4096 && u < Need(d)
  }

  /** That is when a write behind the blocks of a file fails without having written anything. */
  lemma StrandedExact(d: Din, e: Din, u: nat, v: nat, offset: nat, alen: nat, len: nat, ret: Ret)
    requires Spent(d, e, u, v) && Tight(d, e, offset, alen) && offset / 4096 <= d.blocks && alen <= len && 0 < len
    requires ret == LoadRet(d, u, offset + len) && (ret.NoMem? ==> v < Need(e)) && (ret.Ok? ==> alen == len)
    requires d.blocks <= e.blocks <= NSLOTS
    ensures Stranded(d, u, offset) <==> ret.NoMem? && alen == 0 && offset > d.blocks * 4096
  {
    CeilIs(offset + len);
    CeilIs(offset + alen);
  }

  /** As with an empty file, a full disk and an offset of 1. */
  lemma StrandedWrite(d: Din)
    requires d.size == 0 && d.blocks == 0
    ensures Stranded(d, 0, 1) && WriteRet(d, 0, 1, 2) == NoMem
  {
    CeilIs(2);
  }

  lemma Reloaded(s: Fs, t: Fs, now: Fs, x: nat, b: nat, ret: Ret, u: nat, v: nat, w: nat)
    requires Reshaped(s, t, x) && Spent(s.dins[x], t.dins[x], u, v)
    requires ret.Ok? ==> Appends(t, now, x, b) && v >= Need(t.dins[x]) && w == v - Need(t.dins[x])
    requires ret.NoMem? ==> Unspent(t, now) && w == v
    requires ret.Panic? ==> now == t && w == v
    requires !ret.Inval?
    ensures Reshaped(s, now, x) && Spent(s.dins[x], now.dins[x], u, w) && now.dins[x].blocks <= NSLOTS
    ensures now.dins[x].blocks == t.dins[x].blocks + if ret.Ok? then 1 else 0
  {
    hide OthersKept, File, Fit;
    if ret.Ok? {
      ReshapedGrow(s, t, now, x, b);
      SpentAppend(t, now, x, b, v);
      SpentTwice(s.dins[x], t.dins[x], now.dins[x], u, v, w);
    } else if ret.NoMem? {
      ReshapedStall(s, t, now, x);
    }
  }

  lemma DropsKeeps(s: Fs, t: Fs, x: nat)
    requires Drops(s, t, x)
    ensures Inv(t) && x in s.dins && x in t.dins && t.dins[x].blocks == s.dins[x].blocks - 1
  {
  }

  lemma ReshapedKept(s: Fs, t: Fs, x: nat)
    requires Reshaped(s, t, x)
    ensures Inv(t) && OthersKept(s, t, x) && x in s.dins && x in t.dins && SameFile(s.dins[x], t.dins[x])
  {
  }

  lemma ShrunkReshaped(s: Fs, t: Fs, x: nat)
    requires Shrunk(s, t, x)
    ensures Reshaped(s, t, x) && GaveUp(s.owner, t.owner, x, t.dins[x].blocks)
    ensures t.dins[x].indirect == s.dins[x].indirect
    ensures t.dins[x].nlinks == s.dins[x].nlinks
  {
  }

  /** File x has given up its blocks from block n on, and the count of free blocks has gone from u to v. */
  ghost predicate Released(s: Fs, t: Fs, x: nat, n: nat, u: nat, v: nat) {
    && x in s.dins && x in t.dins && n <= s.dins[x].blocks && v == u + s.dins[x].blocks - n
    && GaveUp(s.owner, t.owner, x, n)
    && t.dins[x].indirect == s.dins[x].indirect && t.dins[x].nlinks == s.dins[x].nlinks
  }

  /** What sfs_truncfile answers to a length in range. A file of the wanted size whose blocks do not match it, left by a
      write or truncation that ran out of blocks, fails an assertion; so does a file that is to have more blocks than an
      inode can name, unless the disk is full before. */
  ghost function TruncRet(d: Din, u: nat, len: nat): Ret {
    var n := Ceil(len);
    if d.size == len then (if d.blocks == n then Ok else Panic)
    else if n <= d.blocks then Ok
    else if !Affordable(d, u, if n < NSLOTS then n else NSLOTS) then NoMem
    else if n <= NSLOTS then Ok
    else Panic
  }

  /** The blocks of x, and no others, have gone back to the freemap. */
  ghost predicate Returned(s: Fs, t: Fs, x: nat) {
    && |t.free| == |s.free|
    && forall k: nat :: k < |s.free| ==>
          (t.free[k] <==> s.free[k] || (k in s.owner && (s.owner[k] == Node(x) || Uses(s.owner[k], x))))
  }

  lemma OwnBlocks(s: Fs, x: nat)
    requires Inv(s) && x in s.dins
    ensures 0 < x < |s.disk| == |s.free| && s.dins[x].indirect < |s.free| && x != s.dins[x].indirect
    ensures !s.free[x] && !s.free[s.dins[x].indirect]
    ensures forall k :: k in s.owner && s.owner[k] == Node(x) ==> k == x
    ensures forall k :: k in s.owner && s.owner[k] == Index(x) ==> k == s.dins[x].indirect
    ensures Has(s.owner, x, Node(x)) && (s.dins[x].indirect != 0 ==> Has(s.owner, s.dins[x].indirect, Index(x)))
    ensures Has(s.owner, 0, Meta)
  {
    assert Owns(s.disk, x, s.dins[x], s.owner);
    forall k | k in s.owner ensures Named(s.disk, s.dins, k, s.owner[k]) {
    }
  }

  lemma FreeOwned(s: Fs, k: nat)
    requires Inv(s) && k < |s.free|
    ensures s.free[k] <==> k !in s.owner
  {
  }

  lemma Reclaimed(s: Fs, t: Fs, x: nat)
    requires Inv(s) && Inv(t) && x in s.dins && x in t.dins && GaveUp(s.owner, t.owner, x, 0) && OthersKept(s, t, x)
    requires Sized(t.dins)
    requires |s.free| == |t.free| && t.dins[x].blocks == 0
    ensures OwnBlocksOk(t, x) && OthersKept(s, Removed(t, x), x) && Sized(Removed(t, x).dins)
    ensures Returned(s, Removed(t, x), x)
  {
    hide Inv, OthersKept;
    OwnBlocks(t, x);
    RemoveInode(t, x);
    OthersTrans(s, t, Removed(t, x), x);
    forall k: nat | k < |s.free|
      ensures Removed(t, x).free[k] <==> s.free[k] || (k in s.owner && (s.owner[k] == Node(x) || Uses(s.owner[k], x)))
    {
      FreeOwned(s, k);
      FreeOwned(t, k);
    }
  }

  ghost predicate OwnBlocksOk(s: Fs, x: nat) {
    x in s.dins && 0 < x < |s.free| && s.dins[x].indirect < |s.free| && x != s.dins[x].indirect && !s.free[x]
        && !s.free[s.dins[x].indirect]
  }

  /** A file that fails to grow for want of blocks keeps those it got. The next truncation to its size fails an
      assertion just when it got any. */
  lemma FailedGrowthExact(d: Din, e: Din, u: nat, v: nat, len: nat)
    requires d.blocks == Ceil(d.size) && TruncRet(d, u, len) == NoMem && Spent(d, e, u, v) && SameFile(d, e)
    requires v < Need(e)
    ensures TruncRet(e, v, d.size) == if u >= Need(d) then Panic else Ok
  {
    if u < Need(d) {
      assert e.blocks == d.blocks;
    }
  }

  /** So it is for an empty file that is to get two blocks when one is free. */
  lemma EmptyFileStuck(d: Din)
    requires d.size == 0 && d.blocks == 0
    ensures d.blocks == Ceil(d.size) && TruncRet(d, 1, 8192) == NoMem && 1 >= Need(d)
  {
  }

  /** The count of sfs_do_mount, which must match the superblock. */
  method CountUnused(freemap: Bitmap) returns (unused: nat)
    requires freemap.Valid()
    ensures unused == Count(freemap.bits)
  {
    unused := 0;
    var i := 0;
    while i < freemap.nbits
      invariant i <= freemap.nbits && unused == Count(freemap.bits[..i])
    {
      var set_ := freemap.Test(i);
      CountLast(freemap.bits[..i], set_);
      assert freemap.bits[..i] + [set_] == freemap.bits[..i + 1];
      if set_ {
        unused := unused + 1;
      }
      i := i + 1;
    }
    assert freemap.bits[..i] == freemap.bits;
  }

  class FileSystem {
    const freemap: Bitmap
    const blocks: nat
    var unused: nat
    var disk: Disk
    /** The inodes in use, by the number of their block. */
    var dins: map<nat, Din>
    ghost var owner: map<nat, Use>

    /** sfs_do_mount of a disk whose inodes and freemap agree: past the superblock check. */
    constructor (freemap: Bitmap, unused: nat, disk: Disk, dins: map<nat, Din>, ghost owner: map<nat, Use>)
      requires freemap.Valid() && |disk| <= |freemap.bits| < 0x1_0000_0000
      requires Inv(Fs(freemap.bits[..|disk|], disk, dins, owner))
      requires unused == Count(freemap.bits) && forall b :: |disk| <= b < |freemap.bits| ==> !freemap.bits[b]
      ensures Valid() && this.freemap == freemap && State() == Fs(freemap.bits[..|disk|], disk, dins, owner)
      ensures this.unused == unused
    {
      this.freemap, this.unused, this.disk, this.dins, this.owner := freemap, unused, disk, dins, owner;
      blocks := |disk|;
    }

    /** The bits of the freemap that stand for blocks. */
    ghost function Map(): seq<bool>
      reads `disk, freemap`bits
    {
      if |disk| <= |freemap.bits| then freemap.bits[..|disk|] else freemap.bits
    }

    ghost function State(): Fs
      reads this, freemap`bits
    {
      Fs(Map(), disk, dins, owner)
    }

    /** The freemap has a bit for each block, none set for the superblock or behind the last block, and as many set as
        unused says. */
    ghost predicate Counted()
      reads `unused, `disk, freemap, freemap.map_
    {
      && freemap.Valid() && Shaped(disk) && 0 < blocks == |disk| <= |freemap.bits| < 0x1_0000_0000 && !freemap.bits[0]
      && unused == Count(freemap.bits) && forall b :: |disk| <= b < |freemap.bits| ==> !freemap.bits[b]
    }

    ghost predicate Valid()
      reads this, freemap, freemap.map_
    {
      Counted() && Inv(State())
    }

    // ---------- blocks ----------

    /** sfs_rbuf. */
    method ReadBuf(len: nat, blkno: nat, offset: nat) returns (buf: seq<Byte>)
      requires Shaped(disk) && 0 != blkno < |disk| && offset + len <= BLKSIZE
      ensures buf == disk[blkno][offset..offset + len]
    {
      var buffer := disk[blkno];
      buf := buffer[offset..offset + len];
    }

    /** sfs_wbuf: reads the block, changes a part and writes it back. */
    method WriteBuf(buf: seq<Byte>, blkno: nat, offset: nat)
      requires Shaped(disk) && 0 != blkno < |disk| && offset + |buf| <= BLKSIZE
      modifies `disk
      ensures disk == old(disk)[blkno := Splice(old(disk)[blkno], offset, buf)]
      ensures Map() == old(Map())
    {
      var buffer := disk[blkno];
      buffer := Splice(buffer, offset, buf);
      disk := disk[blkno := buffer];
    }

    /** sfs_block_alloc: the lowest free block, cleared. */
    method BlockAlloc() returns (ret: Ret, blk: nat)
      requires Counted()
      modifies `unused, `disk, freemap`bits, freemap.map_
      ensures Counted() && (ret == if None(old(freemap.bits)) then NoMem else Ok) && (ret.NoMem? <==> old(unused) == 0)
      ensures ret.Ok? ==>
                && IsFirst(old(freemap.bits), blk) && freemap.bits == old(freemap.bits)[blk := false]
                && disk == old(disk)[blk := Zero()] && unused == old(unused) - 1
                && blk < |disk| && old(Map())[blk] && Map() == old(Map())[blk := false]
      ensures ret.NoMem? ==> Map() == old(Map()) && disk == old(disk) && unused == old(unused)
    {
      CountNone(freemap.bits);
      var ok;
      ok, blk := freemap.Alloc();
      if !ok {
        return NoMem, 0;
      }
      assert unused > 0;
      CountUpdate(old(freemap.bits), blk, false);
      unused := unused - 1;
      disk := disk[blk := Zero()];
      ret := Ok;
    }

    /** sfs_block_free. */
    method BlockFree(blk: nat)
      requires Counted() && 0 != blk < |disk| && !Map()[blk]
      modifies `unused, freemap`bits, freemap.map_
      ensures Counted() && Map() == old(Map())[blk := true] && unused == old(unused) + 1
    {
      CountUpdate(freemap.bits, blk, true);
      freemap.Free(blk);
      unused := unused + 1;
    }

    // ---------- the block map ----------

    /** sfs_bmap_get_sub_nolock when the entry exists or is not to be created. */
    method LookupEntry(ent: nat, index: nat) returns (blk: nat)
      requires Counted() && ent < |disk| && index < NENTRY
      ensures blk == if ent == 0 then 0 else Entry(disk[ent], index)
    {
      if ent == 0 {
        return 0;
      }
      var word := ReadBuf(4, ent, 4 * index);
      blk := Decode(word);
    }

    /** The rest of sfs_bmap_get_sub_nolock: the entry, and the index block when there is none yet, are created. When
        the second allocation fails the first is taken back. */
    method CreateEntry(ent: nat, index: nat) returns (ret: Ret, ent': nat, blk: nat)
      requires Counted() && ent < |disk| && index < NENTRY && !Map()[ent]
      modifies `unused, `disk, freemap`bits, freemap.map_
      ensures Counted() && |disk| == old(|disk|) && (ret.Ok? || ret.NoMem?)
      ensures ret.NoMem? ==> Map() == old(Map()) && unused == old(unused)
      ensures ret.NoMem? ==> disk == old(disk) || (ent' < |disk| && Map()[ent'] && disk == old(disk)[ent' := Zero()])
      ensures ret.Ok? && ent != 0 ==>
                && ent' == ent && blk < |disk| && old(Map())[blk] && Map() == old(Map())[blk := false]
                && disk == old(disk)[blk := Zero()][ent := Splice(old(disk)[ent], 4 * index, Encode(blk))]
      ensures ret.Ok? && ent == 0 ==>
                && ent' < |disk| && blk < |disk| && ent' != blk && old(Map())[ent'] && old(Map())[blk]
                && Map() == old(Map())[ent' := false][blk := false]
                && disk == old(disk)[ent' := Zero()][blk := Zero()][ent' := Splice(Zero(), 4 * index, Encode(blk))]
      ensures ret.Ok? <==> old(unused) >= if ent == 0 then 2 else 1
      ensures ret.Ok? ==> unused == old(unused) - if ent == 0 then 2 else 1
    {
      hide Map, None, IsFirst;
      MapSize();
      ghost var bits := Map();
      ent' := ent;
      blk := 0;
      if ent == 0 {
        ret, ent' := BlockAlloc();
        if ret.NoMem? {
          return;
        }
        SetBack(bits, ent');
      }
      ret, blk := BlockAlloc();
      if ret.NoMem? {
        if ent == 0 {
          BlockFree(ent');
        }
        return;
      }
      WriteBuf(Encode(blk), ent', 4 * index);
    }

    /** sfs_bmap_get_nolock with create, for the slot behind the last block of the file. */
    method BmapCreate(x: nat) returns (ret: Ret, blk: nat, ghost e: nat)
      requires Counted() && x in dins && DinShape(disk, dins[x]) && dins[x].blocks < NSLOTS && !Map()[dins[x].indirect]
      modifies `unused, `disk, `dins, freemap`bits, freemap.map_
      ensures Counted() && (ret == if old(unused) >= Need(old(dins)[x]) then Ok else NoMem)
      ensures ret.Ok? ==> Filled(old(State()), State(), x, e, blk) && unused == old(unused) - Need(old(dins)[x])
      ensures ret.NoMem? ==> Unspent(old(State()), State()) && unused == old(unused)
    {
      hide Map, Unspent, Filled;
      MapSize();
      ghost var s := State();
      var d := dins[x];
      e := 0;
      if d.blocks < NDIRECT {
        CountNone(freemap.bits);
        ret, blk := BlockAlloc();
        if ret.Ok? {
          dins := dins[x := d.(direct := d.direct[d.blocks := blk])];
        }
      } else {
        var ent;
        ret, ent, blk := CreateEntry(d.indirect, d.blocks - NDIRECT);
        e := ent;
        if ret.Ok? && ent != d.indirect {
          dins := dins[x := d.(indirect := ent)];
        }
      }
      if ret.Ok? {
        IsFilled(s, State(), x, e, blk);
      } else {
        IsUnspent(s, State(), e);
      }
    }

    lemma MapSize()
      requires Counted()
      ensures |Map()| == |disk|
    {
    }

    /** sfs_bmap_get_nolock without create. */
    method BmapLookup(x: nat, index: nat) returns (blk: nat)
      requires Counted() && x in dins && DinShape(disk, dins[x]) && index < NSLOTS
      ensures blk == Slot(disk, dins[x], index)
    {
      if index < NDIRECT {
        blk := dins[x].direct[index];
      } else {
        blk := LookupEntry(dins[x].indirect, index - NDIRECT);
      }
    }

    method CountIn(x: nat, ghost uses: map<nat, Use>)
      requires x in dins
      modifies `dins, `owner
      ensures State() == CountedIn(old(State()), x, uses)
    {
      owner := uses;
      dins := dins[x := dins[x].(blocks := dins[x].blocks + 1)];
    }

    /** The block behind the last is made and counted. */
    method BmapExtend(x: nat) returns (ret: Ret, blk: nat)
      requires Valid() && x in dins && dins[x].blocks < NSLOTS
      modifies this, freemap`bits, freemap.map_
      ensures Counted() && (ret == if old(unused) >= Need(old(dins)[x]) then Ok else NoMem)
      ensures ret.Ok? ==> Appends(old(State()), State(), x, blk) && unused == old(unused) - Need(old(dins)[x])
      ensures ret.NoMem? ==> Unspent(old(State()), State()) && unused == old(unused)
    {
      hide Inv, Map, Filled, Unspent, Appends;
      ghost var s, e := State(), 0;
      IndexTaken(s, x);
      ret, blk, e := BmapCreate(x);
      if ret.Ok? {
        ghost var uses := FilledAppends(s, State(), x, e, blk);
        CountIn(x, uses);
      }
    }

    /** sfs_bmap_load_nolock: the block that holds block index of file x. The block behind the last is made, or, for
        want of free blocks, nothing is; an index further out fails an assertion. */
    method BmapLoad(x: nat, index: nat) returns (ret: Ret, blk: nat)
      requires Valid() && x in dins
      modifies this, freemap`bits, freemap.map_
      ensures Valid() && x in dins
      ensures ret.Panic? <==> index > old(dins)[x].blocks || index >= NSLOTS
      ensures index == old(dins)[x].blocks < NSLOTS ==> (ret == if old(unused) >= Need(old(dins)[x]) then Ok else NoMem)
      ensures index < old(dins)[x].blocks ==>
                ret.Ok? && State() == old(State()) && unused == old(unused) && blk == Slot(disk, dins[x], index)
      ensures index == old(dins)[x].blocks && ret.Ok? ==>
                Appends(old(State()), State(), x, blk) && unused == old(unused) - Need(old(dins)[x])
      ensures ret.NoMem? ==> Unspent(old(State()), State()) && unused == old(unused)
      ensures ret.Panic? ==> State() == old(State()) && unused == old(unused)
    {
      hide Owns, Named, OthersKept, File;
      blk := 0;
      if index > dins[x].blocks || index >= NSLOTS {
        return Panic, 0;
      }
      if index < dins[x].blocks {
        blk := BmapLookup(x, index);
        return Ok, blk;
      }
      ghost var s := State();
      ret, blk := BmapExtend(x);
      if ret.NoMem? {
        UnspentInv(s, State());
      }
    }

    /** sfs_bmap_free_nolock, with sfs_bmap_free_sub_nolock for an entry of the index block. */
    method BmapFree(x: nat, index: nat)
      requires Counted() && x in dins && DinShape(disk, dins[x]) && index < NSLOTS
      requires Slot(disk, dins[x], index) < |disk| && !Map()[Slot(disk, dins[x], index)]
      modifies `unused, `disk, `dins, freemap`bits, freemap.map_
      ensures Counted() && State() == Emptied(old(State()), x, index)
      ensures old(Slot(disk, dins[x], index)) != 0 ==> unused == old(unused) + 1
    {
      hide Map;
      MapSize();
      var d := dins[x];
      if index < NDIRECT {
        var blk := d.direct[index];
        if blk != 0 {
          BlockFree(blk);
          dins := dins[x := d.(direct := d.direct[index := 0])];
        }
      } else if d.indirect != 0 {
        var blk := LookupEntry(d.indirect, index - NDIRECT);
        if blk != 0 {
          WriteBuf(Encode(0), d.indirect, 4 * (index - NDIRECT));
          BlockFree(blk);
        }
      }
    }

    /** The last block is freed and counted out. */
    method DropLast(x: nat, ghost uses: map<nat, Use>)
      requires Counted() && x in dins && DinShape(disk, dins[x]) && dins[x].blocks > 0
      requires var b := Slot(disk, dins[x], dins[x].blocks - 1); 0 < b < |disk| && !Map()[b]
      modifies this, freemap`bits, freemap.map_
      ensures Counted() && unused == old(unused) + 1
      ensures State() == CountedOut(Emptied(old(State()), x, old(dins[x].blocks) - 1), x, uses)
    {
      hide Map;
      MapSize();
      BmapFree(x, dins[x].blocks - 1);
      owner := uses;
      dins := dins[x := dins[x].(blocks := dins[x].blocks - 1)];
    }

    /** sfs_bmap_truncate_nolock: the last block goes. */
    method BmapTruncate(x: nat)
      requires Valid() && x in dins && dins[x].blocks != 0
      modifies this, freemap`bits, freemap.map_
      ensures Counted() && Drops(old(State()), State(), x) && unused == old(unused) + 1
    {
      ghost var uses := EmptiedDrops(State(), x);
      DropLast(x, uses);
    }

    // ---------- reading and writing ----------

    /** One step of a write: the block is loaded, made if it is the next, and a piece of it is written. */
    method PutPiece(x: nat, i: nat, off: nat, piece: seq<Byte>, ghost pos: nat) returns (ret: Ret)
      requires Valid() && x in dins && i <= dins[x].blocks && off + |piece| <= BLKSIZE && pos == i * 4096 + off
      modifies this, freemap`bits, freemap.map_
      ensures Counted() && x in dins && Spent(old(dins)[x], dins[x], old(unused), unused)
      ensures (ret.Panic? <==> i >= NSLOTS) && !ret.Inval?
      ensures ret.Ok? ==>
                Written(old(State()), State(), x, pos, piece) && dins[x].blocks == if i < old(dins)[x].blocks
                then old(dins)[x].blocks else i + 1
      ensures !ret.Ok? ==> Inv(State()) && Unspent(old(State()), State())
      ensures ret.NoMem? ==> i == dins[x].blocks && unused < Need(dins[x])
    {
      hide Inv, Written, Appends, Holds, Slot;
      InSlots(State(), x);
      ghost var s := State();
      var blk;
      ret, blk := BmapLoad(x, i);
      ghost var t := State();
      if ret.Ok? {
        LoadedPiece(s, t, x, i, blk, off, pos, piece, unused);
        WriteBuf(piece, blk, off);
      } else {
        InSlots(State(), x);
        SpentNone(disk, dins[x], unused);
      }
    }

    /** The first alen bytes of buf have been written at offset, starting from state s with u blocks free. */
    ghost predicate Writing(s: Fs, u: nat, x: nat, offset: nat, buf: seq<Byte>, alen: nat)
      reads this, freemap, freemap.map_
    {
      && Counted() && Progress(s, State(), x, offset, buf, alen)
      && Spent(s.dins[x], dins[x], u, unused) && Tight(s.dins[x], dins[x], offset, alen)
    }

    /** The same as a step of a longer write, which started from state s with u blocks free. */
    method Advance(x: nat, offset: nat, buf: seq<Byte>, alen: nat, i: nat, off: nat, n: nat, ghost s: Fs, ghost u: nat)
      returns (ret: Ret, alen': nat)
      requires Writing(s, u, x, offset, buf, alen)
      requires i <= dins[x].blocks && 0 < n && off + n <= BLKSIZE && offset + alen == i * 4096 + off
      requires alen + n <= |buf|
      modifies this, freemap`bits, freemap.map_
      ensures Writing(s, u, x, offset, buf, alen')
      ensures (ret.Panic? <==> i >= NSLOTS) && !ret.Inval? && alen' == if ret.Ok? then alen + n else alen
      ensures ret.Ok? ==> i < dins[x].blocks
      ensures ret.NoMem? ==> i >= s.dins[x].blocks && u < Cost(s.dins[x], i + 1) && unused < Need(dins[x])
      ensures dins[x].blocks <= NSLOTS && (ret.Panic? ==> dins[x].blocks == NSLOTS)
    {
      hide Inv, OthersKept, Over, Holds, Raw;
      ghost var t, v := State(), unused;
      var piece := buf[alen..alen + n];
      ghost var pos := offset + alen;
      ret := PutPiece(x, i, off, piece, pos);
      alen' := if ret.Ok? then alen + n else alen;
      SpentTwice(s.dins[x], t.dins[x], dins[x], u, v, unused);
      InSlots(State(), x);
      if ret.Ok? {
        ProgressStep(s, t, State(), x, offset, buf, alen, n, pos, piece);
      } else {
        ProgressStall(s, t, State(), x, offset, buf, alen);
      }
    }

    /** The middle loop of sfs_io_nolock: whole blocks. */
    method WriteBlocks(x: nat, offset: nat, buf: seq<Byte>, alen0: nat, blkno0: nat, nblks0: nat, ghost s: Fs,
                       ghost u: nat)
      returns (ret: Ret, alen: nat)
      requires Writing(s, u, x, offset, buf, alen0)
      requires offset + alen0 == blkno0 * 4096 && blkno0 <= dins[x].blocks && alen0 + nblks0 * 4096 <= |buf|
      modifies this, freemap`bits, freemap.map_
      ensures Writing(s, u, x, offset, buf, alen)
      ensures !ret.Inval? && (ret.Panic? ==> blkno0 + nblks0 > NSLOTS && dins[x].blocks == NSLOTS)
      ensures ret.Ok? ==> alen == alen0 + nblks0 * 4096 && blkno0 + nblks0 <= dins[x].blocks
      ensures ret.NoMem? ==> Short(s.dins[x], u, blkno0 + nblks0) && unused < Need(dins[x])
    {
      hide Inv, OthersKept, Over, Holds;
      ghost var end := blkno0 + nblks0;
      assert end * 4096 <= offset + |buf|;
      var blkno, nblks := blkno0, nblks0;
      ret, alen := Ok, alen0;
      while nblks != 0
        invariant Writing(s, u, x, offset, buf, alen)
        invariant offset + alen == blkno * 4096 && blkno <= dins[x].blocks && blkno + nblks == end && ret.Ok?
        decreases nblks
      {
        ret, alen := Advance(x, offset, buf, alen, blkno, 0, 4096, s, u);
        if !ret.Ok? {
          if ret.NoMem? {
            ShortAt(s.dins[x], u, blkno, end);
          }
          return;
        }
        blkno, nblks := blkno + 1, nblks - 1;
      }
    }

    /** Whole blocks, then the rest. */
    method WriteAligned(x: nat, offset: nat, buf: seq<Byte>, alen0: nat, blkno0: nat, nblks: nat, ghost s: Fs,
                        ghost u: nat)
      returns (ret: Ret, alen: nat)
      requires Writing(s, u, x, offset, buf, alen0) && offset + alen0 == blkno0 * 4096 && blkno0 <= dins[x].blocks
      requires blkno0 + nblks == (offset + |buf|) / 4096
      modifies this, freemap`bits, freemap.map_
      ensures Writing(s, u, x, offset, buf, alen)
      ensures !ret.Inval? && (ret.Panic? ==> Ceil(offset + |buf|) > NSLOTS && dins[x].blocks == NSLOTS)
      ensures ret.Ok? ==> alen == |buf| && Ceil(offset + |buf|) <= dins[x].blocks
      ensures ret.NoMem? ==> Short(s.dins[x], u, Ceil(offset + |buf|)) && unused < Need(dins[x])
    {
      hide Inv, OthersKept, Over, Holds, Short, Spent, Tight, Need, Ceil;
      CeilIs(offset + |buf|);
      ret, alen := WriteBlocks(x, offset, buf, alen0, blkno0, nblks, s, u);
      if !ret.Ok? {
        if ret.NoMem? {
          ShortMore(s.dins[x], u, blkno0 + nblks, Ceil(offset + |buf|));
        }
        return;
      }
      var size := (offset + |buf|) % 4096;
      if size != 0 {
        ret, alen := Advance(x, offset, buf, alen, blkno0 + nblks, 0, size, s, u);
        if ret.NoMem? {
          ShortAt(s.dins[x], u, blkno0 + nblks, Ceil(offset + |buf|));
        }
      }
    }

    /** The three phases of sfs_io_nolock for a write: up to the first block boundary, whole blocks, and the rest. */
    method WriteRun(x: nat, offset: nat, buf: seq<Byte>) returns (ret: Ret, alen: nat)
      requires Valid() && x in dins && offset / 4096 <= dins[x].blocks && buf != []
      modifies this, freemap`bits, freemap.map_
      ensures Writing(old(State()), old(unused), x, offset, buf, alen)
      ensures !ret.Inval? && (ret.Panic? ==> Ceil(offset + |buf|) > NSLOTS && dins[x].blocks == NSLOTS)
      ensures ret.Ok? ==> alen == |buf| && Ceil(offset + |buf|) <= dins[x].blocks
      ensures ret.NoMem? ==> Short(old(dins)[x], old(unused), Ceil(offset + |buf|)) && unused < Need(dins[x])
    {
      hide Inv, OthersKept, Over, Holds;
      ghost var s, u := State(), unused;
      Starts(s, u, x, offset, buf);
      CeilIs(offset + |buf|);
      var blkno, blkoff := offset / 4096, offset % 4096;
      var nblks := (offset + |buf|) / 4096 - blkno;
      ret, alen := Ok, 0;
      if blkoff != 0 {
        var size := if nblks != 0 then 4096 - blkoff else |buf|;
        ret, alen := Advance(x, offset, buf, 0, blkno, blkoff, size, s, u);
        if !ret.Ok? || nblks == 0 {
          return;
        }
        blkno, nblks := blkno + 1, nblks - 1;
      }
      ret, alen := WriteAligned(x, offset, buf, alen, blkno, nblks, s, u);
    }

    method SizeUp(x: nat, n: nat)
      requires x in dins
      modifies `dins
      ensures State() == SizedUp(old(State()), x, n)
    {
      if n > dins[x].size {
        dins := dins[x := dins[x].(size := n)];
      }
    }

    /** The writing part of sfs_io_nolock, with the size brought up to date at the end. */
    method WriteSome(x: nat, offset: nat, buf: seq<Byte>) returns (ret: Ret, alen: nat)
      requires Valid() && Sized(dins) && x in dins && offset / 4096 <= dins[x].blocks && buf != []
      modifies this, freemap`bits, freemap.map_
      ensures Valid() && x in dins && OthersKept(old(State()), State(), x) && dins[x].nlinks == old(dins)[x].nlinks
      ensures ret == LoadRet(old(dins)[x], old(unused), offset + |buf|) && alen <= |buf| && (ret.Ok? ==> alen == |buf|)
      ensures Spent(old(dins)[x], dins[x], old(unused), unused) && Tight(old(dins)[x], dins[x], offset, alen)
      ensures dins[x].size == if !ret.Panic? && offset + alen > old(dins)[x].size then offset + alen
                else old(dins)[x].size
      ensures Sized(dins) <==> !Stranded(old(dins)[x], old(unused), offset)
      ensures Sized(dins) && !ret.Panic? ==> Overlaid(old(State()), State(), x, offset, buf[..alen])
    {
      hide Inv, OthersKept, Over, Overlaid, File, Holds;
      ghost var s, u := State(), unused;
      ret, alen := WriteRun(x, offset, buf);
      LoadedRet(s, State(), x, u, unused, offset, alen, |buf|, ret);
      if ret.Panic? {
        SizedKept(s, State(), x);
        return;
      }
      ghost var data := buf[..alen];
      if ret.NoMem? && alen == 0 && offset > s.dins[x].blocks * 4096 {
        WriteStranded(s, State(), x, offset);
      } else {
        WriteDone(s, State(), x, offset, data);
      }
      SizeUp(x, offset + alen);
    }

    /** sfs_io_nolock for a write. Only a failed write behind the blocks of the file leaves a size they cannot hold. */
    method Write(x: nat, offset: int, buf: seq<Byte>) returns (ret: Ret, alen: nat)
      requires Valid() && Sized(dins) && x in dins
      requires -0x8000_0000 <= offset < 0x8000_0000 && |buf| < 0x1_0000_0000
      modifies this, freemap`bits, freemap.map_
      ensures Valid() && x in dins && OthersKept(old(State()), State(), x) && dins[x].nlinks == old(dins)[x].nlinks
      ensures BadRange(offset, |buf|) || buf == [] ==>
                ret == (if BadRange(offset, |buf|) then Inval else Ok) && alen == 0 && State() == old(State())
      ensures !BadRange(offset, |buf|) ==>
                && ret == WriteRet(old(dins)[x], old(unused), offset, End(offset, |buf|))
                && alen <= |buf| && (ret.Ok? ==> offset + alen == End(offset, |buf|))
                && Spent(old(dins)[x], dins[x], old(unused), unused) && Tight(old(dins)[x], dins[x], offset, alen)
                && (Sized(dins) <==> buf == [] || !Stranded(old(dins)[x], old(unused), offset))
                && (Sized(dins) && buf != [] && !ret.Panic? ==> Overlaid(old(State()), State(), x, offset, buf[..alen]))
      ensures ret.Inval? <==> !(0 <= offset < 134_217_728 && offset + |buf| < 2_147_483_648)
      ensures ret.Ok? ==> alen == |buf|
    {
      hide Inv, OthersKept, Overlaid, Holds, Ceil, Affordable;
      OthersSame(State(), x);
      InSlots(State(), x);
      SpentNone(disk, dins[x], unused);
      alen := 0;
      var bad, endpos := Range(offset, |buf|);
      if bad {
        return Inval, 0;
      }
      if offset == endpos {
        return Ok, 0;
      }
      if offset / 4096 > dins[x].blocks {
        return Panic, 0;
      }
      var part := buf[..endpos - offset];
      ghost var d, u := dins[x], unused;
      ret, alen := WriteSome(x, offset, part);
      if ret.Ok? {
        WrittenInFull(d, u, offset, |buf|);
      }
      assert part[..alen] == buf[..alen];
    }

    /** One step of a read, which has data already: the block is loaded and a piece of it is read. */
    method GetPiece(x: nat, offset: nat, data: seq<Byte>, i: nat, off: nat, n: nat) returns (data': seq<Byte>)
      requires Valid() && x in dins && i < dins[x].blocks && off + n <= BLKSIZE && offset + |data| == i * 4096 + off
      requires data == Raw(State(), x)[offset..offset + |data|]
      modifies this, freemap`bits, freemap.map_
      ensures Valid() && State() == old(State()) && unused == old(unused)
      ensures |data'| == |data| + n && offset + |data'| <= |Raw(State(), x)|
      ensures data' == Raw(State(), x)[offset..offset + |data'|]
    {
      hide Inv, Appends, Unspent, Holds, Raw, Slot;
      ghost var s, pos := State(), offset + |data|;
      InSlots(s, x);
      var ret, blk := BmapLoad(x, i);
      PieceRead(s, x, i, blk, off, n, pos);
      var piece := ReadBuf(n, blk, off);
      ReadOn(Raw(s, x), offset, data, piece, pos);
      data' := data + piece;
    }

    /** The three phases of sfs_io_nolock for a read. */
    method ReadRun(x: nat, offset: nat, endpos: nat) returns (data: seq<Byte>)
      requires Valid() && x in dins && offset < endpos <= dins[x].blocks * 4096
      modifies this, freemap`bits, freemap.map_
      ensures Valid() && State() == old(State()) && unused == old(unused)
      ensures endpos <= |Raw(State(), x)| && data == Raw(State(), x)[offset..endpos]
    {
      hide Inv, File, Holds;
      var blkno, blkoff := offset / 4096, offset % 4096;
      var nblks := endpos / 4096 - blkno;
      data := [];
      assert data == Raw(State(), x)[offset..offset];
      if blkoff != 0 {
        var size := if nblks != 0 then 4096 - blkoff else endpos - offset;
        data := GetPiece(x, offset, data, blkno, blkoff, size);
        if nblks == 0 {
          return;
        }
        blkno, nblks := blkno + 1, nblks - 1;
      }
      while nblks != 0
        invariant Valid() && State() == old(State()) && unused == old(unused)
        invariant offset + |data| == blkno * 4096 && blkno + nblks == endpos / 4096 && nblks >= 0
        invariant offset + |data| <= |Raw(State(), x)| && data == Raw(State(), x)[offset..offset + |data|]
        decreases nblks
      {
        data := GetPiece(x, offset, data, blkno, 0, 4096);
        blkno, nblks := blkno + 1, nblks - 1;
      }
      var size := endpos % 4096;
      if size != 0 {
        data := GetPiece(x, offset, data, blkno, 0, size);
      }
    }

    /** sfs_io_nolock for a read. */
    method Read(x: nat, offset: int, len: nat) returns (ret: Ret, data: seq<Byte>)
      requires Valid() && Sized(dins) && x in dins
      requires -0x8000_0000 <= offset < 0x8000_0000 && len < 0x1_0000_0000
      modifies this, freemap`bits, freemap.map_
      ensures Valid() && State() == old(State()) && unused == old(unused)
      ensures ret == if BadRange(offset, len) then Inval else Ok
      ensures ret.Ok? && offset <= dins[x].size ==>
                data == Contents(State(), x)[offset..if offset + len < dins[x].size then offset + len else dins[x].size]
      ensures ret.Inval? || offset > dins[x].size ==> data == []
      ensures ret.Inval? <==> !(0 <= offset < 134_217_728 && offset + len < 2_147_483_648)
      ensures 0 <= offset && offset + len <= dins[x].size ==>
                ret.Ok? && data == Contents(State(), x)[offset..offset + len]
    {
      hide Inv, Raw, Contents, Holds, Shaped;
      InSlots(State(), x);
      data := [];
      var bad, endpos := Range(offset, len);
      if bad {
        return Inval, [];
      }
      if offset == endpos || offset >= dins[x].size {
        return Ok, [];
      }
      if endpos > dins[x].size {
        endpos := dins[x].size;
      }
      data := ReadRun(x, offset, endpos);
      ContentsPiece(State(), x, offset, endpos);
      ret := Ok;
    }

    // ---------- truncating ----------

    /** The growing loop of sfs_truncfile. */
    method GrowTo(x: nat, tblks: nat) returns (ret: Ret)
      requires Valid() && x in dins && dins[x].blocks <= tblks
      modifies this, freemap`bits, freemap.map_
      ensures Counted() && Reshaped(old(State()), State(), x) && Spent(old(dins)[x], dins[x], old(unused), unused)
      ensures !ret.Inval? && old(dins)[x].blocks <= dins[x].blocks <= tblks && (ret.Ok? ==> dins[x].blocks == tblks)
      ensures ret.Panic? <==> tblks > NSLOTS && Affordable(old(dins)[x], old(unused), NSLOTS)
      ensures ret.NoMem? <==> !Affordable(old(dins)[x], old(unused), if tblks < NSLOTS then tblks else NSLOTS)
      ensures ret.NoMem? ==> unused < Need(dins[x])
    {
      hide Inv, Appends, Fit, OthersKept, File, Holds;
      ghost var s := State();
      InSlots(s, x);
      ReshapedNone(s, x);
      SpentNone(disk, dins[x], unused);
      var nblks := dins[x].blocks;
      ret := Ok;
      while nblks != tblks
        invariant Counted() && Reshaped(s, State(), x) && Spent(s.dins[x], dins[x], old(unused), unused)
        invariant ret.Ok? && nblks == dins[x].blocks <= tblks && nblks <= NSLOTS
        decreases tblks - nblks
      {
        ghost var t, u := State(), unused;
        var blk;
        ret, blk := BmapLoad(x, nblks);
        Reloaded(s, t, State(), x, blk, ret, old(unused), u, unused);
        if !ret.Ok? {
          return;
        }
        nblks := nblks + 1;
      }
    }

    /** The shrinking loop of sfs_truncfile. */
    method ShrinkTo(x: nat, tblks: nat)
      requires Valid() && x in dins && tblks <= dins[x].blocks
      modifies this, freemap`bits, freemap.map_
      ensures Counted() && Shrunk(old(State()), State(), x) && dins[x].blocks == tblks
      ensures unused == old(unused) + old(dins)[x].blocks - tblks
    {
      hide Inv, Drops, Reshaped, GaveUp, Holds;
      ghost var s := State();
      ShrunkNone(s, x);
      var nblks := dins[x].blocks;
      while nblks != tblks
        invariant Counted() && Inv(State()) && Shrunk(s, State(), x) && x in dins && nblks == dins[x].blocks
        invariant tblks <= nblks
        invariant unused + nblks == old(unused) + s.dins[x].blocks
        decreases nblks
      {
        ghost var t := State();
        BmapTruncate(x);
        ShrunkMore(s, t, State(), x);
        DropsKeeps(t, State(), x);
        nblks := nblks - 1;
      }
    }

    method SetSize(x: nat, len: nat)
      requires x in dins
      modifies `dins
      ensures State() == old(State()).(dins := old(dins)[x := old(dins)[x].(size := len)])
    {
      dins := dins[x := dins[x].(size := len)];
    }

    /** sfs_truncfile. */
    method Truncfile(x: nat, len: int) returns (ret: Ret)
      requires Valid() && Sized(dins) && x in dins
      modifies this, freemap`bits, freemap.map_
      ensures Valid() && Sized(dins) && x in dins && OthersKept(old(State()), State(), x)
      ensures dins[x].nlinks == old(dins)[x].nlinks
      ensures (ret.Inval? <==> len < 0 || len > MAX_FILE_SIZE) && (ret.Inval? ==> State() == old(State()))
      ensures !ret.Inval? ==> ret == TruncRet(old(dins)[x], old(unused), len)
      ensures ret.Ok? ==>
                && dins[x].size == len && dins[x].blocks == Ceil(len)
                && var m := if len < old(dins)[x].size then len else old(dins)[x].size;
                   Contents(State(), x)[..m] == old(Contents(State(), x))[..m]
      ensures !ret.Ok? ==> Contents(State(), x) == old(Contents(State(), x))
      ensures ret.Ok? && Ceil(len) <= old(dins)[x].blocks ==>
                Released(old(State()), State(), x, Ceil(len), old(unused), unused)
      ensures !ret.Inval? && old(dins)[x].blocks < Ceil(len) ==> Spent(old(dins)[x], dins[x], old(unused), unused)
      ensures ret.NoMem? ==>
                old(dins)[x].blocks < Ceil(len) && SameFile(old(dins)[x], dins[x]) && unused < Need(dins[x])
      ensures ret.Panic? && Ceil(len) <= old(dins)[x].blocks ==> State() == old(State()) && unused == old(unused)
    {
      hide Inv, OthersKept, Reshaped, Raw, Shrunk, Holds, Spent, Affordable, GaveUp;
      ghost var s := State();
      OthersSame(s, x);
      ShrunkNone(s, x);
      ShrunkReshaped(s, s, x);
      if len < 0 || len > MAX_FILE_SIZE {
        return Inval;
      }
      var tblks := Ceil(len);
      if dins[x].size == len {
        return if tblks == dins[x].blocks then Ok else Panic;
      }
      var nblks := dins[x].blocks;
      ret := Ok;
      if nblks < tblks {
        ret := GrowTo(x, tblks);
        if !ret.Ok? {
          ReshapedKept(s, State(), x);
          TruncFailed(s, State(), x);
          return;
        }
        ReshapedKept(s, State(), x);
        SpentSized(s.dins[x], dins[x], old(unused), unused, len);
      } else {
        ShrinkTo(x, tblks);
        ShrunkReshaped(s, State(), x);
      }
      ReshapedKept(s, State(), x);
      TruncDone(s, State(), x, len);
      SetSize(x, len);
    }

    /** A truncation that runs out of blocks, and another one to the size that the file still has. */
    method GrowAndReturn(x: nat, len: nat) returns (grown: Ret, back: Ret)
      requires Valid() && Sized(dins) && x in dins && dins[x].blocks == Ceil(dins[x].size)
      requires dins[x].size < len <= MAX_FILE_SIZE
      modifies this, freemap`bits, freemap.map_
      ensures Valid() && Sized(dins) && x in dins && OthersKept(old(State()), State(), x)
      ensures grown == TruncRet(old(dins)[x], old(unused), len)
      ensures grown.NoMem? ==> back == if old(unused) >= Need(old(dins)[x]) then Panic else Ok
    {
      hide Inv, OthersKept, Holds, Spent, Affordable, Contents, Released;
      var size := dins[x].size;
      ghost var s := State();
      grown := Truncfile(x, len);
      back := Ok;
      if grown.NoMem? {
        ghost var t := State();
        FailedGrowthExact(s.dins[x], t.dins[x], old(unused), unused, len);
        back := Truncfile(x, size);
        OthersTrans(s, t, State(), x);
      }
    }

    /** The end of sfs_reclaim: the blocks of the inode and of its index go. */
    method FreeInode(x: nat)
      requires Counted() && x in dins && 0 < x < |disk| && dins[x].indirect < |disk| && x != dins[x].indirect
      requires !Map()[x] && !Map()[dins[x].indirect]
      modifies this, freemap`bits, freemap.map_
      ensures Counted() && State() == Removed(old(State()), x)
      ensures unused == old(unused) + 1 + if old(dins)[x].indirect != 0 then 1 else 0
    {
      var ent := dins[x].indirect;
      BlockFree(x);
      if ent != 0 {
        BlockFree(ent);
      }
      owner := if ent == 0 then owner - {x} else owner - {x, ent};
      dins := dins - {x};
    }

    /** sfs_reclaim, with the counters reclaim_count and ref_count of the inode in memory: it waits for the last claim
        and the last reference to go. */
    method Reclaim(x: nat, claims: nat, refs: nat) returns (busy: bool, ret: Ret)
      requires Valid() && Sized(dins) && x in dins
      modifies this, freemap`bits, freemap.map_
      ensures Valid() && Sized(dins) && OthersKept(old(State()), State(), x)
      ensures busy <==> claims > 1 || (claims == 1 && refs > 0)
      ensures !busy ==>
                (ret == if claims == 0
                    || (old(dins)[x].nlinks == 0 && old(dins)[x].size == 0 && old(dins)[x].blocks != 0) then Panic
                 else Ok)
      ensures busy || claims == 0 || old(dins)[x].nlinks != 0 ==> State() == old(State())
      ensures !busy && old(dins)[x].nlinks == 0 && ret.Ok? ==>
                && x !in dins && Returned(old(State()), State(), x)
                && unused == old(unused) + old(dins)[x].blocks + 1 + if old(dins)[x].indirect != 0 then 1 else 0
    {
      hide Inv, OthersKept, GaveUp, Returned, Holds;
      ghost var s := State();
      OthersSame(s, x);
      busy, ret := false, Ok;
      if claims == 0 {
        return false, Panic;
      }
      if claims - 1 != 0 || refs != 0 {
        return true, Ok;
      }
      if dins[x].nlinks != 0 {
        return;
      }
      ret := Truncfile(x, 0);
      if !ret.Ok? {
        return;
      }
      ghost var t := State();
      RemoveInode(t, x);
      Reclaimed(s, t, x);
      FreeInode(x);
    }
  }
}
