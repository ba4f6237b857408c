/** The disk of the simple file system (kern/fs/sfs/sfs.h): blocks of bytes, inodes with direct blocks and one block
    of indirect entries, and which block belongs to what. */
module SfsLayout {
  /** Written out in products, which are then linear for the verifier. */
  const BLKSIZE := 4096
  const NDIRECT := 12
  const NENTRY := 1024
  const NSLOTS := NDIRECT + NENTRY

  type Byte = x: int | 0 <= x < 256
  type Block = seq<Byte>
  type Disk = seq<Block>

  /** struct sfs_disk_inode. */
  datatype Din = Din(size: nat, blocks: nat, direct: seq<nat>, indirect: nat, nlinks: nat)

  // ---------- bytes of a block ----------

  function Zero(): Block {
    seq(BLKSIZE, k => 0)
  }

  ghost predicate Shaped(disk: Disk) {
    forall b :: 0 <= b < |disk| ==> |disk[b]| == BLKSIZE
  }

  /** memcpy of data into a buffer at off. */
  function Splice(b: seq<Byte>, off: nat, data: seq<Byte>): seq<Byte>
    requires off + |data| <= |b|
  {
    b[..off] + data + b[off + |data|..]
  }

  /** A 32-bit number, low byte first. */
  function Decode(w: seq<Byte>): nat
    requires |w| == 4
  {
    w[0] as int + 0x100 * w[1] as int + 0x1_0000 * w[2] as int + 0x100_0000 * w[3] as int
  }

  function Encode(v: nat): seq<Byte>
    requires v < 0x1_0000_0000
  {
    [v % 0x100, v / 0x100 % 0x100, v / 0x100 / 0x100 % 0x100, v / 0x100 / 0x100 / 0x100]
  }

  function Entry(b: Block, i: nat): nat
    requires |b| == BLKSIZE && i < NENTRY
  {
    Decode(b[4 * i..4 * i + 4])
  }

  /** An entry is four bytes, the low one first. */
  lemma EntryBytes(b: Block, i: nat)
    requires |b| == BLKSIZE && i < NENTRY
    ensures Entry(b, i) ==
              b[4 * i] as int + 256 * b[4 * i + 1] as int + 65536 * b[4 * i + 2] as int
              + 16_777_216 * b[4 * i + 3] as int
  {
  }

  lemma DecodeEncode(v: nat)
    requires v < 0x1_0000_0000
    ensures Decode(Encode(v)) == v
  {
  }

  /** Writing an entry of an index block changes that entry only. */
  lemma EntryWrite(b: Block, i: nat, v: nat, j: nat)
    requires |b| == BLKSIZE && i < NENTRY && j < NENTRY && v < 0x1_0000_0000
    ensures Entry(Splice(b, 4 * i, Encode(v)), j) == if i == j then v else Entry(b, j)
  {
    var c := Splice(b, 4 * i, Encode(v));
    if i == j {
      assert c[4 * j..4 * j + 4] == Encode(v);
      DecodeEncode(v);
    } else {
      assert c[4 * j..4 * j + 4] == b[4 * j..4 * j + 4];
    }
  }

  lemma EntryZero(i: nat)
    requires i < NENTRY
    ensures Entry(Zero(), i) == 0
  {
  }

  // ---------- the block map of an inode ----------

  ghost predicate DinShape(disk: Disk, d: Din) {
    && |d.direct| == NDIRECT && d.indirect < |disk| && |disk[d.indirect]| == BLKSIZE
    && d.blocks <= NSLOTS && (d.blocks > NDIRECT ==> d.indirect != 0)
  }

  /** The block that holds block i of the file, or 0. */
  ghost function Slot(disk: Disk, d: Din, i: nat): nat
    requires DinShape(disk, d) && i < NSLOTS
  {
    if i < NDIRECT then d.direct[i] else if d.indirect == 0 then 0 else Entry(disk[d.indirect], i - NDIRECT)
  }

  /** What a block in use is used for. */
  datatype Use = Meta | Node(ino: nat) | Index(ino: nat) | Data(ino: nat, i: nat)

  ghost predicate Has(owner: map<nat, Use>, b: nat, u: Use) {
    b in owner && owner[b] == u
  }

  ghost predicate Owns(disk: Disk, ino: nat, d: Din, owner: map<nat, Use>)
    requires DinShape(disk, d)
  {
    && Has(owner, ino, Node(ino)) && (d.indirect != 0 ==> Has(owner, d.indirect, Index(ino)))
    && (forall i: nat :: i < d.blocks ==> Has(owner, Slot(disk, d, i), Data(ino, i)))
    && (forall i: nat :: d.blocks <= i < NSLOTS ==> Slot(disk, d, i) == 0)
  }

  ghost predicate Named(disk: Disk, dins: map<nat, Din>, b: nat, u: Use)
    requires forall x :: x in dins ==> DinShape(disk, dins[x])
  {
    match u
    case Meta => true
    case Node(x) => x in dins && x == b
    case Index(x) => x in dins && dins[x].indirect == b
    case Data(x, i) => x in dins && i < dins[x].blocks && Slot(disk, dins[x], i) == b
  }

  /** The state of the file system, with the use of each block. */
  datatype Fs = Fs(free: seq<bool>, disk: Disk, dins: map<nat, Din>, owner: map<nat, Use>)

  /** Every block in use has one use, and every inode, index block and data slot has its block: the blocks with a bit
      in the freemap are the others. */
  ghost predicate Inv(s: Fs) {
    && Shaped(s.disk) && 0 < |s.disk| == |s.free| && |s.disk| < 0x1_0000_0000 && Has(s.owner, 0, Meta)
    && (forall b :: b in s.owner ==> b < |s.disk|)
    && (forall b: nat :: b < |s.free| ==> (s.free[b] <==> b !in s.owner))
    && (forall x :: x in s.dins ==> DinShape(s.disk, s.dins[x]) && Owns(s.disk, x, s.dins[x], s.owner))
    && (forall b :: b in s.owner ==> Named(s.disk, s.dins, b, s.owner[b]))
  }

  /** The blocks of a file. */
  ghost function File(disk: Disk, d: Din): seq<Block>
    requires DinShape(disk, d)
  {
    seq(d.blocks, i requires 0 <= i < d.blocks => BlockAt(disk, Slot(disk, d, i)))
  }

  ghost function BlockAt(disk: Disk, b: nat): Block {
    if b < |disk| then disk[b] else []
  }

  /** All inodes but x have the blocks and the sizes they had. */
  ghost predicate OthersKept(s: Fs, t: Fs, x: nat) {
    && (forall y :: y in t.dins ==> y in s.dins)
    && forall y :: y in s.dins && y != x ==>
      && y in t.dins && t.dins[y] == s.dins[y] && DinShape(s.disk, s.dins[y]) && DinShape(t.disk, s.dins[y])
      && File(t.disk, s.dins[y]) == File(s.disk, s.dins[y])
  }

  // ---------- writing a block ----------

  lemma SlotsKept(disk: Disk, d: Din, b: nat, c: Block, i: nat)
    requires DinShape(disk, d) && b < |disk| && |c| == BLKSIZE && (b == d.indirect ==> b == 0) && i < NSLOTS
    ensures DinShape(disk[b := c], d) && Slot(disk[b := c], d, i) == Slot(disk, d, i)
  {
  }

  ghost predicate CanPut(s: Fs, b: nat, c: Block) {
    Inv(s) && b < |s.disk| && |c| == BLKSIZE && !(b in s.owner && s.owner[b].Index?)
  }

  /** Writing a block that is not an index block moves no slot. */
  lemma PutKeepsInv(s: Fs, b: nat, c: Block)
    requires CanPut(s, b, c)
    ensures Inv(s.(disk := s.disk[b := c]))
  {
    var disk' := s.disk[b := c];
    forall x, i: nat | x in s.dins && i < NSLOTS
      ensures DinShape(disk', s.dins[x]) && Slot(disk', s.dins[x], i) == Slot(s.disk, s.dins[x], i)
    {
      SlotsKept(s.disk, s.dins[x], b, c, i);
    }
    forall x | x in s.dins ensures DinShape(disk', s.dins[x]) && Owns(disk', x, s.dins[x], s.owner) {
      assert Owns(s.disk, x, s.dins[x], s.owner);
      SlotsKept(s.disk, s.dins[x], b, c, 0);
    }
    forall k | k in s.owner ensures Named(disk', s.dins, k, s.owner[k]) {
      assert Named(s.disk, s.dins, k, s.owner[k]);
    }
  }

  /** A file sees a write to one of its blocks, and no other. */
  lemma PutInFile(s: Fs, b: nat, c: Block, x: nat)
    requires CanPut(s, b, c) && x in s.dins
    ensures DinShape(s.disk[b := c], s.dins[x])
    ensures File(s.disk[b := c], s.dins[x]) ==
            if b in s.owner && s.owner[b].Data? && s.owner[b].ino == x then File(s.disk, s.dins[x])[s.owner[b].i := c]
            else File(s.disk, s.dins[x])
  {
    var disk', d := s.disk[b := c], s.dins[x];
    SlotsKept(s.disk, d, b, c, 0);
    assert b in s.owner ==> Named(s.disk, s.dins, b, s.owner[b]);
    forall i: nat | i < d.blocks
      ensures BlockAt(disk', Slot(disk', d, i)) ==
              if b in s.owner && s.owner[b] == Data(x, i) then c else BlockAt(s.disk, Slot(s.disk, d, i))
    {
      SlotsKept(s.disk, d, b, c, i);
      assert Has(s.owner, Slot(s.disk, d, i), Data(x, i));
    }
  }

  /** Writing a block of file x, or a free block, is seen by no other file. */
  lemma PutOthers(s: Fs, b: nat, c: Block, x: nat)
    requires CanPut(s, b, c) && (b in s.owner ==> s.owner[b].Data? && s.owner[b].ino == x)
    ensures OthersKept(s, s.(disk := s.disk[b := c]), x)
  {
    forall y | y in s.dins && y != x
      ensures DinShape(s.disk, s.dins[y]) && DinShape(s.disk[b := c], s.dins[y])
      ensures File(s.disk[b := c], s.dins[y]) == File(s.disk, s.dins[y])
    {
      PutInFile(s, b, c, y);
    }
  }

  // ---------- one step on an inode ----------

  ghost predicate Uses(u: Use, x: nat) {
    u == Index(x) || (u.Data? && u.ino == x)
  }

  /** At most the use of block b changes, to or from a use by x, and at most x's own index block is written. */
  ghost predicate Step(s: Fs, t: Fs, x: nat, b: nat) {
    && Inv(s) && x in s.dins && b < |s.disk| == |t.disk| && |t.free| == |s.free| && Shaped(t.disk)
    && (forall k: nat :: k < |s.disk| && k != s.dins[x].indirect ==> t.disk[k] == s.disk[k])
    && (forall k: nat :: k != b ==> (k in s.owner <==> k in t.owner) && (k in s.owner ==> s.owner[k] == t.owner[k]))
    && (forall k: nat :: k < |s.free| && k != b ==> t.free[k] == s.free[k]) && (t.free[b] <==> b !in t.owner)
    && (b in s.owner ==> Uses(s.owner[b], x)) && (b in t.owner ==> Uses(t.owner[b], x))
    && x in t.dins && t.dins == s.dins[x := t.dins[x]]
  }

  /** What x uses under its new map is what the new owners say. */
  ghost predicate Agrees(t: Fs, x: nat) {
    && x in t.dins && DinShape(t.disk, t.dins[x]) && Owns(t.disk, x, t.dins[x], t.owner)
    && forall k :: k in t.owner ==> UseAgrees(t.disk, x, t.dins[x], k, t.owner[k])
  }

  ghost predicate UseAgrees(disk: Disk, x: nat, d: Din, b: nat, u: Use)
    requires DinShape(disk, d)
  {
    && (u == Index(x) ==> d.indirect == b)
    && (u.Data? && u.ino == x ==> u.i < d.blocks && Slot(disk, d, u.i) == b)
  }

  lemma StepSlots(s: Fs, t: Fs, x: nat, b: nat, y: nat)
    requires Step(s, t, x, b) && y in s.dins && y != x
    ensures DinShape(t.disk, s.dins[y]) && (s.dins[y].indirect != 0 ==> Has(t.owner, s.dins[y].indirect, Index(y)))
    ensures forall i: nat :: i < NSLOTS ==> Slot(t.disk, s.dins[y], i) == Slot(s.disk, s.dins[y], i)
  {
    assert Owns(s.disk, y, s.dins[y], s.owner) && Owns(s.disk, x, s.dins[x], s.owner);
  }

  lemma StepOther(s: Fs, t: Fs, x: nat, b: nat, y: nat)
    requires Step(s, t, x, b) && y in s.dins && y != x
    ensures DinShape(t.disk, s.dins[y]) && Owns(t.disk, y, s.dins[y], t.owner)
    ensures File(t.disk, s.dins[y]) == File(s.disk, s.dins[y])
  {
    StepSlots(s, t, x, b, y);
    var d := s.dins[y];
    assert Owns(s.disk, y, d, s.owner) && Owns(s.disk, x, s.dins[x], s.owner);
    forall i: nat | i < d.blocks
      ensures Has(t.owner, Slot(t.disk, d, i), Data(y, i))
      ensures BlockAt(t.disk, Slot(t.disk, d, i)) == BlockAt(s.disk, Slot(s.disk, d, i))
    {
      assert Has(s.owner, Slot(s.disk, d, i), Data(y, i));
    }
  }

  lemma StepNamed(s: Fs, t: Fs, x: nat, b: nat, k: nat)
    requires Step(s, t, x, b) && Agrees(t, x) && k in t.owner
    requires forall y :: y in t.dins ==> DinShape(t.disk, t.dins[y])
    ensures Named(t.disk, t.dins, k, t.owner[k])
  {
    if k != b {
      assert Named(s.disk, s.dins, k, s.owner[k]);
      if s.owner[k].Data? && s.owner[k].ino != x { StepSlots(s, t, x, b, s.owner[k].ino); }
    }
  }

  lemma StepOthers(s: Fs, t: Fs, x: nat, b: nat)
    requires Step(s, t, x, b) && Agrees(t, x)
    ensures OthersKept(s, t, x)
    ensures forall y :: y in t.dins ==> DinShape(t.disk, t.dins[y]) && Owns(t.disk, y, t.dins[y], t.owner)
  {
    forall y | y in t.dins && y != x
      ensures DinShape(t.disk, t.dins[y]) && Owns(t.disk, y, t.dins[y], t.owner)
      ensures File(t.disk, s.dins[y]) == File(s.disk, s.dins[y])
    {
      StepOther(s, t, x, b, y);
    }
  }

  lemma StepFree(s: Fs, t: Fs, x: nat, b: nat)
    requires Step(s, t, x, b)
    ensures Has(t.owner, 0, Meta) && (forall k :: k in t.owner ==> k < |t.disk|)
    ensures forall k: nat :: k < |t.free| ==> (t.free[k] <==> k !in t.owner)
  {
    assert b != 0;
    forall k: nat | k < |t.free| ensures t.free[k] <==> k !in t.owner {
      assert k != b ==> t.free[k] == s.free[k];
    }
  }

  /** A step after which x agrees with the owners keeps the invariant and every other file. */
  lemma StepInv(s: Fs, t: Fs, x: nat, b: nat)
    requires Step(s, t, x, b) && Agrees(t, x)
    ensures Inv(t) && OthersKept(s, t, x)
  {
    StepFree(s, t, x, b);
    StepOthers(s, t, x, b);
    forall k | k in t.owner ensures Named(t.disk, t.dins, k, t.owner[k]) {
      StepNamed(s, t, x, b, k);
    }
  }

  // ---------- growing and shrinking a file by a block ----------

  /** Free block b becomes the next block of file x. */
  ghost function WithDirect(s: Fs, x: nat, b: nat): Fs
    requires x in s.dins && b < |s.free| && |s.dins[x].direct| == NDIRECT && s.dins[x].blocks < NDIRECT
  {
    var d := s.dins[x];
    s.(free := s.free[b := false], owner := s.owner[b := Data(x, d.blocks)],
       dins := s.dins[x := d.(direct := d.direct[d.blocks := b], blocks := d.blocks + 1)])
  }

  ghost function WithIndirect(s: Fs, x: nat, b: nat): Fs
    requires x in s.dins && b < |s.free| == |s.disk| && b < 0x1_0000_0000 && DinShape(s.disk, s.dins[x])
    requires NDIRECT <= s.dins[x].blocks < NSLOTS
  {
    var d := s.dins[x];
    s.(free := s.free[b := false], owner := s.owner[b := Data(x, d.blocks)],
       disk := s.disk[d.indirect := Splice(s.disk[d.indirect], 4 * (d.blocks - NDIRECT), Encode(b))],
       dins := s.dins[x := d.(blocks := d.blocks + 1)])
  }

  /** Free block e becomes the index block of file x. */
  ghost function WithIndex(s: Fs, x: nat, e: nat): Fs
    requires x in s.dins && e < |s.free|
  {
    s.(free := s.free[e := false], owner := s.owner[e := Index(x)], dins := s.dins[x := s.dins[x].(indirect := e)])
  }

  /** The slots of x are as they were, but for slot n. */
  ghost predicate SlotSet(s: Fs, t: Fs, x: nat, n: nat, b: nat) {
    && x in s.dins && x in t.dins && DinShape(s.disk, s.dins[x]) && DinShape(t.disk, t.dins[x])
    && s.dins[x].indirect == t.dins[x].indirect && n < NSLOTS
    && forall i: nat :: i < NSLOTS ==> Slot(t.disk, t.dins[x], i) == if i == n then b else Slot(s.disk, s.dins[x], i)
  }

  /** Writing entry n of the index block sets that slot. */
  lemma EntrySlots(s: Fs, t: Fs, x: nat, n: nat, v: nat)
    requires Inv(s) && x in s.dins && x in t.dins && s.dins[x].indirect != 0 && NDIRECT <= n < NSLOTS
    requires v < 0x1_0000_0000
    requires t.dins[x] == s.dins[x].(blocks := t.dins[x].blocks) && t.dins[x].blocks <= NSLOTS
    requires t.disk == s.disk[s.dins[x].indirect := Splice(s.disk[s.dins[x].indirect], 4 * (n - NDIRECT), Encode(v))]
    ensures SlotSet(s, t, x, n, v)
  {
    var d := s.dins[x];
    forall i: nat | i < NSLOTS ensures Slot(t.disk, t.dins[x], i) == if i == n then v else Slot(s.disk, d, i) {
      if i >= NDIRECT { EntryWrite(s.disk[d.indirect], n - NDIRECT, v, i - NDIRECT); }
    }
  }

  lemma GrowAgrees(s: Fs, t: Fs, x: nat, b: nat)
    requires Step(s, t, x, b) && s.free[b] && SlotSet(s, t, x, s.dins[x].blocks, b)
    requires Has(t.owner, b, Data(x, s.dins[x].blocks)) && t.dins[x].blocks == s.dins[x].blocks + 1
    ensures Agrees(t, x)
  {
    var d, d' := s.dins[x], t.dins[x];
    assert Owns(s.disk, x, d, s.owner);
    forall i: nat | i < d.blocks ensures Has(t.owner, Slot(t.disk, d', i), Data(x, i)) {
      assert Has(s.owner, Slot(s.disk, d, i), Data(x, i));
    }
    forall k | k in t.owner ensures UseAgrees(t.disk, x, d', k, t.owner[k]) {
      assert k != b ==> t.owner[k] == s.owner[k] && Named(s.disk, s.dins, k, s.owner[k]);
    }
  }

  lemma GrowFile(s: Fs, t: Fs, x: nat, b: nat)
    requires Step(s, t, x, b) && s.free[b] && SlotSet(s, t, x, s.dins[x].blocks, b)
    requires t.dins[x].blocks == s.dins[x].blocks + 1
    ensures File(t.disk, t.dins[x]) == File(s.disk, s.dins[x]) + [s.disk[b]]
  {
    var d, d' := s.dins[x], t.dins[x];
    assert Owns(s.disk, x, d, s.owner);
    forall i: nat | i < d.blocks ensures BlockAt(t.disk, Slot(t.disk, d', i)) == BlockAt(s.disk, Slot(s.disk, d, i)) {
      assert Has(s.owner, Slot(s.disk, d, i), Data(x, i));
    }
    assert BlockAt(t.disk, Slot(t.disk, d', d.blocks)) == s.disk[b];
  }

  lemma GrowDirect(s: Fs, x: nat, b: nat)
    requires Inv(s) && x in s.dins && b < |s.free| && s.free[b] && s.dins[x].blocks < NDIRECT
    ensures var t := WithDirect(s, x, b);
            && Inv(t) && OthersKept(s, t, x) && Slot(t.disk, t.dins[x], s.dins[x].blocks) == b
            && File(t.disk, t.dins[x]) == File(s.disk, s.dins[x]) + [s.disk[b]]
  {
    var t := WithDirect(s, x, b);
    assert SlotSet(s, t, x, s.dins[x].blocks, b);
    GrowAgrees(s, t, x, b);
    GrowFile(s, t, x, b);
    StepInv(s, t, x, b);
  }

  lemma GrowIndirect(s: Fs, x: nat, b: nat)
    requires Inv(s) && x in s.dins && b < |s.free| && s.free[b] && NDIRECT <= s.dins[x].blocks < NSLOTS
    requires s.dins[x].indirect != 0
    ensures var t := WithIndirect(s, x, b);
            && Inv(t) && OthersKept(s, t, x) && Slot(t.disk, t.dins[x], s.dins[x].blocks) == b
            && File(t.disk, t.dins[x]) == File(s.disk, s.dins[x]) + [s.disk[b]]
  {
    var t, d := WithIndirect(s, x, b), s.dins[x];
    EntrySlots(s, t, x, d.blocks, b);
    GrowAgrees(s, t, x, b);
    GrowFile(s, t, x, b);
    StepInv(s, t, x, b);
  }

  lemma IndexAgrees(s: Fs, t: Fs, x: nat, e: nat)
    requires Step(s, t, x, e) && s.free[e] && DinShape(t.disk, t.dins[x])
    requires Has(t.owner, e, Index(x)) && t.dins[x] == s.dins[x].(indirect := e) && s.dins[x].indirect == 0
    requires forall i: nat :: i < NSLOTS ==> Slot(t.disk, t.dins[x], i) == Slot(s.disk, s.dins[x], i)
    ensures Agrees(t, x)
  {
    var d := s.dins[x];
    assert Owns(s.disk, x, d, s.owner);
    forall i: nat | i < d.blocks ensures Has(t.owner, Slot(t.disk, t.dins[x], i), Data(x, i)) {
      assert Has(s.owner, Slot(s.disk, d, i), Data(x, i));
    }
    forall k | k in t.owner ensures UseAgrees(t.disk, x, t.dins[x], k, t.owner[k]) {
      assert k != e ==> t.owner[k] == s.owner[k] && Named(s.disk, s.dins, k, s.owner[k]);
    }
  }

  lemma IndexSlots(s: Fs, t: Fs, x: nat, e: nat)
    requires Inv(s) && x in s.dins && e < |s.free| && s.disk[e] == Zero() && s.dins[x].indirect == 0
    requires t == WithIndex(s, x, e)
    ensures DinShape(t.disk, t.dins[x])
    ensures forall i: nat :: i < NSLOTS ==> Slot(t.disk, t.dins[x], i) == Slot(s.disk, s.dins[x], i)
  {
    forall i: nat | i < NSLOTS ensures Slot(t.disk, t.dins[x], i) == Slot(s.disk, s.dins[x], i) {
      if i >= NDIRECT { EntryZero(i - NDIRECT); }
    }
  }

  lemma IndexStep(s: Fs, x: nat, e: nat)
    requires Inv(s) && x in s.dins && e < |s.free| && s.free[e] && s.dins[x].indirect == 0
    ensures var t := WithIndex(s, x, e);
            && Step(s, t, x, e) && Has(t.owner, e, Index(x)) && t.dins[x] == s.dins[x].(indirect := e)
            && DinShape(s.disk, s.dins[x]) && s.dins[x].blocks <= NSLOTS
  {
    hide Owns, Named, DinShape;
    assert DinShape(s.disk, s.dins[x]);
    ShapeBound(s.disk, s.dins[x]);
  }

  lemma ShapeBound(disk: Disk, d: Din)
    requires DinShape(disk, d)
    ensures d.blocks <= NSLOTS
  {
  }

  lemma SameSlots(s: Disk, t: Disk, d: Din, e: Din)
    requires DinShape(s, d) && DinShape(t, e) && s == t && d.blocks == e.blocks <= NSLOTS
    requires forall i: nat :: i < NSLOTS ==> Slot(t, e, i) == Slot(s, d, i)
    ensures File(t, e) == File(s, d)
  {
    hide DinShape, Slot;
  }

  lemma GrowIndex(s: Fs, x: nat, e: nat)
    requires Inv(s) && x in s.dins && e < |s.free| && s.free[e] && s.dins[x].indirect == 0 && s.disk[e] == Zero()
    ensures var t := WithIndex(s, x, e);
            Inv(t) && OthersKept(s, t, x) && File(t.disk, t.dins[x]) == File(s.disk, s.dins[x])
  {
    hide Inv, Step, Agrees, OthersKept, File, Slot, DinShape;
    var t := WithIndex(s, x, e);
    IndexSlots(s, t, x, e);
    IndexStep(s, x, e);
    IndexAgrees(s, t, x, e);
    StepInv(s, t, x, e);
    SameSlots(s.disk, t.disk, s.dins[x], t.dins[x]);
  }

  lemma OthersSame(s: Fs, x: nat)
    requires Inv(s)
    ensures OthersKept(s, s, x)
  {
  }

  lemma OthersTrans(s: Fs, t: Fs, u: Fs, x: nat)
    requires OthersKept(s, t, x) && OthersKept(t, u, x)
    ensures OthersKept(s, u, x)
  {
  }

  /** Free block b, cleared, is put behind the blocks of x. */
  ghost predicate Appends(s: Fs, t: Fs, x: nat, b: nat) {
    && Inv(s) && Inv(t) && OthersKept(s, t, x) && x in s.dins && x in t.dins && s.dins[x].blocks < NSLOTS
    && t.dins[x].blocks == s.dins[x].blocks + 1 && t.dins[x].size == s.dins[x].size
    && t.dins[x].nlinks == s.dins[x].nlinks
    && (s.dins[x].blocks < NDIRECT || s.dins[x].indirect != 0 ==> t.dins[x].indirect == s.dins[x].indirect)
    && Slot(t.disk, t.dins[x], s.dins[x].blocks) == b && File(t.disk, t.dins[x]) == File(s.disk, s.dins[x]) + [Zero()]
  }

  ghost function Cleared(s: Fs, b: nat): Fs
    requires b < |s.disk|
  {
    s.(disk := s.disk[b := Zero()])
  }

  lemma ClearFree(s: Fs, x: nat, b: nat)
    requires Inv(s) && x in s.dins && b < |s.free| && s.free[b]
    ensures Inv(Cleared(s, b)) && OthersKept(s, Cleared(s, b), x)
    ensures File(Cleared(s, b).disk, s.dins[x]) == File(s.disk, s.dins[x])
  {
    PutKeepsInv(s, b, Zero());
    PutInFile(s, b, Zero(), x);
    PutOthers(s, b, Zero(), x);
  }

  lemma AppendDirect(s: Fs, x: nat, b: nat)
    requires Inv(s) && x in s.dins && b < |s.free| && s.free[b] && s.dins[x].blocks < NDIRECT
    ensures Appends(s, WithDirect(Cleared(s, b), x, b), x, b)
  {
    ClearFree(s, x, b);
    GrowDirect(Cleared(s, b), x, b);
    OthersTrans(s, Cleared(s, b), WithDirect(Cleared(s, b), x, b), x);
  }

  lemma AppendIndirect(s: Fs, x: nat, b: nat)
    requires Inv(s) && x in s.dins && b < |s.free| && s.free[b] && NDIRECT <= s.dins[x].blocks < NSLOTS
    requires s.dins[x].indirect != 0
    ensures Appends(s, WithIndirect(Cleared(s, b), x, b), x, b)
  {
    ClearFree(s, x, b);
    GrowIndirect(Cleared(s, b), x, b);
    OthersTrans(s, Cleared(s, b), WithIndirect(Cleared(s, b), x, b), x);
  }

  lemma AppendIndexed(s: Fs, x: nat, e: nat, b: nat)
    requires Inv(s) && x in s.dins && NDIRECT <= s.dins[x].blocks < NSLOTS && s.dins[x].indirect == 0
    requires e < |s.free| && s.free[e] && b < |s.free| && s.free[b] && e != b
    ensures var t := WithIndex(Cleared(s, e), x, e);
            Inv(t) && t.free[b] && t.dins[x].indirect != 0 && Appends(s, WithIndirect(Cleared(t, b), x, b), x, b)
  {
    var t := WithIndex(Cleared(s, e), x, e);
    ClearFree(s, x, e);
    GrowIndex(Cleared(s, e), x, e);
    AppendIndirect(t, x, b);
    OthersTrans(s, Cleared(s, e), t, x);
    OthersTrans(s, t, WithIndirect(Cleared(t, b), x, b), x);
  }

  /** The last block of file x becomes free. */
  ghost function WithoutDirect(s: Fs, x: nat, b: nat): Fs
    requires x in s.dins && b < |s.free| && |s.dins[x].direct| == NDIRECT && 0 < s.dins[x].blocks <= NDIRECT
  {
    var d := s.dins[x];
    s.(free := s.free[b := true], owner := s.owner - {b},
       dins := s.dins[x := d.(direct := d.direct[d.blocks - 1 := 0], blocks := d.blocks - 1)])
  }

  ghost function WithoutIndirect(s: Fs, x: nat, b: nat): Fs
    requires x in s.dins && b < |s.free| == |s.disk| && DinShape(s.disk, s.dins[x]) && NDIRECT < s.dins[x].blocks
  {
    var d := s.dins[x];
    s.(free := s.free[b := true], owner := s.owner - {b},
       disk := s.disk[d.indirect := Splice(s.disk[d.indirect], 4 * (d.blocks - 1 - NDIRECT), Encode(0))],
       dins := s.dins[x := d.(blocks := d.blocks - 1)])
  }

  ghost predicate IsLast(s: Fs, x: nat, b: nat) {
    && Inv(s) && x in s.dins && s.dins[x].blocks > 0 && b == Slot(s.disk, s.dins[x], s.dins[x].blocks - 1)
  }

  lemma LastOwned(s: Fs, x: nat, b: nat)
    requires IsLast(s, x, b)
    ensures b < |s.free| && b != 0 && Has(s.owner, b, Data(x, s.dins[x].blocks - 1))
  {
    assert Owns(s.disk, x, s.dins[x], s.owner);
  }

  lemma ShrinkOwns(s: Fs, t: Fs, x: nat, b: nat)
    requires IsLast(s, x, b) && Step(s, t, x, b) && SlotSet(s, t, x, s.dins[x].blocks - 1, 0)
    requires t.dins[x].blocks == s.dins[x].blocks - 1
    ensures Owns(t.disk, x, t.dins[x], t.owner)
  {
    LastOwned(s, x, b);
    var d, d' := s.dins[x], t.dins[x];
    assert Owns(s.disk, x, d, s.owner);
    forall i: nat | i < d'.blocks ensures Has(t.owner, Slot(t.disk, d', i), Data(x, i)) {
      assert Has(s.owner, Slot(s.disk, d, i), Data(x, i));
    }
  }

  lemma ShrinkUse(s: Fs, t: Fs, x: nat, b: nat, k: nat)
    requires IsLast(s, x, b) && Step(s, t, x, b) && b !in t.owner && SlotSet(s, t, x, s.dins[x].blocks - 1, 0)
    requires t.dins[x].blocks == s.dins[x].blocks - 1 && k in t.owner
    ensures UseAgrees(t.disk, x, t.dins[x], k, t.owner[k])
  {
    hide Slot, Owns;
    LastOwned(s, x, b);
    assert t.owner[k] == s.owner[k] && Named(s.disk, s.dins, k, s.owner[k]);
  }

  lemma ShrinkAgrees(s: Fs, t: Fs, x: nat, b: nat)
    requires IsLast(s, x, b) && Step(s, t, x, b) && b !in t.owner && SlotSet(s, t, x, s.dins[x].blocks - 1, 0)
    requires t.dins[x].blocks == s.dins[x].blocks - 1
    ensures Agrees(t, x)
  {
    ShrinkOwns(s, t, x, b);
    forall k | k in t.owner ensures UseAgrees(t.disk, x, t.dins[x], k, t.owner[k]) {
      ShrinkUse(s, t, x, b, k);
    }
  }

  lemma ShrinkFile(s: Fs, t: Fs, x: nat, b: nat)
    requires IsLast(s, x, b) && Step(s, t, x, b) && SlotSet(s, t, x, s.dins[x].blocks - 1, 0)
    requires t.dins[x].blocks == s.dins[x].blocks - 1
    ensures File(t.disk, t.dins[x]) == File(s.disk, s.dins[x])[..t.dins[x].blocks]
  {
    var d, d' := s.dins[x], t.dins[x];
    assert Owns(s.disk, x, d, s.owner);
    forall i: nat | i < d'.blocks ensures BlockAt(t.disk, Slot(t.disk, d', i)) == BlockAt(s.disk, Slot(s.disk, d, i)) {
      assert Has(s.owner, Slot(s.disk, d, i), Data(x, i));
    }
  }

  lemma ShrinkDirect(s: Fs, x: nat, b: nat)
    requires IsLast(s, x, b) && s.dins[x].blocks <= NDIRECT
    ensures b < |s.free| && b in s.owner
    ensures var t := WithoutDirect(s, x, b);
            && Inv(t) && OthersKept(s, t, x)
            && File(t.disk, t.dins[x]) == File(s.disk, s.dins[x])[..t.dins[x].blocks]
  {
    LastOwned(s, x, b);
    var t := WithoutDirect(s, x, b);
    assert SlotSet(s, t, x, s.dins[x].blocks - 1, 0);
    ShrinkAgrees(s, t, x, b);
    ShrinkFile(s, t, x, b);
    StepInv(s, t, x, b);
  }

  lemma ShrinkIndirect(s: Fs, x: nat, b: nat)
    requires IsLast(s, x, b) && s.dins[x].blocks > NDIRECT
    ensures b < |s.free| && b in s.owner
    ensures var t := WithoutIndirect(s, x, b);
            && Inv(t) && OthersKept(s, t, x)
            && File(t.disk, t.dins[x]) == File(s.disk, s.dins[x])[..t.dins[x].blocks]
  {
    LastOwned(s, x, b);
    var t, d := WithoutIndirect(s, x, b), s.dins[x];
    EntrySlots(s, t, x, d.blocks - 1, 0);
    ShrinkAgrees(s, t, x, b);
    ShrinkFile(s, t, x, b);
    StepInv(s, t, x, b);
  }

  /** The last block of x, b, becomes free. */
  ghost predicate Drops(s: Fs, t: Fs, x: nat) {
    && Inv(s) && Inv(t) && OthersKept(s, t, x) && x in s.dins && x in t.dins && 0 < s.dins[x].blocks
    && t.dins[x].blocks == s.dins[x].blocks - 1 && t.dins[x].size == s.dins[x].size
    && t.dins[x].nlinks == s.dins[x].nlinks
    && t.dins[x].indirect == s.dins[x].indirect
    && File(t.disk, t.dins[x]) == File(s.disk, s.dins[x])[..t.dins[x].blocks]
    && var b := Slot(s.disk, s.dins[x], s.dins[x].blocks - 1);
       b < |s.free| && t.free == s.free[b := true] && t.owner == s.owner - {b}
  }

  /** Nothing is allocated, though a free block may have been cleared. */
  ghost predicate Unspent(s: Fs, t: Fs) {
    && t.free == s.free && t.dins == s.dins && t.owner == s.owner
    && (t.disk == s.disk || exists b: nat :: b < |s.free| && b < |s.disk| && s.free[b] && t.disk == s.disk[b := Zero()])
  }

  lemma UnspentInv(s: Fs, t: Fs)
    requires Inv(s) && Unspent(s, t)
    ensures Inv(t) && forall x :: x in s.dins ==>
              DinShape(t.disk, s.dins[x]) && File(t.disk, s.dins[x]) == File(s.disk, s.dins[x])
  {
    if t.disk != s.disk {
      var b: nat :| b < |s.free| && b < |s.disk| && s.free[b] && t.disk == s.disk[b := Zero()];
      PutKeepsInv(s, b, Zero());
      assert t == s.(disk := s.disk[b := Zero()]);
      forall x | x in s.dins ensures DinShape(t.disk, s.dins[x]) && File(t.disk, s.dins[x]) == File(s.disk, s.dins[x]) {
        PutInFile(s, b, Zero(), x);
      }
    }
  }

  // ---------- removing an inode ----------

  /** An inode without data blocks goes away: its own block and its index block become free. */
  ghost function Removed(s: Fs, x: nat): Fs
    requires x in s.dins && x < |s.free| && s.dins[x].indirect < |s.free|
  {
    var e := s.dins[x].indirect;
    if e == 0 then s.(free := s.free[x := true], owner := s.owner - {x}, dins := s.dins - {x})
    else s.(free := s.free[x := true][e := true], owner := s.owner - {x, e}, dins := s.dins - {x})
  }

  lemma RemoveOthers(s: Fs, x: nat, y: nat)
    requires Inv(s) && x in s.dins && y in s.dins && y != x && x < |s.free| && s.dins[x].indirect < |s.free|
    ensures Owns(s.disk, y, s.dins[y], Removed(s, x).owner)
  {
    var t := Removed(s, x);
    assert Owns(s.disk, x, s.dins[x], s.owner) && Owns(s.disk, y, s.dins[y], s.owner);
    forall i: nat | i < s.dins[y].blocks ensures Has(t.owner, Slot(s.disk, s.dins[y], i), Data(y, i)) {
      assert Has(s.owner, Slot(s.disk, s.dins[y], i), Data(y, i));
    }
  }

  lemma RemoveNamed(s: Fs, x: nat, k: nat)
    requires Inv(s) && x in s.dins && s.dins[x].blocks == 0 && x < |s.free| && s.dins[x].indirect < |s.free|
    requires k in Removed(s, x).owner
    ensures var t := Removed(s, x); Named(t.disk, t.dins, k, t.owner[k])
  {
    assert Named(s.disk, s.dins, k, s.owner[k]);
  }

  lemma RemoveFree(s: Fs, x: nat)
    requires Inv(s) && x in s.dins
    ensures x < |s.free| && s.dins[x].indirect < |s.free|
    ensures var t := Removed(s, x);
            && t.disk == s.disk && t.dins == s.dins - {x} && |t.free| == |s.free| && Has(t.owner, 0, Meta)
            && (forall b :: b in t.owner ==> b < |t.disk|)
            && forall b: nat :: b < |t.free| ==> (t.free[b] <==> b !in t.owner)
  {
    assert Owns(s.disk, x, s.dins[x], s.owner);
  }

  lemma RemoveInode(s: Fs, x: nat)
    requires Inv(s) && x in s.dins && s.dins[x].blocks == 0
    ensures x < |s.free| && s.dins[x].indirect < |s.free|
    ensures Inv(Removed(s, x)) && OthersKept(s, Removed(s, x), x)
  {
    hide Owns, Named, Slot, Removed;
    RemoveFree(s, x);
    var t := Removed(s, x);
    forall y | y in t.dins ensures DinShape(t.disk, t.dins[y]) && Owns(t.disk, y, t.dins[y], t.owner) {
      RemoveOthers(s, x, y);
    }
    forall k | k in t.owner ensures Named(t.disk, t.dins, k, t.owner[k]) {
      RemoveNamed(s, x, k);
    }
  }
}
