/** The bytes of a file, and what a change of its blocks does to them. */
module SfsBytes {
  import opened SfsLayout

  /** The bytes of the blocks of a file, one after the other. */
  ghost function Bytes(f: seq<Block>): seq<Byte>
    requires Shaped(f)
  {
    seq(|f| * 4096, p requires 0 <= p < |f| * 4096 => f[p / BLKSIZE][p % BLKSIZE])
  }

  /** Data written over b at off, b growing as needed. */
  ghost function Overlay(b: seq<Byte>, off: nat, data: seq<Byte>): seq<Byte>
    requires off <= |b|
  {
    b[..off] + data + if off + |data| <= |b| then b[off + |data|..] else []
  }

  lemma FileShaped(s: Fs, x: nat)
    requires Inv(s) && x in s.dins
    ensures DinShape(s.disk, s.dins[x]) && Shaped(File(s.disk, s.dins[x]))
  {
    assert Owns(s.disk, x, s.dins[x], s.owner);
    forall i: nat | i < s.dins[x].blocks ensures |BlockAt(s.disk, Slot(s.disk, s.dins[x], i))| == BLKSIZE {
      assert Has(s.owner, Slot(s.disk, s.dins[x], i), Data(x, i));
    }
  }

  ghost function Raw(s: Fs, x: nat): (r: seq<Byte>)
    requires Inv(s) && x in s.dins
    ensures |r| == s.dins[x].blocks * 4096
  {
    FileShaped(s, x);
    Bytes(File(s.disk, s.dins[x]))
  }

  ghost predicate Sized(dins: map<nat, Din>) {
    forall x :: x in dins ==> dins[x].size <= dins[x].blocks * 4096
  }

  /** The contents of a file. */
  ghost function Contents(s: Fs, x: nat): (c: seq<Byte>)
    requires Inv(s) && x in s.dins && s.dins[x].size <= s.dins[x].blocks * 4096
    ensures |c| == s.dins[x].size
  {
    Raw(s, x)[..s.dins[x].size]
  }

  /** The first size bytes of f, brought up to n bytes by what f holds behind them and then by zeros. */
  ghost function PaddedBytes(f: seq<Byte>, size: nat, n: nat): (c: seq<Byte>)
    requires size <= |f|
    ensures |c| == if n <= size then size else n
  {
    if n <= size then f[..size] else if n <= |f| then f[..n] else f + seq(n - |f|, k => 0)
  }

  /** The contents of a file, brought up to n bytes by what its blocks hold behind them and then by zeros. */
  ghost function Padded(s: Fs, x: nat, n: nat): (c: seq<Byte>)
    requires Inv(s) && x in s.dins && s.dins[x].size <= s.dins[x].blocks * 4096
    ensures |c| == if n <= s.dins[x].size then s.dins[x].size else n
    ensures n <= s.dins[x].size ==> c == Contents(s, x)
  {
    PaddedBytes(Raw(s, x), s.dins[x].size, n)
  }

  lemma ContentsPiece(s: Fs, x: nat, a: nat, b: nat)
    requires Inv(s) && x in s.dins && a <= b <= s.dins[x].size <= s.dins[x].blocks * 4096
    ensures Contents(s, x)[a..b] == Raw(s, x)[a..b]
  {
  }

  lemma BytesAppend(f: seq<Block>, b: Block)
    requires Shaped(f) && |b| == BLKSIZE
    ensures Bytes(f + [b]) == Bytes(f) + b
  {
    var l, r := Bytes(f + [b]), Bytes(f) + b;
    forall p | 0 <= p < |l| ensures l[p] == r[p] {
      if p >= |f| * 4096 { assert p / BLKSIZE == |f| && p % BLKSIZE == p - |f| * 4096; }
    }
  }

  /** Byte p is in block i just when it lies in its range. */
  lemma InBlock(p: nat, i: nat)
    ensures p / BLKSIZE == i <==> i * 4096 <= p < i * 4096 + 4096
    ensures p / BLKSIZE == i ==> p % BLKSIZE == p - i * 4096
  {
  }

  /** Changing a piece of block i changes that piece of the bytes. */
  lemma BytesSplice(f: seq<Block>, i: nat, off: nat, data: seq<Byte>)
    requires Shaped(f) && i < |f| && off + |data| <= BLKSIZE
    ensures i * 4096 + off + |data| <= |f| * 4096
    ensures Bytes(f[i := Splice(f[i], off, data)]) == Splice(Bytes(f), i * 4096 + off, data)
  {
    var g := f[i := Splice(f[i], off, data)];
    var l, r := Bytes(g), Splice(Bytes(f), i * 4096 + off, data);
    forall p: nat | p < |l| ensures l[p] == r[p] {
      InBlock(p, i);
    }
  }

  lemma BytesPiece(f: seq<Block>, i: nat, off: nat, len: nat)
    requires Shaped(f) && i < |f| && off + len <= BLKSIZE
    ensures i * 4096 + off + len <= |f| * 4096
    ensures Bytes(f)[i * 4096 + off..i * 4096 + off + len] == f[i][off..off + len]
  {
    var l, r := Bytes(f)[i * 4096 + off..i * 4096 + off + len], f[i][off..off + len];
    forall p: nat | p < len ensures l[p] == r[p] {
      InBlock(i * 4096 + off + p, i);
    }
  }

  // ---------- writing ----------

  ghost predicate SameFile(d: Din, e: Din) {
    d.size == e.size && d.nlinks == e.nlinks
  }

  /** Data has been written over f at off, f having got zeros at its end as needed. */
  ghost predicate Over(f: seq<Byte>, g: seq<Byte>, off: nat, data: seq<Byte>) {
    && |f| <= |g| && (data != [] ==> off + |data| <= |g|)
    && forall p: nat :: p < |g| ==>
          g[p] == if off <= p < off + |data| then data[p - off] else if p < |f| then f[p] else 0
  }

  /** Only the blocks of x have changed, not its size or links. */
  ghost predicate Kept(s: Fs, t: Fs, x: nat) {
    Inv(s) && Inv(t) && OthersKept(s, t, x) && x in s.dins && x in t.dins && SameFile(s.dins[x], t.dins[x])
  }

  /** Data has been written at off into the blocks of file x, which may have got cleared blocks at its end. */
  ghost predicate Written(s: Fs, t: Fs, x: nat, off: nat, data: seq<Byte>) {
    Kept(s, t, x) && Over(Raw(s, x), Raw(t, x), off, data)
  }

  lemma OverTwice(f: seq<Byte>, g: seq<Byte>, h: seq<Byte>, off: nat, data: seq<Byte>, more: seq<Byte>)
    requires Over(f, g, off, data) && Over(g, h, off + |data|, more)
    ensures Over(f, h, off, data + more)
  {
  }

  lemma OverProgress(f: seq<Byte>, g: seq<Byte>, h: seq<Byte>, off: nat, buf: seq<Byte>, alen: nat, n: nat, pos: nat,
                     piece: seq<Byte>)
    requires alen + n <= |buf| && pos == off + alen && piece == buf[alen..alen + n]
    requires Over(f, g, off, buf[..alen]) && Over(g, h, pos, piece)
    ensures Over(f, h, off, buf[..alen + n])
  {
    assert buf[..alen] + piece == buf[..alen + n];
    OverTwice(f, g, h, off, buf[..alen], piece);
  }

  /** The first alen bytes of buf have been written at offset. */
  ghost predicate Progress(s: Fs, t: Fs, x: nat, offset: nat, buf: seq<Byte>, alen: nat) {
    alen <= |buf| && Written(s, t, x, offset, buf[..alen])
  }

  lemma ProgressStep(s: Fs, t: Fs, u: Fs, x: nat, offset: nat, buf: seq<Byte>, alen: nat, n: nat, pos: nat,
                     piece: seq<Byte>)
    requires Progress(s, t, x, offset, buf, alen) && Written(t, u, x, pos, piece)
    requires alen + n <= |buf| && pos == offset + alen && piece == buf[alen..alen + n]
    ensures Progress(s, u, x, offset, buf, alen + n)
  {
    OthersTrans(s, t, u, x);
    OverProgress(Raw(s, x), Raw(t, x), Raw(u, x), offset, buf, alen, n, pos, piece);
  }

  lemma ProgressStall(s: Fs, t: Fs, u: Fs, x: nat, offset: nat, buf: seq<Byte>, alen: nat)
    requires Progress(s, t, x, offset, buf, alen) && Unspent(t, u)
    ensures Progress(s, u, x, offset, buf, alen)
  {
    UnspentInv(t, u);
    OthersTrans(s, t, u, x);
  }

  lemma WrittenLater(s: Fs, t: Fs, u: Fs, x: nat, off: nat, data: seq<Byte>)
    requires Written(s, t, x, off, []) && Written(t, u, x, off, data)
    ensures Written(s, u, x, off, data)
  {
    OthersTrans(s, t, u, x);
    OverLater(Raw(s, x), Raw(t, x), Raw(u, x), off, data);
  }

  lemma OverLater(f: seq<Byte>, g: seq<Byte>, h: seq<Byte>, off: nat, data: seq<Byte>)
    requires Over(f, g, off, []) && Over(g, h, off, data)
    ensures Over(f, h, off, data)
  {
  }

  lemma OverSplice(f: seq<Byte>, off: nat, data: seq<Byte>)
    requires off + |data| <= |f|
    ensures Over(f, Splice(f, off, data), off, data)
  {
  }

  lemma OverNone(f: seq<Byte>, off: nat)
    ensures Over(f, f, off, [])
  {
  }

  lemma WrittenNone(s: Fs, x: nat, off: nat)
    requires Inv(s) && x in s.dins
    ensures Written(s, s, x, off, [])
  {
    OverNone(Raw(s, x), off);
  }

  lemma DataBlock(s: Fs, x: nat, i: nat, b: nat)
    requires Inv(s) && x in s.dins && i < s.dins[x].blocks && b == Slot(s.disk, s.dins[x], i)
    ensures 0 < b < |s.disk| && |s.disk[b]| == BLKSIZE && Has(s.owner, b, Data(x, i))
    ensures File(s.disk, s.dins[x])[i] == s.disk[b]
  {
    assert Owns(s.disk, x, s.dins[x], s.owner);
  }

  lemma PieceWritten(s: Fs, x: nat, i: nat, b: nat, off: nat, pos: nat, data: seq<Byte>)
    requires Inv(s) && x in s.dins && i < s.dins[x].blocks && b == Slot(s.disk, s.dins[x], i)
    requires off + |data| <= BLKSIZE && pos == i * 4096 + off
    ensures 0 < b < |s.disk| && |s.disk[b]| == BLKSIZE
    ensures Written(s, s.(disk := s.disk[b := Splice(s.disk[b], off, data)]), x, pos, data)
  {
    hide Inv, Over, OthersKept;
    DataBlock(s, x, i, b);
    var c := Splice(s.disk[b], off, data);
    PutKeepsInv(s, b, c);
    PutInFile(s, b, c, x);
    PutOthers(s, b, c, x);
    FileShaped(s, x);
    BytesSplice(File(s.disk, s.dins[x]), i, off, data);
    OverSplice(Raw(s, x), pos, data);
  }

  lemma AppendWritten(s: Fs, t: Fs, x: nat, b: nat, off: nat)
    requires Appends(s, t, x, b)
    ensures Written(s, t, x, off, [])
  {
    FileShaped(s, x);
    BytesAppend(File(s.disk, s.dins[x]), Zero());
    PadBlock(Raw(s, x), off);
  }

  lemma PadBlock(b: seq<Byte>, off: nat)
    ensures Over(b, b + Zero(), off, [])
  {
  }

  /** A piece of a block of a file is a piece of its bytes. */
  lemma PieceRead(s: Fs, x: nat, i: nat, b: nat, off: nat, n: nat, pos: nat)
    requires Inv(s) && x in s.dins && i < s.dins[x].blocks && b == Slot(s.disk, s.dins[x], i)
    requires off + n <= BLKSIZE && pos == i * 4096 + off
    ensures 0 < b < |s.disk| && |s.disk[b]| == BLKSIZE && pos + n <= |Raw(s, x)|
    ensures s.disk[b][off..off + n] == Raw(s, x)[pos..pos + n]
  {
    hide Inv;
    DataBlock(s, x, i, b);
    FileShaped(s, x);
    BytesPiece(File(s.disk, s.dins[x]), i, off, n);
  }

  lemma ReadOn(r: seq<Byte>, offset: nat, data: seq<Byte>, piece: seq<Byte>, pos: nat)
    requires pos == offset + |data| && pos + |piece| <= |r| && data == r[offset..pos] && piece == r[pos..pos + |piece|]
    ensures data + piece == r[offset..pos + |piece|]
  {
  }

  /** What a write does to the contents, once the size has been brought up to date. */
  lemma WrittenContents(s: Fs, t: Fs, x: nat, off: nat, data: seq<Byte>)
    requires Written(s, t, x, off, data) && s.dins[x].size <= s.dins[x].blocks * 4096
    requires data != [] || off <= s.dins[x].blocks * 4096
    ensures var n := if off + |data| > s.dins[x].size then off + |data| else s.dins[x].size;
            n <= t.dins[x].blocks * 4096 && Raw(t, x)[..n] == Overlay(Padded(s, x, off), off, data)
  {
    OverlayPrefix(Raw(s, x), Raw(t, x), s.dins[x].size, off, data);
  }

  lemma OverlayPrefix(f: seq<Byte>, g: seq<Byte>, size: nat, off: nat, data: seq<Byte>)
    requires Over(f, g, off, data) && size <= |f| && (data != [] || off <= |f|)
    ensures var n := if off + |data| > size then off + |data| else size;
            n <= |g| && g[..n] == Overlay(PaddedBytes(f, size, off), off, data)
  {
  }

  lemma ResizeInv(s: Fs, t: Fs, x: nat, n: nat)
    requires Inv(s) && x in s.dins && t == s.(dins := s.dins[x := s.dins[x].(size := n)])
    ensures Inv(t)
  {
    forall y, i: nat | y in s.dins && i < NSLOTS
      ensures DinShape(t.disk, t.dins[y]) && Slot(t.disk, t.dins[y], i) == Slot(s.disk, s.dins[y], i)
    {
    }
    forall y | y in t.dins ensures DinShape(t.disk, t.dins[y]) && Owns(t.disk, y, t.dins[y], t.owner) {
      assert Owns(s.disk, y, s.dins[y], s.owner);
    }
    forall k | k in t.owner ensures Named(t.disk, t.dins, k, t.owner[k]) {
      assert Named(s.disk, s.dins, k, s.owner[k]);
    }
  }

  /** Changing the size alone. */
  lemma Resize(s: Fs, x: nat, n: nat)
    requires Inv(s) && x in s.dins
    ensures var t := s.(dins := s.dins[x := s.dins[x].(size := n)]);
            Inv(t) && OthersKept(s, t, x) && Raw(t, x) == Raw(s, x)
  {
    hide Inv;
    var t := s.(dins := s.dins[x := s.dins[x].(size := n)]);
    ResizeInv(s, t, x, n);
    FileShaped(s, x);
    SameBlocks(s.disk, s.dins[x], n);
    forall y | y in s.dins && y != x ensures DinShape(s.disk, s.dins[y]) {
      FileShaped(s, y);
    }
  }

  lemma SameBlocks(disk: Disk, d: Din, n: nat)
    requires DinShape(disk, d)
    ensures DinShape(disk, d.(size := n)) && File(disk, d.(size := n)) == File(disk, d)
  {
    var e := d.(size := n);
    forall i: nat | i < d.blocks ensures Slot(disk, e, i) == Slot(disk, d, i) {
    }
  }

  /** The size brought up to n, as sfs_io_nolock leaves it. */
  ghost function SizedUp(t: Fs, x: nat, n: nat): Fs
    requires x in t.dins
  {
    if n > t.dins[x].size then t.(dins := t.dins[x := t.dins[x].(size := n)]) else t
  }

  ghost predicate Readable(s: Fs, x: nat) {
    Inv(s) && x in s.dins && s.dins[x].size <= s.dins[x].blocks * 4096
  }

  /** The contents of x have changed from those in s to those in t by data written over them at off. */
  ghost predicate Overlaid(s: Fs, t: Fs, x: nat, off: nat, data: seq<Byte>) {
    Readable(s, x) && Readable(t, x) && Contents(t, x) == Overlay(Padded(s, x, off), off, data)
  }

  /** What was written is read back, and the bytes before and behind it are as they were. */
  lemma ReadBack(s: Fs, t: Fs, x: nat, off: nat, data: seq<Byte>)
    requires Overlaid(s, t, x, off, data)
    ensures off + |data| <= t.dins[x].size && Contents(t, x)[off..off + |data|] == data
    ensures off <= s.dins[x].size ==> Contents(t, x)[..off] == Contents(s, x)[..off]
    ensures off + |data| <= s.dins[x].size ==> Contents(t, x)[off + |data|..] == Contents(s, x)[off + |data|..]
  {
    hide Inv, Raw, Contents, Padded;
    assert Contents(t, x) == Overlay(Padded(s, x, off), off, data);
  }

  lemma WriteDone(s: Fs, t: Fs, x: nat, off: nat, data: seq<Byte>)
    requires Written(s, t, x, off, data) && Sized(s.dins) && (data != [] || off <= s.dins[x].blocks * 4096)
    ensures var r := SizedUp(t, x, off + |data|);
            && Inv(r) && OthersKept(s, r, x) && Sized(r.dins) && Overlaid(s, r, x, off, data)
            && r.dins[x].nlinks == s.dins[x].nlinks
  {
    hide Inv, OthersKept, Over, Overlay, File;
    var r := SizedUp(t, x, off + |data|);
    WrittenContents(s, t, x, off, data);
    Resize(t, x, off + |data|);
    OthersSame(t, x);
    OthersTrans(s, t, r, x);
    SizedKept(s, r, x);
  }

  /** Nothing was written, and yet the size is brought up to an offset behind the blocks of the file. */
  lemma WriteStranded(s: Fs, t: Fs, x: nat, off: nat)
    requires Written(s, t, x, off, []) && Sized(s.dins) && t.dins[x].blocks == s.dins[x].blocks
    requires off > s.dins[x].blocks * 4096
    ensures var r := SizedUp(t, x, off);
            Inv(r) && OthersKept(s, r, x) && !Sized(r.dins) && r.dins[x].nlinks == s.dins[x].nlinks
                && r.dins[x].size == off
  {
    hide Inv, OthersKept, Over, File;
    Resize(t, x, off);
    OthersTrans(s, t, SizedUp(t, x, off), x);
    assert x in s.dins;
  }

  lemma SizedKept(s: Fs, t: Fs, x: nat)
    requires Sized(s.dins) && OthersKept(s, t, x) && x in t.dins && t.dins[x].size <= t.dins[x].blocks * 4096
    ensures Sized(t.dins)
  {
  }

  // ---------- truncating ----------

  /** The first n blocks of f, cleared blocks making up the number. */
  ghost function Fit(f: seq<Block>, n: nat): seq<Block> {
    if n <= |f| then f[..n] else f + seq(n - |f|, k => Zero())
  }

  /** File x has got or lost blocks at its end. */
  ghost predicate Reshaped(s: Fs, t: Fs, x: nat) {
    Kept(s, t, x) && File(t.disk, t.dins[x]) == Fit(File(s.disk, s.dins[x]), t.dins[x].blocks)
  }

  lemma FitMore(f: seq<Block>, g: seq<Block>, n: nat)
    requires |f| <= n && g == Fit(f, n)
    ensures g + [Zero()] == Fit(f, n + 1)
  {
  }

  lemma FitLess(f: seq<Block>, g: seq<Block>, n: nat, m: nat)
    requires m <= n <= |f| && g == Fit(f, n)
    ensures g[..m] == Fit(f, m)
  {
  }

  lemma ReshapedNone(s: Fs, x: nat)
    requires Inv(s) && x in s.dins
    ensures Reshaped(s, s, x)
  {
  }

  lemma ReshapedGrow(s: Fs, t: Fs, u: Fs, x: nat, b: nat)
    requires Reshaped(s, t, x) && s.dins[x].blocks <= t.dins[x].blocks && Appends(t, u, x, b)
    ensures Reshaped(s, u, x)
  {
    hide Inv, OthersKept, Fit;
    OthersTrans(s, t, u, x);
    FileShaped(s, x);
    FileShaped(t, x);
    FitMore(File(s.disk, s.dins[x]), File(t.disk, t.dins[x]), t.dins[x].blocks);
  }

  lemma ReshapedStall(s: Fs, t: Fs, u: Fs, x: nat)
    requires Reshaped(s, t, x) && Unspent(t, u)
    ensures Reshaped(s, u, x)
  {
    UnspentInv(t, u);
    OthersTrans(s, t, u, x);
  }

  /** What is left of the contents when a file is given n blocks and then size len. */
  lemma ReshapedContents(s: Fs, t: Fs, x: nat, len: nat)
    requires Reshaped(s, t, x) && s.dins[x].size <= s.dins[x].blocks * 4096 && len <= t.dins[x].blocks * 4096
    ensures var m := if len < s.dins[x].size then len else s.dins[x].size;
            m <= t.dins[x].blocks * 4096 && Raw(t, x)[..m] == Contents(s, x)[..m]
  {
    hide Inv, OthersKept, File, Fit, Bytes;
    var m := if len < s.dins[x].size then len else s.dins[x].size;
    FileShaped(s, x);
    FileShaped(t, x);
    FileSize(s, x);
    FileSize(t, x);
    RawContents(s, x, m);
    FitBytes(File(s.disk, s.dins[x]), File(t.disk, t.dins[x]), t.dins[x].blocks, m);
  }

  lemma FileSize(s: Fs, x: nat)
    requires Inv(s) && x in s.dins
    ensures DinShape(s.disk, s.dins[x]) && |File(s.disk, s.dins[x])| == s.dins[x].blocks
  {
  }

  lemma RawContents(s: Fs, x: nat, m: nat)
    requires Inv(s) && x in s.dins && m <= s.dins[x].size <= s.dins[x].blocks * 4096
    ensures Contents(s, x)[..m] == Raw(s, x)[..m]
  {
  }

  lemma FitBytes(f: seq<Block>, g: seq<Block>, n: nat, m: nat)
    requires Shaped(f) && Shaped(g) && g == Fit(f, n) && m <= |f| * 4096 && m <= n * 4096
    ensures Bytes(g)[..m] == Bytes(f)[..m]
  {
    var l, r := Bytes(g)[..m], Bytes(f)[..m];
    forall p | 0 <= p < m ensures l[p] == r[p] {
      assert p / 4096 < |f| && p / 4096 < n;
    }
  }

  lemma TruncDone(s: Fs, t: Fs, x: nat, len: nat)
    requires Reshaped(s, t, x) && Sized(s.dins) && len <= t.dins[x].blocks * 4096
    ensures var r := t.(dins := t.dins[x := t.dins[x].(size := len)]);
            && Inv(r) && OthersKept(s, r, x) && Sized(r.dins)
            && var m := if len < s.dins[x].size then len else s.dins[x].size; Contents(r, x)[..m] == Contents(s, x)[..m]
  {
    hide Inv, OthersKept, File, Fit, Bytes;
    var r := t.(dins := t.dins[x := t.dins[x].(size := len)]);
    Resize(t, x, len);
    OthersTrans(s, t, r, x);
    SizedKept(s, r, x);
    ReshapedContents(s, t, x, len);
    RawContents(r, x, if len < s.dins[x].size then len else s.dins[x].size);
  }

  lemma TruncFailed(s: Fs, t: Fs, x: nat)
    requires Reshaped(s, t, x) && Sized(s.dins) && s.dins[x].blocks <= t.dins[x].blocks
    ensures Sized(t.dins) && Contents(t, x) == Contents(s, x)
  {
    hide Inv, OthersKept, File, Fit, Bytes;
    SizedKept(s, t, x);
    ReshapedContents(s, t, x, s.dins[x].size);
    assert Contents(s, x)[..s.dins[x].size] == Contents(s, x);
  }

  /** The blocks used in o and not in p are those of file x from block n on. */
  ghost predicate GaveUp(o: map<nat, Use>, p: map<nat, Use>, x: nat, n: nat) {
    && (forall k :: k in p ==> k in o && p[k] == o[k])
    && (forall k :: k in o ==> (k in p <==> !(o[k].Data? && o[k].ino == x && o[k].i >= n)))
  }

  ghost predicate Shrunk(s: Fs, t: Fs, x: nat) {
    && Reshaped(s, t, x) && t.dins[x].blocks <= s.dins[x].blocks && t.dins[x].indirect == s.dins[x].indirect
    && GaveUp(s.owner, t.owner, x, t.dins[x].blocks)
  }

  lemma ShrunkNone(s: Fs, x: nat)
    requires Inv(s) && x in s.dins
    ensures Shrunk(s, s, x)
  {
    forall k | k in s.owner && s.owner[k].Data? && s.owner[k].ino == x ensures s.owner[k].i < s.dins[x].blocks {
      assert Named(s.disk, s.dins, k, s.owner[k]);
    }
  }

  lemma GaveUpMore(s: Fs, t: Fs, u: Fs, x: nat)
    requires Kept(s, t, x) && GaveUp(s.owner, t.owner, x, t.dins[x].blocks) && Drops(t, u, x)
    ensures GaveUp(s.owner, u.owner, x, u.dins[x].blocks)
  {
    hide Inv, OthersKept, File;
    FileShaped(t, x);
    var b := Slot(t.disk, t.dins[x], u.dins[x].blocks);
    LastOwned(t, x, b);
    forall k | k in t.owner && t.owner[k].Data? && t.owner[k].ino == x
      ensures t.owner[k].i < t.dins[x].blocks && (t.owner[k].i == u.dins[x].blocks ==> k == b)
    {
      DataAt(t, x, k);
    }
  }

  lemma DataAt(s: Fs, x: nat, k: nat)
    requires Inv(s) && k in s.owner && s.owner[k].Data? && s.owner[k].ino == x
    ensures x in s.dins && DinShape(s.disk, s.dins[x])
    ensures s.owner[k].i < s.dins[x].blocks && Slot(s.disk, s.dins[x], s.owner[k].i) == k
  {
    assert Named(s.disk, s.dins, k, s.owner[k]);
  }

  lemma ShrunkMore(s: Fs, t: Fs, u: Fs, x: nat)
    requires Shrunk(s, t, x) && Drops(t, u, x)
    ensures Shrunk(s, u, x)
  {
    hide Inv, OthersKept, Fit, GaveUp;
    OthersTrans(s, t, u, x);
    FileShaped(s, x);
    FileShaped(t, x);
    FitLess(File(s.disk, s.dins[x]), File(t.disk, t.dins[x]), t.dins[x].blocks, u.dins[x].blocks);
    GaveUpMore(s, t, u, x);
  }

  // ---------- what growing costs ----------

  /** The free blocks it takes to give a file one more block. */
  function Need(d: Din): nat {
    if d.blocks >= NDIRECT && d.indirect == 0 then 2 else 1
  }

  /** The free blocks it takes to give a file n blocks. */
  function Cost(d: Din, n: nat): nat
    requires d.blocks <= n
  {
    n - d.blocks + if n > NDIRECT && d.indirect == 0 then 1 else 0
  }

  /** A file has grown from d to e, and the free blocks have dropped from u to v by what that costs. */
  ghost predicate Spent(d: Din, e: Din, u: nat, v: nat) {
    && d.blocks <= e.blocks && u == v + Cost(d, e.blocks)
    && (e.indirect == 0 <==> d.indirect == 0 && e.blocks <= NDIRECT)
  }

  lemma SpentNone(disk: Disk, d: Din, u: nat)
    requires DinShape(disk, d)
    ensures Spent(d, d, u, u)
  {
  }

  lemma SpentSized(d: Din, e: Din, u: nat, v: nat, n: nat)
    requires Spent(d, e, u, v)
    ensures Spent(d, e.(size := n), u, v)
  {
  }

  lemma SpentTwice(d: Din, e: Din, f: Din, u: nat, v: nat, w: nat)
    requires Spent(d, e, u, v) && Spent(e, f, v, w)
    ensures Spent(d, f, u, w)
  {
  }

  lemma SpentAppend(s: Fs, t: Fs, x: nat, b: nat, u: nat)
    requires Appends(s, t, x, b) && u >= Need(s.dins[x])
    ensures Spent(s.dins[x], t.dins[x], u, u - Need(s.dins[x]))
  {
  }

  function Ceil(n: nat): nat {
    (n + BLKSIZE - 1) / BLKSIZE
  }

  lemma CeilIs(n: nat)
    ensures Ceil(n) == n / 4096 + if n % 4096 == 0 then 0 else 1
  {
  }

  /** A file has grown from d to e just so as to hold n bytes at offset. */
  ghost predicate Tight(d: Din, e: Din, offset: nat, n: nat) {
    e.blocks == if n == 0 || Ceil(offset + n) <= d.blocks then d.blocks else Ceil(offset + n)
  }

  /** With u blocks free, a file can be given n blocks. */
  ghost predicate Affordable(d: Din, u: nat, n: nat) {
    n <= d.blocks || Cost(d, n) <= u
  }
}
