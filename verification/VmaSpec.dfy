/** The address space of a process as a list of regions (kern/mm/vmm.c). */
module VmaSpec {
  const USERBASE := 0x0020_0000
  const USERTOP := 0xB000_0000

  const VM_READ: bv32 := 1
  const VM_WRITE: bv32 := 2
  const VM_STACK: bv32 := 8

  datatype Option = None | Some(flags: bv32)

  datatype Region = Region(start: nat, end: nat, flags: bv32)

  ghost predicate In(r: Region, a: nat) {
    r.start <= a < r.end
  }

  ghost predicate Proper(r: Region) {
    r.start < r.end <= USERTOP && r.start % 4096 == 0 && r.end % 4096 == 0
  }

  /** Regions of whole pages in order of address, none overlapping another. */
  ghost predicate Good(v: seq<Region>) {
    && (forall i :: 0 <= i < |v| ==> Proper(v[i]))
    && (forall i, j :: 0 <= i < j < |v| ==> v[i].end <= v[j].start)
  }

  /** What is mapped at an address. */
  ghost function Lookup(v: seq<Region>, a: nat): Option {
    if v == [] then None else if In(v[0], a) then Some(v[0].flags) else Lookup(v[1..], a)
  }

  lemma {:induction false} LookupAt(v: seq<Region>, a: nat, i: nat)
    requires i < |v| && In(v[i], a) && forall j :: 0 <= j < i ==> !In(v[j], a)
    ensures Lookup(v, a) == Some(v[i].flags)
  {
    if i > 0 { LookupAt(v[1..], a, i - 1); }
  }

  lemma {:induction false} LookupNone(v: seq<Region>, a: nat)
    ensures Lookup(v, a) == None <==> forall j :: 0 <= j < |v| ==> !In(v[j], a)
  {
    if v != [] {
      LookupNone(v[1..], a);
      assert forall j :: 1 <= j < |v| ==> v[1..][j - 1] == v[j];
    }
  }

  lemma {:induction false} LookupConcat(u: seq<Region>, v: seq<Region>, a: nat)
    ensures Lookup(u + v, a) == if Lookup(u, a) == None then Lookup(v, a) else Lookup(u, a)
  {
    if u == [] {
      assert u + v == v;
    } else {
      LookupConcat(u[1..], v, a);
      assert (u + v)[1..] == u[1..] + v;
    }
  }

  lemma LookupOne(r: Region, a: nat)
    ensures Lookup([r], a) == if In(r, a) then Some(r.flags) else None
  {
    assert [r][1..] == [];
  }

  // ---------- ranges of a call ----------

  function RoundDown(a: nat): nat {
    a - a % 4096
  }

  /** In 32 bits, so that the top page rounds up to 0. */
  function RoundUp(a: nat): nat {
    RoundDown((a + 4095) % 0x1_0000_0000)
  }

  /** The pages that a call with addr and len is about. */
  function First(addr: nat): nat {
    RoundDown(addr)
  }

  function Last(addr: nat, len: nat): nat {
    RoundUp((addr + len) % 0x1_0000_0000)
  }

  lemma Pages(addr: nat, len: nat)
    ensures First(addr) % 4096 == 0 && Last(addr, len) % 4096 == 0
  {
  }

  lemma Small(a: nat)
    requires a < 0x1_0000_0000
    ensures a % 0x1_0000_0000 == a
  {
  }

  lemma TopOfPage(e: nat)
    requires e % 4096 == 0
    ensures (e + 4095) % 4096 == 4095
  {
  }

  lemma RoundUpWhole(e: nat)
    requires e % 4096 == 0 && e + 4095 < 0x1_0000_0000
    ensures RoundUp(e) == e
  {
    Small(e + 4095);
    TopOfPage(e);
  }

  lemma WholePages(s: nat, e: nat)
    requires UserAccess(s, e) && s % 4096 == 0 && e % 4096 == 0
    ensures First(s) == s && Last(s, e - s) == e
  {
    hide RoundUp;
    RoundUpWhole(e);
    Small(s + (e - s));
  }

  predicate UserAccess(start: nat, end: nat) {
    USERBASE <= start < end <= USERTOP
  }

  // ---------- the same ranges by the bytes asked for ----------

  function Page(a: nat): nat {
    a / 4096
  }

  /** The page of a holds the first byte of the call or, if the call does not pass the end of memory, another of its
      bytes. */
  ghost predicate Touches(addr: nat, len: nat, a: nat) {
    || Page(a) == Page(addr)
    || (addr + len < 0x1_0000_0000 && exists b: nat :: addr <= b < addr + len && Page(b) == Page(a))
  }

  /** A call is let through if its bytes are user memory and it is about at least one page; if it passes the end of
      memory, just when it comes round to the page it began in, behind the first byte of that page. */
  predicate Accepts(addr: nat, len: nat) {
    if addr + len < 0x1_0000_0000
      then 0x20_0000 <= addr && addr + len <= 0xB000_0000 && (len > 0 || addr % 4096 != 0)
      else 0x20_0000 <= addr < 0xB000_0000 && len > 0x1_0000_0000 - addr % 4096
  }

  /** The range of a call that stays below the last page holds its bytes, and no page more than it has to. */
  lemma LeastPages(addr: nat, len: nat)
    requires addr + len + 4095 < 0x1_0000_0000
    ensures First(addr) <= addr && addr + len <= Last(addr, len)
    ensures addr - First(addr) < 4096 && Last(addr, len) - (addr + len) < 4096
  {
    Small(addr + len);
    Small(addr + len + 4095);
  }

  /** In the last page the end comes out as 0. */
  lemma LastPage(addr: nat, len: nat)
    requires addr + len < 0x1_0000_0000 <= addr + len + 4095
    ensures Last(addr, len) == 0
  {
    Small(addr + len);
  }

  /** Past the end of memory the range is the page of the address or nothing. */
  lemma ComesRound(addr: nat, len: nat)
    requires addr < 0x1_0000_0000 && len < 0x1_0000_0000 <= addr + len && addr < 0xB000_0000
    ensures if len > 0x1_0000_0000 - addr % 4096 then Last(addr, len) == First(addr) + 4096
              else Last(addr, len) <= First(addr)
  {
    var e := addr + len - 0x1_0000_0000;
    assert (addr + len) % 0x1_0000_0000 == e;
    Small(e + 4095);
  }

  lemma AcceptsExactly(addr: nat, len: nat)
    requires addr < 0x1_0000_0000 && len < 0x1_0000_0000
    ensures UserAccess(First(addr), Last(addr, len)) <==> Accepts(addr, len)
  {
    hide Last;
    if addr + len + 4095 < 0x1_0000_0000 {
      LeastPages(addr, len);
      Pages(addr, len);
    } else if addr + len < 0x1_0000_0000 {
      LastPage(addr, len);
    } else if addr < 0xB000_0000 {
      ComesRound(addr, len);
    }
  }

  lemma TouchesExactly(addr: nat, len: nat, a: nat)
    requires addr < 0x1_0000_0000 && len < 0x1_0000_0000 && UserAccess(First(addr), Last(addr, len))
    ensures First(addr) <= a < Last(addr, len) <==> Touches(addr, len, a)
  {
    hide Last;
    if addr + len + 4095 < 0x1_0000_0000 {
      LeastPages(addr, len);
      Pages(addr, len);
      if First(addr) <= a < Last(addr, len) && Page(a) != Page(addr) {
        var b := a - a % 4096;
        assert Page(b) == Page(a);
      }
    } else if addr + len < 0x1_0000_0000 {
      LastPage(addr, len);
    } else {
      ComesRound(addr, len);
    }
  }

  /** w is v with x at the pages of a call, and nothing else changed. */
  ghost predicate Puts(v: seq<Region>, w: seq<Region>, addr: nat, len: nat, x: Option) {
    forall a: nat :: Lookup(w, a) == if Touches(addr, len, a) then x else Lookup(v, a)
  }

  lemma PutsExactly(v: seq<Region>, w: seq<Region>, addr: nat, len: nat, x: Option)
    requires addr < 0x1_0000_0000 && len < 0x1_0000_0000 && UserAccess(First(addr), Last(addr, len))
    requires forall a: nat :: Lookup(w, a) == if First(addr) <= a < Last(addr, len) then x else Lookup(v, a)
    ensures Puts(v, w, addr, len, x)
  {
    hide First, Last, Lookup, Touches;
    forall a: nat ensures Lookup(w, a) == if Touches(addr, len, a) then x else Lookup(v, a) {
      TouchesExactly(addr, len, a);
    }
  }

  /** So every byte asked for has x. */
  lemma PutsBytes(v: seq<Region>, w: seq<Region>, addr: nat, len: nat, x: Option, a: nat)
    requires Puts(v, w, addr, len, x) && addr <= a < addr + len < 0x1_0000_0000
    ensures Lookup(w, a) == x
  {
    assert Touches(addr, len, a);
  }

  lemma MappedByPage(v: seq<Region>, a: nat)
    requires Good(v)
    ensures Mapped(v, First(a)) <==> Mapped(v, a)
  {
    hide Proper, First, Lookup, In;
    LookupNone(v, a);
    LookupNone(v, First(a));
    forall i | 0 <= i < |v| ensures In(v[i], First(a)) <==> In(v[i], a) {
      InByPage(v[i], a);
    }
  }

  lemma InByPage(r: Region, a: nat)
    requires Proper(r)
    ensures In(r, First(a)) <==> In(r, a)
  {
  }

  /** An access to a byte of a region: the first page of a stack is not to be written. */
  ghost predicate Allows(r: Region, a: nat, write: bool) {
    && r.flags & (if write then 2 else 1) != 0
    && (write && r.flags & 8 != 0 ==> r.start + 4096 <= a)
  }

  ghost predicate Accessible(v: seq<Region>, a: nat, write: bool) {
    exists i :: 0 <= i < |v| && In(v[i], a) && Allows(v[i], a, write)
  }

  lemma OneRegion(v: seq<Region>, i: nat, a: nat, write: bool)
    requires Good(v) && i < |v| && In(v[i], a)
    ensures Accessible(v, a, write) <==> Allows(v[i], a, write)
  {
    if Accessible(v, a, write) {
      var j :| 0 <= j < |v| && In(v[j], a) && Allows(v[j], a, write);
      SameRegion(v, i, j, a);
    }
  }

  lemma SameRegion(v: seq<Region>, i: nat, j: nat, a: nat)
    requires Good(v) && i < |v| && j < |v| && In(v[i], a) && In(v[j], a)
    ensures i == j
  {
  }

  // ---------- inserting a region ----------

  ghost predicate Disjoint(r: Region, s: Region) {
    r.end <= s.start || s.end <= r.start
  }

  ghost predicate Room(v: seq<Region>, r: Region) {
    forall i :: 0 <= i < |v| ==> Disjoint(v[i], r)
  }

  ghost function With(v: seq<Region>, k: nat, r: Region): seq<Region>
    requires k <= |v|
  {
    v[..k] + [r] + v[k..]
  }

  ghost function Without(v: seq<Region>, k: nat): seq<Region>
    requires k < |v|
  {
    v[..k] + v[k + 1..]
  }

  /** The neighbours decide: those in front start no later than r, those behind start after it. */
  lemma NeighboursDecide(v: seq<Region>, r: Region, k: nat)
    requires Good(v) && r.start < r.end && k <= |v|
    requires (forall i :: 0 <= i < k ==> v[i].start <= r.start) && (k < |v| ==> r.start < v[k].start)
    ensures Room(v, r) <==> (k > 0 ==> v[k - 1].end <= r.start) && (k < |v| ==> r.end <= v[k].start)
  {
    if (k > 0 ==> v[k - 1].end <= r.start) && (k < |v| ==> r.end <= v[k].start) {
      forall i: nat | i < |v| ensures Disjoint(v[i], r) {
        assert i < k - 1 ==> v[i].end <= v[k - 1].start;
        assert k < i ==> v[k].end <= v[i].start;
      }
    }
    if Room(v, r) {
      assert k > 0 ==> Disjoint(v[k - 1], r) && Proper(v[k - 1]);
      assert k < |v| ==> Disjoint(v[k], r) && Proper(v[k]);
    }
  }

  lemma WithGood(v: seq<Region>, k: nat, r: Region)
    requires Good(v) && r.start < r.end && k <= |v| && (k > 0 ==> v[k - 1].end <= r.start)
    requires (k < |v| ==> r.end <= v[k].start)
    ensures Good(With(v, k, r)) <==> Proper(r)
  {
    var w := With(v, k, r);
    assert w[k] == r;
    forall i: nat | i < |v| ensures if i < k then v[i].end <= r.start else r.end <= v[i].start {
      assert Proper(v[i]) && (k > 0 ==> Proper(v[k - 1]));
      assert i < k - 1 ==> v[i].end <= v[k - 1].start;
      assert k < i ==> v[k].end <= v[i].start;
    }
    forall i: nat | i < |w| ensures w[i] == if i < k then v[i] else if i == k then r else v[i - 1] {
    }
  }

  lemma WithoutGood(v: seq<Region>, k: nat)
    requires Good(v) && k < |v|
    ensures Good(Without(v, k))
  {
    var w := Without(v, k);
    assert forall i :: 0 <= i < |w| ==> w[i] == v[if i < k then i else i + 1];
  }

  lemma WithLookup(v: seq<Region>, k: nat, r: Region, a: nat)
    requires k <= |v| && (In(r, a) ==> Lookup(v, a) == None)
    ensures Lookup(With(v, k, r), a) == if In(r, a) then Some(r.flags) else Lookup(v, a)
  {
    LookupConcat(v[..k] + [r], v[k..], a);
    LookupConcat(v[..k], [r], a);
    LookupOne(r, a);
    LookupConcat(v[..k], v[k..], a);
    assert v == v[..k] + v[k..];
  }

  lemma RoomMeansFree(v: seq<Region>, r: Region, a: nat)
    requires Room(v, r) && In(r, a)
    ensures Lookup(v, a) == None
  {
    LookupNone(v, a);
    forall j: nat | j < |v| ensures !In(v[j], a) {
      assert Disjoint(v[j], r);
    }
  }

  lemma FreeMeansRoom(v: seq<Region>, r: Region)
    requires Good(v) && r.start < r.end && forall a: nat :: In(r, a) ==> Lookup(v, a) == None
    ensures Room(v, r)
  {
    forall i: nat | i < |v| ensures Disjoint(v[i], r) {
      var a := if v[i].start < r.start then r.start else v[i].start;
      LookupNone(v, a);
      assert Proper(v[i]) && (In(r, a) ==> !In(v[i], a));
    }
  }

  /** A region can grow just when there is room for what it is to gain. */
  lemma ExtendGood(v: seq<Region>, i: nat, e: nat)
    requires Good(v) && i < |v| && v[i].end < e <= USERTOP && e % 4096 == 0
    ensures Good(v[i := Region(v[i].start, e, v[i].flags)]) <==> Room(v, Region(v[i].end, e, v[i].flags))
  {
    var w, r := v[i := Region(v[i].start, e, v[i].flags)], Region(v[i].end, e, v[i].flags);
    assert Proper(v[i]);
    if Room(v, r) {
      forall a, b | 0 <= a < b < |w| ensures w[a].end <= w[b].start {
        assert v[a].end <= v[b].start && Disjoint(v[b], r) && Proper(v[b]);
      }
    } else {
      var j :| 0 <= j < |v| && !Disjoint(v[j], r);
      assert Proper(v[j]);
      assert i < j;
      assert w[i].end > w[j].start;
    }
  }

  lemma ExtendLookup(v: seq<Region>, i: nat, e: nat, a: nat)
    requires Good(v) && i < |v| && v[i].end < e && Room(v, Region(v[i].end, e, v[i].flags))
    ensures Lookup(v[i := Region(v[i].start, e, v[i].flags)], a) == if v[i].end <= a < e then Some(v[i].flags)
              else Lookup(v, a)
  {
    var g, r := Region(v[i].start, e, v[i].flags), Region(v[i].end, e, v[i].flags);
    var w := v[i := g];
    assert w == v[..i] + [g] + v[i + 1..] && v == v[..i] + [v[i]] + v[i + 1..];
    LookupConcat(v[..i] + [g], v[i + 1..], a);
    LookupConcat(v[..i], [g], a);
    LookupConcat(v[..i] + [v[i]], v[i + 1..], a);
    LookupConcat(v[..i], [v[i]], a);
    LookupOne(g, a);
    LookupOne(v[i], a);
    if In(r, a) {
      RoomMeansFree(v, r, a);
    }
    assert Proper(v[i]);
  }

  // ---------- cutting a range out ----------

  /** What is left of a region when [s, e) is cut out. */
  ghost function Pieces(r: Region, s: nat, e: nat): seq<Region> {
    if r.end <= s || e <= r.start then [r]
    else
      (if r.start < s then [Region(r.start, s, r.flags)] else []) +
      (if e < r.end then [Region(e, r.end, r.flags)] else [])
  }

  ghost function Cut(v: seq<Region>, s: nat, e: nat): seq<Region> {
    if v == [] then [] else Pieces(v[0], s, e) + Cut(v[1..], s, e)
  }

  lemma PiecesLookup(r: Region, s: nat, e: nat, a: nat)
    requires s < e && r.start < r.end
    ensures Lookup(Pieces(r, s, e), a) == if In(r, a) && !(s <= a < e) then Some(r.flags) else None
  {
    var p := Pieces(r, s, e);
    LookupOne(r, a);
    LookupOne(Region(r.start, s, r.flags), a);
    LookupOne(Region(e, r.end, r.flags), a);
    if !(r.end <= s || e <= r.start) && r.start < s && e < r.end {
      LookupConcat([Region(r.start, s, r.flags)], [Region(e, r.end, r.flags)], a);
    }
  }

  /** Cutting removes exactly the mappings in [s, e). */
  lemma {:induction false} CutLookup(v: seq<Region>, s: nat, e: nat, a: nat)
    requires s < e && forall i :: 0 <= i < |v| ==> v[i].start < v[i].end
    ensures Lookup(Cut(v, s, e), a) == if s <= a < e then None else Lookup(v, a)
  {
    if v != [] {
      CutLookup(v[1..], s, e, a);
      PiecesLookup(v[0], s, e, a);
      LookupConcat(Pieces(v[0], s, e), Cut(v[1..], s, e), a);
    }
  }

  lemma Associate(a: seq<Region>, b: seq<Region>, c: seq<Region>)
    ensures a + (b + c) == a + b + c
  {
  }

  lemma {:induction false} CutConcat(u: seq<Region>, v: seq<Region>, s: nat, e: nat)
    ensures Cut(u + v, s, e) == Cut(u, s, e) + Cut(v, s, e)
  {
    hide Pieces;
    if u == [] {
      assert u + v == v && Cut(u, s, e) == [];
    } else {
      CutConcat(u[1..], v, s, e);
      assert (u + v)[0] == u[0] && (u + v)[1..] == u[1..] + v;
      Associate(Pieces(u[0], s, e), Cut(u[1..], s, e), Cut(v, s, e));
    }
  }

  lemma {:induction false} CutNothing(v: seq<Region>, s: nat, e: nat)
    requires forall i :: 0 <= i < |v| ==> v[i].end <= s || e <= v[i].start
    ensures Cut(v, s, e) == v
  {
    if v != [] { CutNothing(v[1..], s, e); }
  }

  /** Regions that end before the range or start behind it stay. */
  lemma CutMid(v: seq<Region>, i: nat, j: nat, s: nat, e: nat)
    requires i <= j <= |v| && (forall k :: 0 <= k < i ==> v[k].end <= s)
    requires (forall k :: j <= k < |v| ==> e <= v[k].start)
    ensures Cut(v, s, e) == v[..i] + Cut(v[i..j], s, e) + v[j..]
  {
    assert v == v[..i] + v[i..j] + v[j..];
    CutConcat(v[..i] + v[i..j], v[j..], s, e);
    CutConcat(v[..i], v[i..j], s, e);
    CutNothing(v[..i], s, e);
    CutNothing(v[j..], s, e);
  }

  lemma {:induction false} CutBounds(v: seq<Region>, lo: nat, s: nat, e: nat)
    requires forall i :: 0 <= i < |v| ==> lo <= v[i].start
    ensures forall i :: 0 <= i < |Cut(v, s, e)| ==> lo <= Cut(v, s, e)[i].start
  {
    if v != [] { CutBounds(v[1..], lo, s, e); }
  }

  /** The regions of v, with [s, e) cut out of those from n to j, and those from i to n left out. */
  ghost function Partly(v: seq<Region>, i: nat, n: nat, j: nat, s: nat, e: nat): seq<Region>
    requires i <= n <= j <= |v|
  {
    v[..i] + Cut(v[n..j], s, e) + v[j..]
  }

  /** Region n - 1 is next to be cut: its piece goes in at i, where there is room. */
  lemma PartlyRoom(v: seq<Region>, i: nat, n: nat, j: nat, s: nat, e: nat, piece: Region)
    requires Good(v) && i < n <= j <= |v| && v[n - 1].start <= piece.start < piece.end <= v[n - 1].end
    ensures var u := Partly(v, i, n, j, s, e);
            && Room(u, piece) && i <= |u| && (forall k :: 0 <= k < i ==> u[k].start < piece.start)
            && (i < |u| ==> piece.start < u[i].start)
  {
    var u := Partly(v, i, n, j, s, e);
    CutBounds(v[n..j], v[n - 1].end, s, e);
    forall k: nat | k < |u|
        ensures if k < i then u[k].start < piece.start && u[k].end <= piece.start else piece.end <= u[k].start {
      if k < i {
        assert u[k] == v[k] && v[k].end <= v[n - 1].start && Proper(v[k]);
      } else if k >= i + |Cut(v[n..j], s, e)| {
        assert u[k] == v[k - i - |Cut(v[n..j], s, e)| + j];
      } else {
        assert u[k] == Cut(v[n..j], s, e)[k - i];
      }
    }
  }

  lemma Regroup(a: seq<Region>, p: seq<Region>, c: seq<Region>, z: seq<Region>)
    ensures a + (p + c) + z == a + p + (c + z) && (a + c + z)[..|a|] == a && (a + c + z)[|a|..] == c + z
    ensures a + ([] + c) + z == a + c + z
  {
  }

  lemma PartlyStep(v: seq<Region>, i: nat, n: nat, j: nat, s: nat, e: nat)
    requires i < n <= j <= |v|
    ensures Pieces(v[n - 1], s, e) == [] ==> Partly(v, i, n - 1, j, s, e) == Partly(v, i, n, j, s, e)
    ensures |Pieces(v[n - 1], s, e)| == 1 ==>
              Partly(v, i, n - 1, j, s, e) == With(Partly(v, i, n, j, s, e), i, Pieces(v[n - 1], s, e)[0])
  {
    assert v[n - 1..j][1..] == v[n..j];
    var p := Pieces(v[n - 1], s, e);
    Regroup(v[..i], p, Cut(v[n..j], s, e), v[j..]);
    if |p| == 1 { assert p == [p[0]]; }
  }

  /** Cutting a hole into one region. */
  lemma CutHole(v: seq<Region>, i: nat, s: nat, e: nat)
    requires Good(v) && i < |v| && v[i].start < s < e < v[i].end
    ensures Cut(v, s, e) == With(v[i := Region(e, v[i].end, v[i].flags)], i, Region(v[i].start, s, v[i].flags))
  {
    hide Cut, With;
    forall k: nat | k < i ensures v[k].end <= s {
      assert v[k].end <= v[i].start;
    }
    CutMid(v, i, i + 1, s, e);
    CutOne(v[i], s, e);
    assert v[i..i + 1] == [v[i]];
    WithAt(v, i, Region(v[i].start, s, v[i].flags), Region(e, v[i].end, v[i].flags));
  }

  lemma CutOne(r: Region, s: nat, e: nat)
    requires r.start < s < e < r.end
    ensures Cut([r], s, e) == [Region(r.start, s, r.flags), Region(e, r.end, r.flags)]
  {
    assert [r][1..] == [];
  }

  lemma WithAt(v: seq<Region>, i: nat, l: Region, r: Region)
    requires i < |v|
    ensures With(v[i := r], i, l) == v[..i] + [l, r] + v[i + 1..]
  {
  }

  lemma ShrinkGood(v: seq<Region>, i: nat, r: Region)
    requires Good(v) && i < |v| && Proper(r) && v[i].start <= r.start && r.end <= v[i].end
    ensures Good(v[i := r])
  {
    var w := v[i := r];
    forall a, b | 0 <= a < b < |w| ensures w[a].end <= w[b].start {
      assert v[a].end <= v[b].start;
    }
  }

  lemma HoleRoom(v: seq<Region>, i: nat, s: nat, e: nat)
    requires Good(v) && i < |v| && v[i].start < s < e < v[i].end && e % 4096 == 0
    ensures var w := v[i := Region(e, v[i].end, v[i].flags)];
            Room(w, Region(v[i].start, s, v[i].flags)) && forall k :: 0 <= k < i ==> w[k].start < v[i].start
  {
    forall k: nat | k < |v| && k != i
        ensures Disjoint(v[k], Region(v[i].start, s, v[i].flags)) && (k < i ==> v[k].start < v[i].start) {
      assert k < i ==> v[k].end <= v[i].start && Proper(v[k]);
      assert i < k ==> v[i].end <= v[k].start;
    }
  }

  // ---------- what mm_unmap does ----------

  ghost predicate Mapped(v: seq<Region>, a: nat) {
    Lookup(v, a) != None
  }

  /** mm_unmap acts only when something is mapped at the start of the range. */
  ghost function Unmapped(v: seq<Region>, s: nat, e: nat): seq<Region> {
    if Mapped(v, s) then Cut(v, s, e) else v
  }

  /** A range of addresses. */
  datatype Range = Range(start: nat, end: nat)

  ghost predicate Hit(gone: seq<Range>, a: nat) {
    exists x :: 0 <= x < |gone| && gone[x].start <= a < gone[x].end
  }

  /** The part of a region in [s, e). */
  ghost function Clip(r: Region, s: nat, e: nat): Range {
    Range(if r.start < s then s else r.start, if e < r.end then e else r.end)
  }

  ghost predicate Inner(r: Range, s: nat, e: nat) {
    s <= r.start < r.end <= e && r.start % 4096 == 0 && r.end % 4096 == 0
  }

  /** The ranges whose pages mm_unmap gives up hold all that was mapped in [s, e) and nothing else. */
  ghost predicate GivesUp(gone: seq<Range>, v: seq<Region>, s: nat, e: nat) {
    && (forall x :: 0 <= x < |gone| ==> Inner(gone[x], s, e))
    && forall a: nat :: Hit(gone, a) <==> Mapped(v, s) && s <= a < e && Mapped(v, a)
  }

  /** u is v with exactly the mappings in [s, e) gone. */
  ghost predicate Removes(v: seq<Region>, u: seq<Region>, s: nat, e: nat) {
    forall a: nat :: Lookup(u, a) == if s <= a < e then None else Lookup(v, a)
  }

  /** So it removes the range, and nothing else, just when the start is mapped or nothing in the range is. */
  lemma UnmapExact(v: seq<Region>, s: nat, e: nat)
    requires Good(v) && s < e
    ensures Removes(v, Unmapped(v, s, e), s, e) <==> Mapped(v, s) || forall a: nat :: s <= a < e ==> !Mapped(v, a)
  {
    if Mapped(v, s) {
      forall a: nat ensures Lookup(Unmapped(v, s, e), a) == if s <= a < e then None else Lookup(v, a) {
        CutLookup(v, s, e, a);
      }
    } else {
      if forall a: nat :: s <= a < e ==> !Mapped(v, a) {
        forall a: nat ensures Lookup(v, a) == if s <= a < e then None else Lookup(v, a) {
          assert s <= a < e ==> !Mapped(v, a);
        }
      }
      if Removes(v, v, s, e) {
        forall a: nat | s <= a < e ensures !Mapped(v, a) {
        }
      }
    }
  }

  /** By the bytes of a call. */
  lemma UnmapPuts(v: seq<Region>, addr: nat, len: nat)
    requires Good(v) && addr < 0x1_0000_0000 && len < 0x1_0000_0000 && UserAccess(First(addr), Last(addr, len))
    ensures Mapped(v, addr) ==> Puts(v, Unmapped(v, First(addr), Last(addr, len)), addr, len, None)
  {
    hide Good, First, Last, Unmapped, Puts, Lookup;
    MappedByPage(v, addr);
    if Mapped(v, addr) {
      UnmapExact(v, First(addr), Last(addr, len));
      PutsExactly(v, Unmapped(v, First(addr), Last(addr, len)), addr, len, None);
    }
  }

  /** A hole in front of a mapping hides it from mm_unmap. */
  lemma UnmapMisses()
    ensures var v := [Region(0x80_1000, 0x80_2000, 3)];
            Good(v) && Mapped(v, 0x80_1000) && Unmapped(v, 0x80_0000, 0x80_2000) == v
  {
    LookupOne(Region(0x80_1000, 0x80_2000, 3), 0x80_1000);
    LookupOne(Region(0x80_1000, 0x80_2000, 3), 0x80_0000);
  }
}
