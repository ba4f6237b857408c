/** The areas of a process together with its page tables (kern/mm/vmm.c, kern/mm/pmm.c, kern/process/proc.c): what is
    mapped, is mapped inside an area. */
module AddressSpaces {
  import opened VmaSpec
  import Vmm
  import P = PageTables

  const PTE_W: bv32 := 2
  const PTE_U: bv32 := 4

  // ---------- pages and areas ----------

  /** The entry of page y, if present, lies in an area, and can be written only if the area can. */
  ghost predicate BackedAt(v: seq<Region>, e: P.Pte, y: nat) {
    e.Present? ==>
      && Mapped(v, y * 4096)
      && (e.perm & PTE_W != 0 ==> Lookup(v, y * 4096).flags & VM_WRITE != 0)
  }

  ghost predicate Backed(v: seq<Region>, sp: P.Space, d: nat) {
    forall y: nat :: BackedAt(v, P.Entry(sp, d, y), y)
  }

  /** All areas are in the part of the address space that belongs to the user. */
  ghost predicate InUserPart(v: seq<Region>) {
    forall a: nat :: Mapped(v, a) ==> USERBASE <= a
  }

  lemma PageInRange(r: Range, y: nat)
    requires r.start % 4096 == 0 && r.end % 4096 == 0
    ensures r.start / 4096 <= y < r.end / 4096 <==> r.start <= y * 4096 < r.end
  {
  }

  // ---------- giving up ranges ----------

  /** The present entries of d in the ranges are gone, and nothing else has changed. */
  ghost predicate Cleared(s: P.Space, t: P.Space, d: nat, gone: seq<Range>) {
    forall x, y: nat :: P.Entry(t, x, y) ==
      if x == d && Hit(gone, y * 4096) && P.Entry(s, x, y).Present? then P.Zero else P.Entry(s, x, y)
  }

  lemma ClearedNone(s: P.Space, d: nat)
    ensures Cleared(s, s, d, [])
  {
  }

  lemma HitMore(gone: seq<Range>, k: nat, a: nat)
    requires k < |gone|
    ensures Hit(gone[..k + 1], a) <==> Hit(gone[..k], a) || gone[k].start <= a < gone[k].end
  {
    var u, w := gone[..k], gone[..k + 1];
    if Hit(u, a) {
      var x :| 0 <= x < |u| && u[x].start <= a < u[x].end;
      assert w[x] == u[x];
    }
    assert w[k] == gone[k];
  }

  lemma ClearedMore(s: P.Space, t: P.Space, u: P.Space, d: nat, gone: seq<Range>, k: nat)
    requires k < |gone| && Cleared(s, t, d, gone[..k])
    requires gone[k].start % 4096 == 0 && gone[k].end % 4096 == 0
    requires P.Unmapped(t, u, d, gone[k].start / 4096, gone[k].end / 4096)
    ensures Cleared(s, u, d, gone[..k + 1])
  {
    hide P.Entry, Hit;
    var r := gone[k];
    forall x: nat, y: nat
        ensures P.Entry(u, x, y) ==
                  if x == d && Hit(gone[..k + 1], y * 4096) && P.Entry(s, x, y).Present? then P.Zero
                  else P.Entry(s, x, y) {
      HitMore(gone, k, y * 4096);
      PageInRange(r, y);
      assert P.Entry(u, x, y) == if x == d && r.start / 4096 <= y < r.end / 4096 && P.Entry(t, x, y).Present?
                then P.Zero else P.Entry(t, x, y);
    }
  }

  /** The calls of unmap_range in mm_unmap, which touch nothing but page tables. */
  method GiveUp(mmu: P.Mmu, d: nat, gone: seq<Range>)
    requires mmu.Valid() && d in mmu.space
    requires forall x :: 0 <= x < |gone| ==> Inner(gone[x], USERBASE, USERTOP)
    modifies mmu
    ensures mmu.Valid() && Cleared(old(mmu.space), mmu.space, d, gone) && mmu.Lost() == old(mmu.Lost())
    ensures P.SameTables(old(mmu.space), mmu.space, d, {}) && mmu.ref.Keys == old(mmu.ref.Keys)
    ensures mmu.pde == old(mmu.pde)
  {
    hide P.Entry, P.Users, P.Counted, P.Placed, P.Shaped, P.SameTables, P.Unmapped, P.FreedLast, P.Mmu.Lost, Cleared;
    ghost var s := mmu.space;
    ClearedNone(s, d);
    P.SameTablesNone(s, d, 0);
    var k := 0;
    assert gone[..0] == [];
    while k < |gone|
      invariant k <= |gone| && mmu.Valid() && Cleared(s, mmu.space, d, gone[..k]) && mmu.Lost() == old(mmu.Lost())
      invariant P.SameTables(s, mmu.space, d, {}) && mmu.ref.Keys == old(mmu.ref.Keys) && mmu.pde == old(mmu.pde)
    {
      ghost var t := mmu.space;
      P.SameTablesAt(s, t, d, {}, d);
      var start: nat, end: nat := gone[k].start / 4096, gone[k].end / 4096;
      mmu.UnmapRange(d, start, end);
      ClearedMore(s, t, mmu.space, d, gone, k);
      P.SameTablesOn(s, t, mmu.space, d, {});
      k := k + 1;
    }
    assert gone[..k] == gone;
  }

  // ---------- what each operation does to the two ----------

  /** The present entries of d at the addresses from a to b are gone, and nothing else has changed. */
  ghost predicate Vacated(s: P.Space, t: P.Space, d: nat, a: nat, b: nat) {
    forall x, y: nat :: P.Entry(t, x, y) ==
      if x == d && a <= y * 4096 < b && P.Entry(s, x, y).Present? then P.Zero else P.Entry(s, x, y)
  }

  /** The pages of a call are gone from directory d, and nothing else is changed. */
  ghost predicate Emptied(s: P.Space, t: P.Space, d: nat, addr: nat, len: nat) {
    forall x, y: nat :: P.Entry(t, x, y) ==
      if x == d && Touches(addr, len, y * 4096) && P.Entry(s, x, y).Present? then P.Zero else P.Entry(s, x, y)
  }

  lemma VacatedEmptied(s: P.Space, t: P.Space, d: nat, addr: nat, len: nat)
    requires addr < 0x1_0000_0000 && len < 0x1_0000_0000 && UserAccess(First(addr), Last(addr, len))
    requires Vacated(s, t, d, First(addr), Last(addr, len))
    ensures Emptied(s, t, d, addr, len)
  {
    hide P.Entry, First, Last, Touches;
    forall x, y: nat ensures P.Entry(t, x, y) ==
      if x == d && Touches(addr, len, y * 4096) && P.Entry(s, x, y).Present? then P.Zero else P.Entry(s, x, y)
    {
      TouchesExactly(addr, len, y * 4096);
    }
  }

  lemma UnmapBacked(v: seq<Region>, sp: P.Space, t: P.Space, d: nat, gone: seq<Range>, s: nat, e: nat)
    requires Good(v) && s < e && GivesUp(gone, v, s, e) && Cleared(sp, t, d, gone) && Backed(v, sp, d)
    ensures Backed(Unmapped(v, s, e), t, d)
    ensures if Mapped(v, s) then Vacated(sp, t, d, s, e) else P.SameEntries(sp, t)
  {
    hide P.Entry, Hit, Lookup;
    forall y: nat ensures BackedAt(Unmapped(v, s, e), P.Entry(t, d, y), y) {
      assert BackedAt(v, P.Entry(sp, d, y), y);
      CutLookup(v, s, e, y * 4096);
    }
    forall x: nat, y: nat ensures P.Entry(t, x, y) ==
        if x == d && Mapped(v, s) && s <= y * 4096 < e && P.Entry(sp, x, y).Present? then P.Zero
        else P.Entry(sp, x, y) {
      assert BackedAt(v, P.Entry(sp, d, y), y);
    }
  }

  lemma UnmapInUserPart(v: seq<Region>, s: nat, e: nat)
    requires Good(v) && s < e && InUserPart(v)
    ensures InUserPart(Unmapped(v, s, e))
  {
    hide Lookup;
    forall a: nat | Mapped(Unmapped(v, s, e), a) ensures USERBASE <= a {
      CutLookup(v, s, e, a);
      assert Mapped(v, a);
    }
  }

  /** The range [s, e) has got flags, and the rest is as it was. */
  ghost predicate Sets(v: seq<Region>, w: seq<Region>, s: nat, e: nat, flags: bv32) {
    forall a: nat :: Lookup(w, a) == if s <= a < e then Some(flags) else Lookup(v, a)
  }

  /** Where nothing is mapped, any area fits in. */
  lemma MapBacked(v: seq<Region>, w: seq<Region>, sp: P.Space, d: nat, s: nat, e: nat, flags: bv32)
    requires Sets(v, w, s, e, flags) && Backed(v, sp, d) && Room(v, Region(s, e, flags))
    ensures Backed(w, sp, d)
    ensures InUserPart(v) && USERBASE <= s ==> InUserPart(w)
  {
    hide P.Entry, Lookup, Room;
    forall y: nat ensures BackedAt(w, P.Entry(sp, d, y), y) {
      assert BackedAt(v, P.Entry(sp, d, y), y);
      if In(Region(s, e, flags), y * 4096) {
        RoomMeansFree(v, Region(s, e, flags), y * 4096);
      }
    }
    if InUserPart(v) && USERBASE <= s {
      forall a: nat | Mapped(w, a) ensures USERBASE <= a {
        assert Mapped(v, a) || s <= a < e;
      }
    }
  }

  /** mm_brk that sees its whole range: what was mapped there is gone before the range changes. */
  lemma BrkBacked(v: seq<Region>, w: seq<Region>, sp: P.Space, t: P.Space, d: nat, gone: seq<Range>, s: nat, e: nat)
    requires Good(v) && s < e && GivesUp(gone, v, s, e) && Cleared(sp, t, d, gone) && Backed(v, sp, d)
    requires Vmm.BrkSees(v, s, e) && Vmm.Becomes(v, w, s, e)
    ensures Backed(w, t, d) && Vacated(sp, t, d, s, e)
    ensures InUserPart(v) && USERBASE <= s ==> InUserPart(w)
  {
    hide P.Entry, Lookup, Room, Hit;
    UnmapBacked(v, sp, t, d, gone, s, e);
    forall y: nat ensures BackedAt(v, P.Entry(sp, d, y), y) && (s <= y * 4096 < e ==> !P.Entry(t, d, y).Present?) {
      assert BackedAt(v, P.Entry(sp, d, y), y);
      if In(Region(s, e, VM_READ | VM_WRITE), y * 4096) && !Mapped(v, s) {
        RoomMeansFree(v, Region(s, e, VM_READ | VM_WRITE), y * 4096);
      }
    }
    forall y: nat ensures BackedAt(w, P.Entry(t, d, y), y) {
    }
    if InUserPart(v) && USERBASE <= s {
      forall a: nat | Mapped(w, a) ensures USERBASE <= a {
        assert Mapped(v, a) || s <= a < e;
      }
    }
  }

  lemma NothingHit(v: seq<Region>, sp: P.Space, t: P.Space, d: nat, gone: seq<Range>, s: nat, e: nat)
    requires !Mapped(v, s) && GivesUp(gone, v, s, e) && Cleared(sp, t, d, gone)
    ensures P.SameEntries(sp, t)
  {
    hide P.Entry, Hit, Lookup;
  }

  lemma SameBacked(v: seq<Region>, sp: P.Space, t: P.Space, d: nat)
    requires Backed(v, sp, d) && P.SameEntries(sp, t)
    ensures Backed(v, t, d)
  {
    hide P.Entry, Lookup;
  }

  // ---------- page faults ----------

  const VM_EXEC: bv32 := 4

  /** How do_pgfault ends; the last is the call of swap_in. */
  datatype FaultRet = Done | Inval | NoMem | Panic | SwapIn

  /** The check of the error code against the flags of the area. */
  predicate Permitted(flags: bv32, code: bv32) {
    if code & 3 == 1 then false
    else if code & 3 == 0 then flags & (VM_READ | VM_EXEC) != 0
    else flags & VM_WRITE != 0
  }

  function FaultPerm(flags: bv32): bv32 {
    if flags & VM_WRITE != 0 then PTE_U | PTE_W else PTE_U
  }

  /** A write is let through just where the area is writable, a read of an absent page just where it is readable or
      executable, a read of a present one never. */
  lemma PermittedExactly(flags: bv32, code: bv32)
    ensures code & 2 != 0 ==> (Permitted(flags, code) <==> flags & 2 != 0)
    ensures code & 2 == 0 && code & 1 == 0 ==> (Permitted(flags, code) <==> flags & 1 != 0 || flags & 4 != 0)
    ensures code & 2 == 0 && code & 1 != 0 ==> !Permitted(flags, code)
  {
    assert code & 3 == (code & 1) | (code & 2);
    assert flags & (1 | 4) == (flags & 1) | (flags & 4);
  }

  /** The flags of an entry for a page of such an area: present, the user's, and writable if the area is. */
  ghost predicate Opened(flags: bv32, perm: bv32) {
    perm & 1 == 1 && perm & 4 == 4 && (perm & 2 != 0 <==> flags & 2 != 0) && perm & 0xFFFF_FFF8 == 0
  }

  lemma PermBits(flags: bv32)
    ensures Opened(flags, P.PTE_P | FaultPerm(flags))
  {
    assert (1 as bv32 | (4 as bv32 | 2)) == 7;
    assert (1 as bv32 | 4) == 5;
  }

  lemma PageStart(a: nat, s: nat)
    requires s <= a && s % 4096 == 0
    ensures s <= (a / 4096) * 4096 <= a
  {
  }

  /** An area has whole pages. */
  lemma SamePage(v: seq<Region>, a: nat)
    requires Good(v) && Mapped(v, a)
    ensures Lookup(v, (a / 4096) * 4096) == Lookup(v, a)
  {
    LookupNone(v, a);
    var i :| 0 <= i < |v| && In(v[i], a);
    assert Proper(v[i]);
    PageStart(a, v[i].start);
    Vmm.FoundMapped(v, i, a);
    Vmm.FoundMapped(v, i, (a / 4096) * 4096);
  }

  lemma FaultBacked(v: seq<Region>, s: P.Space, t: P.Space, d: nat, a: nat, page: nat)
    requires Good(v) && Mapped(v, a) && Backed(v, s, d) && P.OneEntry(s, t, d, a / 4096, FaultEntry(v, a, page))
    ensures Backed(v, t, d)
  {
    hide P.Entry, Lookup, Good, FaultPerm;
    SamePage(v, a);
    PermBits(Lookup(v, a).flags);
    forall y: nat ensures BackedAt(v, P.Entry(t, d, y), y) {
      assert BackedAt(v, P.Entry(s, d, y), y);
    }
  }

  /** How a fault at page y of directory d ends when the access is allowed. */
  ghost function PageInResult(sp: P.Space, free: set<nat>, d: nat, y: nat): FaultRet
    requires d in sp
  {
    var e := P.Entry(sp, d, y);
    if e.Present? then Panic
    else if e.Absent? then SwapIn
    else if |free| < (if y / 1024 in sp[d] then 1 else 2) then NoMem
    else Done
  }

  lemma PageInNow(sp: P.Space, free: set<nat>, t: P.Space, left: set<nat>, d: nat, y: nat)
    requires d in sp && d in t && P.SameEntries(sp, t) && y / 1024 in t[d]
    requires y / 1024 in sp[d] || free != {}
    requires |left| == |free| - if y / 1024 in sp[d] then 0 else 1
    ensures PageInResult(sp, free, d, y) == PageInResult(t, left, d, y)
  {
    hide P.Entry;
  }

  lemma NoRoomAtAll(sp: P.Space, free: set<nat>, d: nat, y: nat)
    requires d in sp && y / 1024 !in sp[d] && free == {}
    ensures PageInResult(sp, free, d, y) == NoMem
  {
    P.NoEntry(sp, d, y);
  }

  /** Directory d may have got a table for page y. */
  ghost predicate MaybeTable(s: P.Space, t: P.Space, d: nat, y: nat) {
    t == s || P.SameTables(s, t, d, {y / 1024})
  }

  lemma MaybeKeys(s: P.Space, t: P.Space, d: nat, y: nat)
    requires MaybeTable(s, t, d, y)
    ensures t.Keys == s.Keys
  {
  }

  /** The access is outside every area, or a write where the area is not writable, or a read of a present page or
      where the area is neither readable nor executable. */
  ghost predicate Refused(v: seq<Region>, addr: nat, code: bv32) {
    || !Mapped(v, addr)
    || var f := Lookup(v, addr).flags;
       if code & 2 != 0 then f & 2 == 0 else code & 1 != 0 || (f & 1 == 0 && f & 4 == 0)
  }

  lemma RefusedExactly(v: seq<Region>, addr: nat, code: bv32)
    ensures Refused(v, addr, code) <==> !Allowed(v, addr, code)
  {
    if Mapped(v, addr) {
      PermittedExactly(Lookup(v, addr).flags, code);
    }
  }

  /** The access is inside an area that allows it. */
  ghost predicate Allowed(v: seq<Region>, addr: nat, code: bv32) {
    Mapped(v, addr) && Permitted(Lookup(v, addr).flags, code)
  }

  /** The entry for a new page. */
  ghost function FaultEntry(v: seq<Region>, addr: nat, page: nat): P.Pte
    requires Mapped(v, addr)
  {
    P.Present(page, P.PTE_P | FaultPerm(Lookup(v, addr).flags))
  }

  /** The part of do_pgfault before get_pte: the flags of the area, if it allows the access. */
  method FindFlags(mm: Vmm.Mm, code: bv32, addr: nat) returns (ok: bool, flags: bv32)
    requires mm.Valid()
    modifies mm`cache
    ensures mm.Valid() && ok == Allowed(mm.view, addr, code) && (ok ==> Lookup(mm.view, addr) == Some(flags))
  {
    hide Good, Vmm.Shows, Lookup, Permitted;
    ok, flags := false, 0;
    var vma;
    ghost var i;
    vma, i := mm.FindVma(addr);
    if vma != null {
      Vmm.AllShown(mm.list, mm.view);
      Vmm.FoundMapped(mm.view, i, addr);
      ok, flags := Permitted(vma.flags, code), vma.flags;
    }
  }

  /** The part of do_pgfault from get_pte on. */
  method PageIn(mmu: P.Mmu, d: nat, y: nat, perm: bv32) returns (ret: FaultRet, ghost page: nat)
    requires mmu.Valid() && d in mmu.space && y < P.NPAGES
    modifies mmu
    ensures mmu.Valid() && ret == PageInResult(old(mmu.space), old(mmu.free), d, y) && !ret.Inval?
    ensures ret.Done? ==>
              page in old(mmu.free)
              && P.OneEntry(old(mmu.space), mmu.space, d, y, P.Present(page, P.PTE_P | perm))
    ensures !ret.Done? ==> P.SameEntries(old(mmu.space), mmu.space)
    ensures MaybeTable(old(mmu.space), mmu.space, d, y)
    ensures d in mmu.space && mmu.Lost() == old(mmu.Lost()) && mmu.ref.Keys == old(mmu.ref.Keys)
  {
    hide P.Entry, P.Users, P.Counted, P.Placed, P.Shaped, P.SameTables, P.SameEntries, P.Mmu.Lost, P.OneEntry,
      P.KeptContent;
    page := 0;
    ghost var sp, free := mmu.space, mmu.free;
    var g: nat := y / 1024;
    var ok := mmu.GetPte(d, y, true);
    ghost var t := mmu.space;
    if !ok {
      NoRoomAtAll(sp, free, d, y);
      return NoMem, page;
    }
    P.SameTablesAt(sp, t, d, {g}, d);
    PageInNow(sp, free, t, mmu.free, d, y);
    P.AtEntry(t, d, y);
    var e := mmu.space[d][g][y % 1024];
    if e.Present? {
      return Panic, page;
    }
    if e.Absent? {
      return SwapIn, page;
    }
    var p := mmu.PgdirAllocPage(d, y, perm);
    if p == -1 {
      return NoMem, page;
    }
    page := p;
    P.SameTablesTwice(sp, t, mmu.space, d, {g});
    P.OneEntryAfter(sp, t, mmu.space, d, y, P.Present(p, P.PTE_P | perm));
    ret := Done;
  }

  // ---------- the end of an address space ----------

  /** The areas as ranges of addresses. */
  ghost predicate AreRanges(gone: seq<Range>, v: seq<Region>) {
    |gone| == |v| && forall k :: 0 <= k < |v| ==> gone[k] == Range(v[k].start, v[k].end)
  }

  lemma RangesInside(gone: seq<Range>, v: seq<Region>)
    requires AreRanges(gone, v) && Good(v) && InUserPart(v)
    ensures forall k :: 0 <= k < |gone| ==> Inner(gone[k], USERBASE, USERTOP)
  {
    forall k: nat | k < |gone| ensures Inner(gone[k], USERBASE, USERTOP) {
      assert Proper(v[k]);
      Vmm.FoundMapped(v, k, v[k].start);
    }
  }

  /** Since all that is present lies in an area, nothing is present when the areas have been unmapped. */
  lemma NothingLeft(v: seq<Region>, gone: seq<Range>, s: P.Space, t: P.Space, d: nat)
    requires AreRanges(gone, v) && Backed(v, s, d) && Cleared(s, t, d, gone)
    ensures forall y: nat :: !P.Entry(t, d, y).Present?
    ensures forall x, y: nat :: x != d ==> P.Entry(t, x, y) == P.Entry(s, x, y)
  {
    hide P.Entry, Lookup;
    forall y: nat ensures !P.Entry(t, d, y).Present? {
      assert BackedAt(v, P.Entry(s, d, y), y);
      if Mapped(v, y * 4096) {
        LookupNone(v, y * 4096);
        var k :| 0 <= k < |v| && In(v[k], y * 4096);
        assert gone[k].start <= y * 4096 < gone[k].end;
      }
    }
  }

  /** The table at i lies under one of the ranges. */
  ghost predicate Beneath(i: nat, gone: seq<Range>) {
    exists k :: 0 <= k < |gone| && P.Under(i, gone[k].start / 4096, gone[k].end / 4096)
  }

  lemma BeneathMore(i: nat, gone: seq<Range>, k: nat)
    requires k < |gone|
    ensures Beneath(i, gone[..k + 1]) <==>
              Beneath(i, gone[..k]) || P.Under(i, gone[k].start / 4096, gone[k].end / 4096)
  {
    hide P.Under;
    var u, w := gone[..k], gone[..k + 1];
    if Beneath(i, u) {
      var x :| 0 <= x < |u| && P.Under(i, u[x].start / 4096, u[x].end / 4096);
      assert w[x] == u[x];
    }
    assert w[k] == gone[k];
  }

  /** The tables of d beneath the ranges are gone, and no others. */
  ghost predicate CutDown(p: P.Pdes, q: P.Pdes, d: nat, gone: seq<Range>) {
    && d in p && q.Keys == p.Keys && (forall x :: x in p && x != d ==> q[x] == p[x])
    && (forall i :: i in q[d] <==> i in p[d] && !Beneath(i, gone)) && forall i :: i in q[d] ==> q[d][i] == p[d][i]
  }

  lemma CutNone(p: P.Pdes, d: nat)
    requires d in p
    ensures CutDown(p, p, d, [])
  {
  }

  lemma CutMore(p: P.Pdes, q: P.Pdes, r: P.Pdes, d: nat, gone: seq<Range>, k: nat)
    requires k < |gone| && CutDown(p, q, d, gone[..k])
    requires P.Pruned(q, r, d, gone[k].start / 4096, gone[k].end / 4096)
    ensures CutDown(p, r, d, gone[..k + 1])
  {
    hide P.Under, Beneath;
    forall i ensures i in r[d] <==> i in p[d] && !Beneath(i, gone[..k + 1]) {
      if i in p[d] {
        BeneathMore(i, gone, k);
      }
    }
  }

  /** The second loop of exit_mmap. */
  method ExitRanges(mmu: P.Mmu, d: nat, gone: seq<Range>)
    requires mmu.Valid() && d in mmu.space && forall y: nat :: !P.Entry(mmu.space, d, y).Present?
    requires forall x :: 0 <= x < |gone| ==> Inner(gone[x], USERBASE, USERTOP)
    modifies mmu
    ensures mmu.Valid() && d in mmu.space && (forall y: nat :: !P.Entry(mmu.space, d, y).Present?)
    ensures forall x, y: nat :: x != d ==> P.Entry(mmu.space, x, y) == P.Entry(old(mmu.space), x, y)
    ensures CutDown(old(mmu.pde), mmu.pde, d, gone) && mmu.space.Keys == old(mmu.space.Keys)
    ensures mmu.Lost() == old(mmu.Lost()) && mmu.ref.Keys == old(mmu.ref.Keys)
  {
    hide P.Entry, P.Users, P.Counted, P.Placed, P.Shaped, P.Mmu.Lost, CutDown, P.Pruned;
    P.PlacedAt(mmu.space, mmu.pde, mmu.tables, d);
    CutNone(mmu.pde, d);
    var k := 0;
    assert gone[..0] == [];
    while k < |gone|
      invariant k <= |gone| && mmu.Valid() && d in mmu.space && (forall y: nat :: !P.Entry(mmu.space, d, y).Present?)
      invariant forall x, y: nat :: x != d ==> P.Entry(mmu.space, x, y) == P.Entry(old(mmu.space), x, y)
      invariant CutDown(old(mmu.pde), mmu.pde, d, gone[..k]) && mmu.space.Keys == old(mmu.space.Keys)
      invariant mmu.Lost() == old(mmu.Lost()) && mmu.ref.Keys == old(mmu.ref.Keys)
    {
      ghost var q := mmu.pde;
      var start: nat, end: nat := gone[k].start / 4096, gone[k].end / 4096;
      mmu.ExitRange(d, start, end);
      CutMore(old(mmu.pde), q, mmu.pde, d, gone, k);
      k := k + 1;
    }
    assert gone[..k] == gone;
  }

  ghost predicate PageMapped(v: seq<Region>, y: nat) {
    Mapped(v, y * 4096)
  }

  /** Some area has a page in the table at i. */
  ghost predicate Covers(v: seq<Region>, i: nat) {
    exists y: nat :: y / 1024 == i && PageMapped(v, y)
  }

  /** The pages of those tables of a directory that lie beneath no area. */
  ghost function Orphans(row: P.Row, v: seq<Region>): set<nat> {
    set i | i in row && !Covers(v, i) :: row[i]
  }

  lemma UnderPage(i: nat, a: nat, b: nat) returns (y: nat)
    requires P.Under(i, a, b) && a < b
    ensures a <= y < b && y / 1024 == i
  {
    y := if a < i * 1024 then i * 1024 else a;
  }

  lemma CoversBeneath(v: seq<Region>, gone: seq<Range>, i: nat)
    requires AreRanges(gone, v) && Good(v)
    ensures Covers(v, i) <==> Beneath(i, gone)
  {
    hide Lookup;
    if Covers(v, i) {
      var y: nat :| y / 1024 == i && PageMapped(v, y);
      LookupNone(v, y * 4096);
      var k :| 0 <= k < |v| && In(v[k], y * 4096);
      RegionPages(v[k], y);
      assert P.Under(i, gone[k].start / 4096, gone[k].end / 4096);
    }
    if Beneath(i, gone) {
      var k :| 0 <= k < |gone| && P.Under(i, gone[k].start / 4096, gone[k].end / 4096);
      RegionPages(v[k], 0);
      var y := UnderPage(i, v[k].start / 4096, v[k].end / 4096);
      RegionPages(v[k], y);
      Vmm.FoundMapped(v, k, y * 4096);
      assert PageMapped(v, y);
    }
  }

  lemma RegionPages(r: Region, y: nat)
    requires Proper(r)
    ensures r.start / 4096 <= y < r.end / 4096 <==> In(r, y * 4096)
    ensures r.start / 4096 < r.end / 4096 <= P.NPAGES
  {
  }

  lemma LeftOver(v: seq<Region>, gone: seq<Range>, p: P.Pdes, q: P.Pdes, d: nat)
    requires AreRanges(gone, v) && CutDown(p, q, d, gone) && Good(v)
    ensures q[d].Values == Orphans(p[d], v)
  {
    hide Beneath, Covers, Good;
    forall i: nat ensures Covers(v, i) <==> Beneath(i, gone) {
      CoversBeneath(v, gone, i);
    }
    forall page: nat | page in Orphans(p[d], v) ensures page in q[d].Values {
      var i :| i in p[d] && !Covers(v, i) && p[d][i] == page;
      assert q[d][i] == page;
    }
    forall page: nat | page in q[d].Values ensures page in Orphans(p[d], v) {
      var i :| i in q[d] && q[d][i] == page;
    }
  }

  /** The pages of tables beneath no area were not lost before, and there are none just when every table lies beneath
      one. */
  lemma NewlyLost(mmu: P.Mmu, d: nat, v: seq<Region>)
    requires mmu.Valid() && d in mmu.space
    ensures d in mmu.pde && (Orphans(mmu.pde[d], v) == {} <==> Covered(mmu.space, d, v))
    ensures Orphans(mmu.pde[d], v) !! mmu.Lost()
  {
    hide Covers, P.Leads, P.Counted, P.Shaped, P.Unshared, P.Users;
    var row := mmu.pde[d];
    P.PlacedAt(mmu.space, mmu.pde, mmu.tables, d);
    forall page | page in Orphans(row, v) ensures page !in mmu.Lost() {
      var i :| i in row && !Covers(v, i) && row[i] == page;
      P.LeadsTo(mmu.pde, d, i);
    }
    if !Covered(mmu.space, d, v) {
      var i :| i in row && !Covers(v, i);
      assert row[i] in Orphans(row, v);
    }
  }

  method Areas(mm: Vmm.Mm) returns (gone: seq<Range>)
    requires mm.Valid()
    ensures AreRanges(gone, mm.view)
  {
    hide Good;
    Vmm.AllShown(mm.list, mm.view);
    gone := [];
    for k := 0 to |mm.list|
      invariant |gone| == k && forall i :: 0 <= i < k ==> gone[i] == Range(mm.view[i].start, mm.view[i].end)
    {
      gone := gone + [Range(mm.list[k].start, mm.list[k].end)];
    }
  }

  lemma EndsEmpty(s: P.Space, t: P.Space, u: P.Space, d: nat)
    requires (forall x, y: nat :: x != d ==> P.Entry(t, x, y) == P.Entry(s, x, y)) && P.DirEmptied(t, u, d)
    ensures P.DirEmptied(s, u, d)
  {
    hide P.Entry;
  }

  lemma OthersStay(p: P.Pdes, q: P.Pdes, d: nat, gone: seq<Range>)
    requires CutDown(p, q, d, gone)
    ensures d in p && d in q && q - {d} == p - {d}
  {
  }

  // ---------- copying an address space ----------

  /** The pages of d that the regions hold. */
  ghost function PagesIn(sp: P.Space, d: nat, v: seq<Region>): set<nat> {
    set y: nat | y < P.NPAGES && Mapped(v, y * 4096) && P.Entry(sp, d, y).Present?
  }

  /** The free pages it takes to copy these pages to a directory that has tables at have. */
  ghost function Cost(pages: set<nat>, have: set<nat>): nat {
    |pages| + |P.Groups(pages) - have|
  }

  lemma GroupsJoin(p: set<nat>, q: set<nat>)
    ensures P.Groups(p + q) == P.Groups(p) + P.Groups(q)
  {
    forall i | i in P.Groups(p) + P.Groups(q) ensures i in P.Groups(p + q) {
      if i in P.Groups(p) {
        var y :| y in p && y / 1024 == i;
        assert y in p + q;
      } else {
        var y :| y in q && y / 1024 == i;
        assert y in p + q;
      }
    }
    forall i | i in P.Groups(p + q) ensures i in P.Groups(p) + P.Groups(q) {
      var y :| y in p + q && y / 1024 == i;
    }
  }

  /** Copying two sets of pages costs as much as copying one and then the other. */
  lemma CostJoin(p: set<nat>, q: set<nat>, have: set<nat>)
    requires p !! q
    ensures Cost(p + q, have) == Cost(p, have) + Cost(q, have + P.Groups(p))
    ensures have + P.Groups(p) + P.Groups(q) == have + P.Groups(p + q)
  {
    hide P.Groups;
    GroupsJoin(p, q);
    var a, b := P.Groups(p), P.Groups(q);
    assert (a + b) - have == (a - have) + (b - (have + a));
    assert (a - have) !! (b - (have + a));
    assert |p + q| == |p| + |q|;
    assert |(a - have) + (b - (have + a))| == |a - have| + |b - (have + a)|;
  }

  lemma MappedFirst(v: seq<Region>, i: nat, a: nat)
    requires i < |v|
    ensures Mapped(v[i..], a) <==> In(v[i], a) || Mapped(v[i + 1..], a)
  {
    assert v[i..][0] == v[i] && v[i..][1..] == v[i + 1..];
  }

  /** The pages of the next region come on top of those behind it. */
  lemma PagesFirst(sp: P.Space, n: P.Space, d: nat, v: seq<Region>, i: nat)
    requires Good(v) && i < |v| && forall y: nat :: P.Entry(n, d, y) == P.Entry(sp, d, y)
    ensures var q := P.Pages(n, d, v[i].start / 4096, v[i].end / 4096);
            PagesIn(sp, d, v[i..]) == PagesIn(sp, d, v[i + 1..]) + q && PagesIn(sp, d, v[i + 1..]) !! q
  {
    hide P.Entry, Lookup;
    assert Proper(v[i]);
    forall y: nat
        ensures (Mapped(v[i..], y * 4096) <==> In(v[i], y * 4096) || Mapped(v[i + 1..], y * 4096))
        ensures !(In(v[i], y * 4096) && Mapped(v[i + 1..], y * 4096))
        ensures (v[i].start / 4096 <= y < v[i].end / 4096 <==> In(v[i], y * 4096)) {
      MappedFirst(v, i, y * 4096);
      RegionPages(v[i], y);
      Vmm.BeforeRest(v, i);
      if In(v[i], y * 4096) {
        RoomMeansFree(v[i + 1..], v[i], y * 4096);
      }
    }
  }

  /** The pages of from that the regions hold have been copied to to, and nothing else has changed. */
  ghost predicate AllCopied(m: P.Memory, n: P.Memory, to: nat, from: nat, v: seq<Region>) {
    && (forall x, y: nat :: (x != to || !Mapped(v, y * 4096)) ==> P.Entry(n.space, x, y) == P.Entry(m.space, x, y))
    && (forall y: nat :: Mapped(v, y * 4096) ==> P.CopiedAt(m, n, to, from, y))
    && P.KeptContent(m.content, n.content, m.free) && n.free <= m.free
  }

  lemma NoneCopied(m: P.Memory, to: nat, from: nat)
    ensures AllCopied(m, m, to, from, [])
  {
  }

  /** The free pages have no users, and mapped ones have contents. */
  ghost predicate Sane(m: P.Memory) {
    && P.FreeUnused(m)
    && forall d, y: nat :: y < P.NPAGES && P.Entry(m.space, d, y).Present? ==> P.Entry(m.space, d, y).page in m.content
  }

  /** The new mappings of free pages leave the users of other pages alone. */
  lemma OtherUsers(n: P.Memory, o: P.Memory, to: nat, from: nat, a: nat, b: nat, p: nat)
    requires P.Copied(n, o, to, from, a, b) && p !in n.free
    requires forall y: nat :: a <= y < b ==> !P.Entry(n.space, to, y).Present?
    ensures P.Users(o.space, p) == P.Users(n.space, p)
  {
    hide P.Entry, P.Users;
    forall x: nat, y: nat ensures P.Maps(o.space, x, y, p) <==> P.Maps(n.space, x, y, p) {
      if x == to && a <= y < b {
        assert P.CopiedAt(n, o, to, from, y);
      }
    }
    P.SameMaps(n.space, o.space, p);
  }

  lemma CopiedBefore(m: P.Memory, n: P.Memory, o: P.Memory, to: nat, from: nat, a: nat, b: nat, y: nat)
    requires P.CopiedAt(m, n, to, from, y) && P.Copied(n, o, to, from, a, b) && !(a <= y < b) && Sane(n) && to != from
    requires forall z: nat :: a <= z < b ==> !P.Entry(n.space, to, z).Present?
    ensures P.CopiedAt(m, o, to, from, y)
  {
    hide P.Entry, P.Users;
    var e, f := P.Entry(m.space, from, y), P.Entry(n.space, to, y);
    if e.Present? {
      assert f.page !in n.free;
      OtherUsers(n, o, to, from, a, b, f.page);
      P.KeptAt(n.content, o.content, n.free, f.page);
    }
  }

  lemma CopiedNow(m: P.Memory, n: P.Memory, o: P.Memory, to: nat, from: nat, y: nat)
    requires P.CopiedAt(n, o, to, from, y) && Sane(m) && y < P.NPAGES && n.free <= m.free
    requires P.KeptContent(m.content, n.content, m.free)
    requires P.Entry(n.space, from, y) == P.Entry(m.space, from, y)
    requires P.Entry(n.space, to, y) == P.Entry(m.space, to, y)
    ensures P.CopiedAt(m, o, to, from, y)
  {
    hide P.Entry, P.Users;
    var e := P.Entry(m.space, from, y);
    if e.Present? {
      P.IsUser(m.space, e.page, from, y);
      assert e.page in m.content && e.page !in m.free;
      P.KeptAt(m.content, n.content, m.free, e.page);
    }
  }

  /** One more region. */
  lemma CopiedMore(m: P.Memory, n: P.Memory, o: P.Memory, to: nat, from: nat, v: seq<Region>, i: nat)
    requires Good(v) && i < |v| && AllCopied(m, n, to, from, v[i + 1..]) && Sane(m) && Sane(n) && to != from
    requires P.Copied(n, o, to, from, v[i].start / 4096, v[i].end / 4096)
    requires forall z: nat :: v[i].start / 4096 <= z < v[i].end / 4096 ==> !P.Entry(n.space, to, z).Present?
    ensures AllCopied(m, o, to, from, v[i..])
  {
    hide P.Entry, P.Users, Lookup, P.CopiedAt, P.KeptContent, Sane;
    assert Proper(v[i]);
    var a, b := v[i].start / 4096, v[i].end / 4096;
    forall y: nat
        ensures (Mapped(v[i..], y * 4096) <==> In(v[i], y * 4096) || Mapped(v[i + 1..], y * 4096))
        ensures !(In(v[i], y * 4096) && Mapped(v[i + 1..], y * 4096))
        ensures (a <= y < b <==> In(v[i], y * 4096)) && b <= P.NPAGES {
      MappedFirst(v, i, y * 4096);
      RegionPages(v[i], y);
      Vmm.BeforeRest(v, i);
      if In(v[i], y * 4096) {
        RoomMeansFree(v[i + 1..], v[i], y * 4096);
      }
    }
    forall y: nat | Mapped(v[i..], y * 4096) ensures P.CopiedAt(m, o, to, from, y) {
      if a <= y < b {
        CopiedNow(m, n, o, to, from, y);
      } else {
        CopiedBefore(m, n, o, to, from, a, b, y);
      }
    }
    KeptTwice(m, n, o);
  }

  lemma KeptTwice(m: P.Memory, n: P.Memory, o: P.Memory)
    requires P.KeptContent(m.content, n.content, m.free) && P.KeptContent(n.content, o.content, n.free)
    requires n.free <= m.free
    ensures P.KeptContent(m.content, o.content, m.free)
  {
  }

  /** All that is present lies in an area, so the areas hold all pages. */
  lemma PagesOfAreas(sp: P.Space, d: nat, v: seq<Region>)
    requires Backed(v, sp, d)
    ensures PagesIn(sp, d, v) == P.Pages(sp, d, 0, P.NPAGES)
  {
    hide P.Entry, Lookup;
    forall y: nat ensures P.Entry(sp, d, y).Present? ==> Mapped(v, y * 4096) {
      assert BackedAt(v, P.Entry(sp, d, y), y);
    }
  }

  lemma CostMono(p: set<nat>, q: set<nat>, have: set<nat>)
    requires p <= q
    ensures Cost(p, have) <= Cost(q, have)
  {
    hide Cost, P.Groups;
    assert q == p + (q - p);
    CostJoin(p, q - p, have);
  }

  lemma FewerPages(sp: P.Space, d: nat, v: seq<Region>, i: nat)
    requires i <= |v|
    ensures PagesIn(sp, d, v[i..]) <= PagesIn(sp, d, v)
  {
    hide P.Entry, Lookup;
    forall y: nat ensures Mapped(v[i..], y * 4096) ==> Mapped(v, y * 4096) {
      LookupConcat(v[..i], v[i..], y * 4096);
      assert v == v[..i] + v[i..];
    }
  }

  lemma CopiedPerm(perm: bv32, q: bv32)
    requires P.SameRights(perm, q)
    ensures q & PTE_W != 0 <==> perm & PTE_W != 0
  {
  }

  /** The copies lie in the new area of the child, which has the flags of that of the parent. */
  lemma CopyBacked(v: seq<Region>, w: seq<Region>, fv: seq<Region>, i: nat, n: P.Memory, o: P.Memory, to: nat,
                   from: nat, c: nat)
    requires Good(fv) && i < |fv| && Sets(v, w, fv[i].start, fv[i].end, fv[i].flags) && Room(v, fv[i]) && to != from
    requires Backed(v, n.space, to) && Backed(fv, n.space, from)
    requires fv[i].start / 4096 <= c <= fv[i].end / 4096 && P.Copied(n, o, to, from, fv[i].start / 4096, c)
    ensures Backed(w, o.space, to) && Backed(fv, o.space, from)
    ensures InUserPart(v) && InUserPart(fv) ==> InUserPart(w)
  {
    hide P.Entry, Lookup, P.Users, Room, Good, P.KeptContent;
    Vmm.ProperAt(fv, i);
    MapBacked(v, w, n.space, to, fv[i].start, fv[i].end, fv[i].flags);
    forall y: nat ensures BackedAt(w, P.Entry(o.space, to, y), y) {
      assert BackedAt(w, P.Entry(n.space, to, y), y) && BackedAt(fv, P.Entry(n.space, from, y), y);
      RegionPages(fv[i], y);
      if fv[i].start / 4096 <= y < c {
        assert P.CopiedAt(n, o, to, from, y);
        Vmm.FoundMapped(fv, i, y * 4096);
        if P.Entry(n.space, from, y).Present? {
          CopiedPerm(P.Entry(n.space, from, y).perm, P.Entry(o.space, to, y).perm);
        }
      }
    }
    forall y: nat ensures BackedAt(fv, P.Entry(o.space, from, y), y) {
      assert BackedAt(fv, P.Entry(n.space, from, y), y);
    }
    Vmm.FoundMapped(fv, i, fv[i].start);
  }

  /** Nothing is present where there is room for an area. */
  lemma RoomIsEmpty(v: seq<Region>, sp: P.Space, d: nat, r: Region)
    requires Backed(v, sp, d) && Proper(r) && Room(v, r)
    ensures forall y: nat :: r.start / 4096 <= y < r.end / 4096 ==> !P.Entry(sp, d, y).Present?
  {
    hide P.Entry, Lookup, Room;
    forall y: nat | r.start / 4096 <= y < r.end / 4096 ensures !P.Entry(sp, d, y).Present? {
      assert BackedAt(v, P.Entry(sp, d, y), y);
      RegionPages(r, y);
      RoomMeansFree(v, r, y * 4096);
    }
  }

  // ---------- other address spaces ----------

  /** No directory but d has changed its entries or its tables. */
  ghost predicate OnlyDir(s: P.Space, t: P.Space, d: nat) {
    && (forall x, y: nat :: x != d ==> P.Entry(t, x, y) == P.Entry(s, x, y))
    && forall x :: x != d ==> (x in t <==> x in s) && (x in s ==> t[x].Keys == s[x].Keys)
  }

  lemma OnlyDirNone(s: P.Space, d: nat)
    ensures OnlyDir(s, s, d)
  {
  }

  lemma OnlyDirTwice(s: P.Space, t: P.Space, u: P.Space, d: nat)
    requires OnlyDir(s, t, d) && OnlyDir(t, u, d)
    ensures OnlyDir(s, u, d)
  {
    hide P.Entry;
  }

  lemma OnlyDirTables(s: P.Space, t: P.Space, d: nat, i: set<nat>)
    requires P.SameTables(s, t, d, i) && forall x, y: nat :: x != d ==> P.Entry(t, x, y) == P.Entry(s, x, y)
    ensures OnlyDir(s, t, d)
  {
    hide P.Entry;
    forall x | x != d && x in s ensures t[x].Keys == s[x].Keys {
      assert t[x].Keys == s[x].Keys + {};
    }
  }

  lemma OnlyDirMore(n: P.Memory, o: P.Memory, to: nat, from: nat, a: nat, b: nat, c: nat)
    requires P.MoreTables(n.space, o.space, to, a, b) && P.Copied(n, o, to, from, a, c)
    ensures OnlyDir(n.space, o.space, to)
  {
    hide P.Entry, P.CopiedAt;
  }

  /** Every table of d lies beneath an area. */
  ghost predicate Covered(sp: P.Space, d: nat, v: seq<Region>) {
    d in sp && forall i :: i in sp[d] ==> Covers(v, i)
  }

  ghost predicate Grows(v: seq<Region>, w: seq<Region>) {
    forall a: nat :: Mapped(v, a) ==> Mapped(w, a)
  }

  lemma CoversMore(v: seq<Region>, w: seq<Region>, i: nat)
    requires Grows(v, w) && Covers(v, i)
    ensures Covers(w, i)
  {
    hide Lookup;
    var y: nat :| y / 1024 == i && PageMapped(v, y);
    assert PageMapped(w, y);
  }

  /** Tables stay beneath areas when areas only grow and new tables are made beneath them. */
  lemma CoveredMore(s: P.Space, t: P.Space, d: nat, v: seq<Region>, w: seq<Region>)
    requires Grows(v, w) && d in t && d in s && forall i :: i in t[d] ==> i in s[d] || Covers(w, i)
    ensures Covered(s, d, v) ==> Covered(t, d, w)
  {
    hide Covers, Grows;
    if Covered(s, d, v) {
      forall i | i in t[d] ensures Covers(w, i) {
        if i in s[d] {
          CoversMore(v, w, i);
        }
      }
    }
  }

  lemma UnderArea(v: seq<Region>, r: Region, i: nat)
    requires Proper(r) && P.Under(i, r.start / 4096, r.end / 4096) && forall a: nat :: In(r, a) ==> Mapped(v, a)
    ensures Covers(v, i)
  {
    hide Lookup;
    RegionPages(r, 0);
    var y := UnderPage(i, r.start / 4096, r.end / 4096);
    RegionPages(r, y);
    assert PageMapped(v, y);
  }

  lemma SetsGrows(v: seq<Region>, w: seq<Region>, s: nat, e: nat, flags: bv32)
    requires Sets(v, w, s, e, flags)
    ensures Grows(v, w) && forall a: nat :: s <= a < e ==> Mapped(w, a)
  {
    hide Lookup;
  }

  lemma DupCovered(n: P.Space, o: P.Space, d: nat, v: seq<Region>, w: seq<Region>, r: Region)
    requires Proper(r) && Sets(v, w, r.start, r.end, r.flags) && d in n
    requires P.MoreTables(n, o, d, r.start / 4096, r.end / 4096)
    ensures Covered(n, d, v) ==> Covered(o, d, w)
  {
    hide Covers, Sets, Grows, P.Under;
    SetsGrows(v, w, r.start, r.end, r.flags);
    forall i | i in o[d] ensures i in n[d] || Covers(w, i) {
      if i !in n[d] {
        UnderArea(w, r, i);
      }
    }
    CoveredMore(n, o, d, v, w);
  }

  /** Nothing is present at the addresses from a to b. */
  ghost predicate Vacant(sp: P.Space, d: nat, a: nat, b: nat) {
    forall y: nat :: a <= y * 4096 < b ==> !P.Entry(sp, d, y).Present?
  }

  lemma VacatedOnly(s: P.Space, t: P.Space, d: nat, a: nat, b: nat)
    requires Vacated(s, t, d, a, b) && P.SameTables(s, t, d, {})
    ensures OnlyDir(s, t, d) && Vacant(t, d, a, b)
  {
    hide P.Entry, P.SameTables;
    OnlyDirTables(s, t, d, {});
  }

  lemma SameOnly(s: P.Space, t: P.Space, d: nat, a: nat, b: nat)
    requires P.SameEntries(s, t) && P.SameTables(s, t, d, {})
    ensures OnlyDir(s, t, d) && (Vacant(t, d, a, b) <==> Vacant(s, d, a, b))
  {
    hide P.Entry, P.SameTables;
    OnlyDirTables(s, t, d, {});
  }

  lemma GrowsNone(v: seq<Region>)
    ensures Grows(v, v)
  {
  }

  lemma BecomesGrows(v: seq<Region>, w: seq<Region>, s: nat, e: nat)
    requires Vmm.Becomes(v, w, s, e)
    ensures Grows(v, w)
  {
    hide Lookup;
  }

  lemma GrownCovered(s: P.Space, t: P.Space, d: nat, v: seq<Region>, w: seq<Region>)
    requires Grows(v, w) && d in s && P.SameTables(s, t, d, {})
    ensures Covered(s, d, v) ==> Covered(t, d, w)
  {
    hide Covers, Grows;
    assert t[d].Keys == s[d].Keys + {};
    CoveredMore(s, t, d, v, w);
  }

  lemma FaultCovered(s: P.Space, t: P.Space, d: nat, v: seq<Region>, a: nat)
    requires d in s && Good(v) && Mapped(v, a) && MaybeTable(s, t, d, a / 4096)
    ensures Covered(s, d, v) ==> Covered(t, d, v)
  {
    hide Lookup, Good, Covers;
    SamePage(v, a);
    assert PageMapped(v, a / 4096);
    PageCovers(v, a / 4096);
    assert Grows(v, v);
    if t != s {
      assert t[d].Keys == s[d].Keys + {a / 4096 / 1024};
    }
    CoveredMore(s, t, d, v, v);
  }

  lemma PageCovers(v: seq<Region>, y: nat)
    requires PageMapped(v, y)
    ensures Covers(v, y / 1024)
  {
    hide PageMapped;
  }

  lemma FaultOnly(s: P.Space, t: P.Space, d: nat, y: nat)
    requires MaybeTable(s, t, d, y) && forall x, z: nat :: x != d ==> P.Entry(t, x, z) == P.Entry(s, x, z)
    ensures OnlyDir(s, t, d)
  {
    hide P.Entry, P.SameTables;
    if t != s {
      OnlyDirTables(s, t, d, {y / 1024});
    }
  }

  lemma OneEntryOnly(s: P.Space, t: P.Space, d: nat, y: nat, e: P.Pte)
    requires P.OneEntry(s, t, d, y, e)
    ensures forall x, z: nat :: x != d ==> P.Entry(t, x, z) == P.Entry(s, x, z)
  {
    hide P.Entry;
  }

  lemma SameEntriesOnly(s: P.Space, t: P.Space, d: nat)
    requires P.SameEntries(s, t)
    ensures forall x, z: nat :: x != d ==> P.Entry(t, x, z) == P.Entry(s, x, z)
  {
    hide P.Entry;
  }

  lemma ExitOnly(s: P.Space, t: P.Space, p: P.Pdes, q: P.Pdes, a: set<nat>, b: set<nat>, d: nat)
    requires P.DirEmptied(s, t, d) && P.Placed(s, p, a) && P.Placed(t, q, b) && q == p - {d}
    ensures OnlyDir(s, t, d)
  {
    hide P.Entry, P.Unshared;
  }

  /** struct mm_struct with its page directory, and the memory that all processes share. */
  class UserSpace {
    const mm: Vmm.Mm
    const mmu: P.Mmu
    const pgdir: nat

    /** mm_create and a directory from setup_pgdir. */
    constructor (mmu: P.Mmu, pgdir: nat)
      requires mmu.Valid() && pgdir in mmu.space && forall y: nat :: !P.Entry(mmu.space, pgdir, y).Present?
      ensures Valid() && this.mmu == mmu && this.pgdir == pgdir && mm.view == [] && fresh(mm) && mm.list == []
    {
      mm := new Vmm.Mm();
      this.mmu, this.pgdir := mmu, pgdir;
    }

    ghost predicate Valid()
      reads mm, mm.list, mmu
    {
      && mm.Valid() && mmu.Valid() && pgdir in mmu.space && Backed(mm.view, mmu.space, pgdir) && InUserPart(mm.view)
    }

    /** mm_unmap. No entry of the range is left present just when the start is mapped or none was. */
    method Unmap(addr: nat, len: nat) returns (ret: Vmm.Ret)
      requires Valid() && addr < 0x1_0000_0000 && len < 0x1_0000_0000
      modifies mm, mm.list, mmu
      ensures Valid() && (ret == if UserAccess(First(addr), Last(addr, len)) then Vmm.Ok else Vmm.Inval)
      ensures mm.view == if ret.Ok? then Unmapped(old(mm.view), First(addr), Last(addr, len)) else old(mm.view)
      ensures if ret.Ok? && Mapped(old(mm.view), First(addr))
                then Vacated(old(mmu.space), mmu.space, pgdir, First(addr), Last(addr, len))
                else P.SameEntries(old(mmu.space), mmu.space)
      ensures ret.Ok? ==> (Vacant(mmu.space, pgdir, First(addr), Last(addr, len)) <==>
                Mapped(old(mm.view), First(addr)) || Vacant(old(mmu.space), pgdir, First(addr), Last(addr, len)))
      ensures ret.Ok? <==> Accepts(addr, len)
      ensures ret.Ok? && Mapped(old(mm.view), addr) ==>
                && Puts(old(mm.view), mm.view, addr, len, None)
                && Emptied(old(mmu.space), mmu.space, pgdir, addr, len)
      ensures OnlyDir(old(mmu.space), mmu.space, pgdir) && mmu.space.Keys == old(mmu.space.Keys)
      ensures mmu.Lost() == old(mmu.Lost()) && mmu.ref.Keys == old(mmu.ref.Keys) && mmu.pde == old(mmu.pde)
      ensures forall k :: 0 <= k < |mm.list| ==> mm.list[k] in old(mm.list) || fresh(mm.list[k])
    {
      hide P.Entry, P.Users, P.Counted, P.Placed, P.Shaped, P.SameTables, P.SameEntries, P.Mmu.Lost, Cleared, Backed,
        InUserPart, GivesUp, Good, Vmm.Shows, First, Last, Unmapped, Mapped, Vacated, OnlyDir, Vacant, Puts, Accepts,
        Emptied;
      ghost var v, sp := mm.view, mmu.space;
      var gone;
      ret, gone := mm.Unmap(addr, len);
      if ret.Inval? {
        P.SameEntriesNone(sp);
        OnlyDirNone(sp, pgdir);
        return;
      }
      GivenInside(gone, v, First(addr), Last(addr, len));
      GiveUp(mmu, pgdir, gone);
      UnmapBacked(v, sp, mmu.space, pgdir, gone, First(addr), Last(addr, len));
      UnmapInUserPart(v, First(addr), Last(addr, len));
      P.SameTablesAt(sp, mmu.space, pgdir, {}, pgdir);
      MappedByPage(v, addr);
      if Mapped(v, First(addr)) {
        VacatedOnly(sp, mmu.space, pgdir, First(addr), Last(addr, len));
        VacatedEmptied(sp, mmu.space, pgdir, addr, len);
      } else {
        SameOnly(sp, mmu.space, pgdir, First(addr), Last(addr, len));
      }
    }

    /** mm_map. */
    method Map(addr: nat, len: nat, flags: bv32) returns (ret: Vmm.Ret)
      requires Valid() && addr < 0x1_0000_0000 && len < 0x1_0000_0000
      modifies mm
      ensures Valid() && (!ret.Ok? ==> mm.view == old(mm.view))
      ensures var s, e := First(addr), Last(addr, len);
              && (ret.Inval? <==> !UserAccess(s, e) || Mapped(old(mm.view), s))
              && (ret.Panic? <==>
                    UserAccess(s, e) && !Mapped(old(mm.view), s) && !Room(old(mm.view), Region(s, e, flags)))
      ensures ret.Ok? ==> Sets(old(mm.view), mm.view, First(addr), Last(addr, len), flags)
      ensures ret.Inval? <==> !Accepts(addr, len) || Mapped(old(mm.view), addr)
      ensures ret.Ok? ==> Puts(old(mm.view), mm.view, addr, len, Some(flags))
      ensures Covered(mmu.space, pgdir, old(mm.view)) ==> Covered(mmu.space, pgdir, mm.view)
      ensures forall k :: 0 <= k < |mm.list| ==> mm.list[k] in old(mm.list) || fresh(mm.list[k])
    {
      hide P.Entry, P.Users, P.Counted, P.Placed, P.Shaped, Backed, InUserPart, Good, Vmm.Shows, First, Last, Lookup,
        Room, Covered, Grows, Puts, Accepts;
      ghost var v := mm.view;
      ret := mm.Map(addr, len, flags);
      if ret.Ok? {
        MapBacked(v, mm.view, mmu.space, pgdir, First(addr), Last(addr, len), flags);
        SetsGrows(v, mm.view, First(addr), Last(addr, len), flags);
        CoveredMore(mmu.space, mmu.space, pgdir, v, mm.view);
      }
    }

    /** mm_brk. It leaves areas that overlap just when it succeeds without seeing what is mapped in its range. */
    method Brk(addr: nat, len: nat) returns (ret: Vmm.Ret)
      requires Valid() && addr < 0x1_0000_0000 && len < 0x1_0000_0000
      modifies mm, mm.list, mmu
      ensures Valid() <==> !ret.Ok? || Vmm.BrkSees(old(mm.view), First(addr), Last(addr, len))
      ensures ret.Inval? <==> !UserAccess(First(addr), Last(addr, len))
      ensures ret.Panic? <==>
                && !ret.Inval? && !Vmm.BrkSees(old(mm.view), First(addr), Last(addr, len))
                && !Vmm.Adjoins(old(mm.view), First(addr))
      ensures mmu.Valid() && pgdir in mmu.space && (!ret.Ok? ==> mm.view == old(mm.view))
      ensures if ret.Ok? && Vmm.BrkSees(old(mm.view), First(addr), Last(addr, len))
                then Vacated(old(mmu.space), mmu.space, pgdir, First(addr), Last(addr, len))
                  && Vmm.Becomes(old(mm.view), mm.view, First(addr), Last(addr, len))
                else P.SameEntries(old(mmu.space), mmu.space)
      ensures ret.Inval? <==> !Accepts(addr, len)
      ensures ret.Ok? && Vmm.BrkSees(old(mm.view), First(addr), Last(addr, len)) ==>
                && Puts(old(mm.view), mm.view, addr, len, Some(VM_READ | VM_WRITE))
                && Emptied(old(mmu.space), mmu.space, pgdir, addr, len)
      ensures OnlyDir(old(mmu.space), mmu.space, pgdir) && mmu.space.Keys == old(mmu.space.Keys)
      ensures Valid() && old(Covered(mmu.space, pgdir, mm.view)) ==> Covered(mmu.space, pgdir, mm.view)
      ensures mmu.Lost() == old(mmu.Lost()) && mmu.ref.Keys == old(mmu.ref.Keys) && mmu.pde == old(mmu.pde)
      ensures forall k :: 0 <= k < |mm.list| ==> mm.list[k] in old(mm.list) || fresh(mm.list[k])
    {
      hide P.Entry, P.Users, P.Counted, P.Placed, P.Shaped, P.SameTables, P.SameEntries, P.Mmu.Lost, Cleared, Backed,
        InUserPart, GivesUp, Good, Vmm.Shows, First, Last, Lookup, Vacated, Vmm.BrkSees, Vmm.Becomes, Vmm.Adjoins,
        OnlyDir, Vacant, Covered, Grows, Puts, Accepts, Emptied;
      ghost var v, sp := mm.view, mmu.space;
      var gone;
      ret, gone := mm.Brk(addr, len);
      ghost var s, e := First(addr), Last(addr, len);
      if ret.Inval? {
        P.SameEntriesNone(sp);
        OnlyDirNone(sp, pgdir);
        return;
      }
      GivenInside(gone, v, s, e);
      GiveUp(mmu, pgdir, gone);
      P.SameTablesAt(sp, mmu.space, pgdir, {}, pgdir);
      if Vmm.BrkSees(v, s, e) {
        BrkBacked(v, mm.view, sp, mmu.space, pgdir, gone, s, e);
        VacatedOnly(sp, mmu.space, pgdir, s, e);
        VacatedEmptied(sp, mmu.space, pgdir, addr, len);
        BecomesGrows(v, mm.view, s, e);
        GrownCovered(sp, mmu.space, pgdir, v, mm.view);
      } else {
        Unseen(v, s, e);
        NothingHit(v, sp, mmu.space, pgdir, gone, s, e);
        SameBacked(v, sp, mmu.space, pgdir);
        SameOnly(sp, mmu.space, pgdir, s, e);
        GrowsNone(v);
        GrownCovered(sp, mmu.space, pgdir, v, v);
      }
    }

    /** do_pgfault: a page is mapped only inside an area that allows the access. */
    method Fault(code: bv32, addr: nat) returns (ret: FaultRet, ghost page: nat)
      requires Valid() && addr < 0x1_0000_0000
      modifies mm`cache, mmu
      ensures Valid()
      ensures ret == if !Allowed(mm.view, addr, code) then Inval
                     else PageInResult(old(mmu.space), old(mmu.free), pgdir, addr / 4096)
      ensures ret.Done? ==>
                page in old(mmu.free)
                && P.OneEntry(old(mmu.space), mmu.space, pgdir, addr / 4096, FaultEntry(mm.view, addr, page))
                && Opened(Lookup(mm.view, addr).flags, FaultEntry(mm.view, addr, page).perm)
      ensures Refused(mm.view, addr, code) <==> ret.Inval?
      ensures !ret.Done? ==> P.SameEntries(old(mmu.space), mmu.space)
      ensures OnlyDir(old(mmu.space), mmu.space, pgdir) && mmu.space.Keys == old(mmu.space.Keys)
      ensures old(Covered(mmu.space, pgdir, mm.view)) ==> Covered(mmu.space, pgdir, mm.view)
      ensures mmu.Lost() == old(mmu.Lost()) && mmu.ref.Keys == old(mmu.ref.Keys)
    {
      hide P.Entry, P.Users, P.Counted, P.Placed, P.Shaped, P.SameEntries, P.Mmu.Lost, Backed, InUserPart, Good,
        Vmm.Shows, Lookup, P.OneEntry, Allowed, FaultPerm, MaybeTable, OnlyDir, Covered, Opened, Refused;
      page := 0;
      ghost var v, sp := mm.view, mmu.space;
      RefusedExactly(v, addr, code);
      var ok, flags := FindFlags(mm, code, addr);
      if !ok {
        P.SameEntriesNone(sp);
        OnlyDirNone(sp, pgdir);
        return Inval, page;
      }
      ret, page := PageIn(mmu, pgdir, addr / 4096, FaultPerm(flags));
      if ret.Done? {
        FaultBacked(v, sp, mmu.space, pgdir, addr, page);
        PermBits(flags);
        OneEntryOnly(sp, mmu.space, pgdir, addr / 4096, FaultEntry(v, addr, page));
      } else {
        SameBacked(v, sp, mmu.space, pgdir);
        SameEntriesOnly(sp, mmu.space, pgdir);
      }
      FaultOnly(sp, mmu.space, pgdir, addr / 4096);
      FaultCovered(sp, mmu.space, pgdir, v, addr);
      MaybeKeys(sp, mmu.space, pgdir, addr / 4096);
    }

    /** exit_mmap and put_pgdir: nothing of the address space stays mapped, and its directory and the tables beneath
        its areas are free again. Tables beneath no area are lost. */
    method Exit()
      requires Valid()
      modifies mmu
      ensures mmu.Valid() && P.DirEmptied(old(mmu.space), mmu.space, pgdir) && mmu.ref.Keys == old(mmu.ref.Keys)
      ensures mmu.space.Keys == old(mmu.space.Keys) - {pgdir} && mmu.pde == old(mmu.pde) - {pgdir}
      ensures OnlyDir(old(mmu.space), mmu.space, pgdir)
      ensures pgdir in old(mmu.pde) && mmu.Lost() == old(mmu.Lost()) + Orphans(old(mmu.pde)[pgdir], mm.view)
      ensures mmu.Lost() == old(mmu.Lost()) <==> old(Covered(mmu.space, pgdir, mm.view))
    {
      hide P.Entry, P.Users, P.Counted, P.Placed, P.Shaped, P.Mmu.Lost, Backed, InUserPart, Good, Vmm.Shows, CutDown,
        P.DirEmptied, Cleared, Orphans, AreRanges, P.SameTables, OnlyDir, Covered;
      ghost var sp, p, tables := mmu.space, mmu.pde, mmu.tables;
      NewlyLost(mmu, pgdir, mm.view);
      var gone := Areas(mm);
      RangesInside(gone, mm.view);
      GiveUp(mmu, pgdir, gone);
      NothingLeft(mm.view, gone, sp, mmu.space, pgdir);
      P.SameTablesAt(sp, mmu.space, pgdir, {}, pgdir);
      ExitRanges(mmu, pgdir, gone);
      LeftOver(mm.view, gone, p, mmu.pde, pgdir);
      OthersStay(p, mmu.pde, pgdir, gone);
      ghost var t := mmu.space;
      mmu.PutPgdir(pgdir);
      EndsEmpty(sp, t, mmu.space, pgdir);
      ExitOnly(sp, mmu.space, p, mmu.pde, tables, mmu.tables, pgdir);
    }
  }

  lemma Unseen(v: seq<Region>, s: nat, e: nat)
    requires !Vmm.BrkSees(v, s, e)
    ensures !Mapped(v, s)
  {
  }

  lemma GivenInside(gone: seq<Range>, v: seq<Region>, s: nat, e: nat)
    requires GivesUp(gone, v, s, e) && UserAccess(s, e)
    ensures forall x :: 0 <= x < |gone| ==> Inner(gone[x], USERBASE, USERTOP)
  {
    forall x | 0 <= x < |gone| ensures Inner(gone[x], USERBASE, USERTOP) {
      assert Inner(gone[x], s, e);
    }
  }

  /** Two address spaces of the same memory. */
  ghost predicate Two(to: UserSpace, from: UserSpace)
    reads to.mm, to.mm.list, from.mm, from.mm.list, to.mmu, from.mmu
  {
    to.Valid() && from.Valid() && to.mmu == from.mmu && to.mm != from.mm && to.pgdir != from.pgdir
  }

  /** The areas of from, from place i on, and their pages have been copied to an address space that had the areas w; m
      is the memory before. */
  ghost predicate Duplicating(to: UserSpace, from: UserSpace, m: P.Memory, w: seq<Region>, i: nat)
    reads to.mm, to.mm.list, from.mm, from.mm.list, to.mmu, from.mmu
  {
    && Two(to, from) && Vmm.Duped(to.mm, from.mm, i, w) && to.pgdir in m.space
    && AllCopied(m, to.mmu.Snapshot(), to.pgdir, from.pgdir, from.mm.view[i..])
    && var pages, have := PagesIn(m.space, from.pgdir, from.mm.view[i..]), m.space[to.pgdir].Keys;
       to.mmu.space[to.pgdir].Keys == have + P.Groups(pages) && |to.mmu.free| == |m.free| - Cost(pages, have)
  }

  lemma SaneNow(mmu: P.Mmu)
    requires mmu.Valid()
    ensures Sane(mmu.Snapshot())
  {
    hide P.Entry, P.Users, P.Counted, P.Placed, P.Shaped;
    P.ValidFree(mmu.space, mmu.ref, mmu.free, mmu.tables, mmu.content);
  }

  /** The cost of the areas from place i on, after those behind it. */
  lemma CostNext(m: P.Memory, n: P.Memory, to: nat, from: nat, v: seq<Region>, i: nat)
    requires Good(v) && i < |v| && to in m.space && to in n.space && to != from
    requires AllCopied(m, n, to, from, v[i + 1..])
    requires n.space[to].Keys == m.space[to].Keys + P.Groups(PagesIn(m.space, from, v[i + 1..]))
    ensures var a, b, have := v[i].start / 4096, v[i].end / 4096, m.space[to].Keys;
            && Cost(PagesIn(m.space, from, v[i..]), have) ==
                 Cost(PagesIn(m.space, from, v[i + 1..]), have) + P.Needed(n.space, to, from, a, b)
            && have + P.Groups(PagesIn(m.space, from, v[i..])) == P.TablesFor(n.space, to, from, a, b)
  {
    hide P.Entry, PagesIn, P.Groups, P.CopiedAt, P.KeptContent, Lookup, Good, Cost;
    var a, b := v[i].start / 4096, v[i].end / 4096;
    PagesFirst(m.space, n.space, from, v, i);
    CostJoin(PagesIn(m.space, from, v[i + 1..]), P.Pages(n.space, from, a, b), m.space[to].Keys);
    assert Cost(P.Pages(n.space, from, a, b), n.space[to].Keys) == P.Needed(n.space, to, from, a, b) by {
      CostIsNeeded(n.space, to, from, a, b);
    }
  }

  lemma CostIsNeeded(sp: P.Space, to: nat, from: nat, a: nat, b: nat)
    requires to in sp
    ensures Cost(P.Pages(sp, from, a, b), sp[to].Keys) == P.Needed(sp, to, from, a, b)
  {
  }

  /** All that copying the pages of area i changes; of them those below c have been copied, all when done. */
  lemma CopyDone(m: P.Memory, n: P.Memory, o: P.Memory, to: nat, from: nat, v: seq<Region>, w: seq<Region>,
                 fv: seq<Region>, i: nat, c: nat)
    requires Good(fv) && i < |fv| && Sets(v, w, fv[i].start, fv[i].end, fv[i].flags) && Room(v, fv[i]) && to != from
    requires Backed(v, n.space, to) && Backed(fv, n.space, from) && InUserPart(v) && InUserPart(fv)
    requires Sane(m) && Sane(n)
    requires AllCopied(m, n, to, from, fv[i + 1..]) && fv[i].start / 4096 <= c <= fv[i].end / 4096
    requires P.MoreTables(n.space, o.space, to, fv[i].start / 4096, fv[i].end / 4096)
    requires P.Copied(n, o, to, from, fv[i].start / 4096, c)
    ensures Backed(w, o.space, to) && Backed(fv, o.space, from) && InUserPart(w) && OnlyDir(n.space, o.space, to)
    ensures o.space.Keys == n.space.Keys && (Covered(n.space, to, v) ==> Covered(o.space, to, w))
    ensures c == fv[i].end / 4096 ==> AllCopied(m, o, to, from, fv[i..])
  {
    hide P.Entry, Backed, InUserPart, Good, Lookup, Room, AllCopied, P.Copied, P.MoreTables, Sane, OnlyDir, Covered,
      Sets;
    Vmm.ProperAt(fv, i);
    P.MoreKeys(n.space, o.space, to, fv[i].start / 4096, fv[i].end / 4096);
    MoreIn(n.space, o.space, to, fv[i].start / 4096, fv[i].end / 4096);
    DupCovered(n.space, o.space, to, v, w, fv[i]);
    CopyBacked(v, w, fv, i, n, o, to, from, c);
    OnlyDirMore(n, o, to, from, fv[i].start / 4096, fv[i].end / 4096, c);
    RoomIsEmpty(v, n.space, to, fv[i]);
    if c == fv[i].end / 4096 {
      CopiedMore(m, n, o, to, from, fv, i);
    }
  }

  lemma SetsArea(v: seq<Region>, w: seq<Region>, r: Region)
    requires forall a: nat :: Lookup(w, a) == if In(r, a) then Some(r.flags) else Lookup(v, a)
    ensures Sets(v, w, r.start, r.end, r.flags)
  {
    hide Lookup;
  }

  lemma MoreIn(s: P.Space, t: P.Space, d: nat, a: nat, b: nat)
    requires P.MoreTables(s, t, d, a, b)
    ensures d in s
  {
  }

  /** The body of the loop of dup_mmap: the area, and then its pages. */
  method DupOne(to: UserSpace, from: UserSpace, i: nat, ghost m: P.Memory, ghost w: seq<Region>) returns (ret: P.Ret)
    requires i < |from.mm.list| && Duplicating(to, from, m, w, i + 1) && Sane(m)
    modifies to.mm, to.mmu
    ensures Two(to, from) && i < |from.mm.view| && to.pgdir in m.space
    ensures ret.Ok? ==> Duplicating(to, from, m, w, i)
    ensures !ret.Ok? ==>
              !Room(w, from.mm.view[i])
              || |m.free| < Cost(PagesIn(m.space, from.pgdir, from.mm.view[i..]), m.space[to.pgdir].Keys)
    ensures to.mmu.Lost() == old(to.mmu.Lost()) && to.mmu.ref.Keys == old(to.mmu.ref.Keys)
    ensures OnlyDir(old(to.mmu.space), to.mmu.space, to.pgdir) && P.OneRow(old(to.mmu.pde), to.mmu.pde, to.pgdir)
    ensures old(Covered(to.mmu.space, to.pgdir, to.mm.view)) ==> Covered(to.mmu.space, to.pgdir, to.mm.view)
    ensures forall k :: 0 <= k < |to.mm.list| ==> to.mm.list[k] in old(to.mm.list) || fresh(to.mm.list[k])
  {
    hide P.Entry, P.Users, P.Mmu.Valid, P.Mmu.Lost, Backed, InUserPart, Good, Vmm.Shows, Lookup, Room,
      AllCopied, PagesIn, Cost, P.Groups, Vmm.Duped, P.Copied, P.Needed, P.TablesFor, P.MoreTables, Sane, P.StopsAt,
      OnlyDir, Covered, P.OneRow, Sets;
    ghost var n, v, fv := to.mmu.Snapshot(), to.mm.view, from.mm.view;
    var ok := Vmm.DupArea(to.mm, from.mm, i, w);
    if !ok {
      OnlyDirNone(n.space, to.pgdir);
      P.OneRowNone(to.mmu.pde, to.pgdir);
      return P.Panic;
    }
    SetsArea(v, to.mm.view, fv[i]);
    Vmm.AllShown(from.mm.list, fv);
    Vmm.ProperAt(fv, i);
    RegionPages(fv[i], 0);
    RoomIsEmpty(v, n.space, to.pgdir, fv[i]);
    CostNext(m, n, to.pgdir, from.pgdir, fv, i);
    SaneNow(to.mmu);
    var start: nat, end: nat := from.mm.list[i].start / 4096, from.mm.list[i].end / 4096;
    ret := to.mmu.CopyRange(to.pgdir, from.pgdir, start, end);
    ghost var o := to.mmu.Snapshot();
    ghost var c: nat := end;
    if !ret.Ok? {
      c :| start <= c < end && P.Copied(n, o, to.pgdir, from.pgdir, start, c);
    }
    CopyDone(m, n, o, to.pgdir, from.pgdir, v, to.mm.view, fv, i, c);
  }

  lemma DupStarts(to: UserSpace, from: UserSpace)
    requires Two(to, from)
    ensures Duplicating(to, from, to.mmu.Snapshot(), to.mm.view, |from.mm.view|)
  {
    hide P.Entry, P.Users, P.Counted, P.Placed, P.Shaped, Backed, InUserPart, Good, Vmm.Shows, Lookup, Vmm.Duped,
      AllCopied;
    var m := to.mmu.Snapshot();
    assert from.mm.view[|from.mm.view|..] == [];
    Vmm.NoneDuped(to.mm, from.mm);
    NoneCopied(m, to.pgdir, from.pgdir);
    NoPages(m.space, from.pgdir);
  }

  lemma NoPages(sp: P.Space, d: nat)
    ensures PagesIn(sp, d, []) == {} && P.Groups({}) == {} && forall have: set<nat> :: Cost({}, have) == 0
  {
    hide P.Entry;
    forall have: set<nat> ensures Cost({}, have) == 0 {
      assert P.Groups({}) - have == {};
    }
  }

  lemma WholeCost(sp: P.Space, to: nat, from: nat, v: seq<Region>, i: nat)
    requires to in sp && Backed(v, sp, from) && i <= |v|
    ensures Cost(PagesIn(sp, from, v), sp[to].Keys) == P.Needed(sp, to, from, 0, P.NPAGES)
    ensures Cost(PagesIn(sp, from, v[i..]), sp[to].Keys) <= P.Needed(sp, to, from, 0, P.NPAGES)
  {
    hide P.Entry, PagesIn, P.Groups, Cost, P.Pages, P.Needed, Backed;
    PagesOfAreas(sp, from, v);
    CostIsNeeded(sp, to, from, 0, P.NPAGES);
    FewerPages(sp, from, v, i);
    CostMono(PagesIn(sp, from, v[i..]), PagesIn(sp, from, v), sp[to].Keys);
  }

  /** The child has a copy of its own of every page that the parent had. */
  ghost predicate FullCopy(m: P.Memory, n: P.Memory, to: nat, from: nat) {
    forall y: nat :: P.Entry(m.space, from, y).Present? ==> P.CopiedAt(m, n, to, from, y)
  }

  /** So the child may do with a page of its own what the parent may with its page: it is writable just when that of
      the parent is, is the user's just when that is, and has the very flags of a page that a fault has mapped. */
  lemma CopyAllowsTheSame(m: P.Memory, n: P.Memory, to: nat, from: nat, y: nat)
    requires FullCopy(m, n, to, from) && P.Entry(m.space, from, y).Present?
    ensures var e, f := P.Entry(m.space, from, y), P.Entry(n.space, to, y);
            && f.Present? && (f.perm & 2 != 0 <==> e.perm & 2 != 0) && (f.perm & 4 != 0 <==> e.perm & 4 != 0)
            && forall flags :: Opened(flags, e.perm) ==> f.perm == e.perm
  {
    hide P.Entry, P.Users;
    var e, f := P.Entry(m.space, from, y), P.Entry(n.space, to, y);
    assert P.CopiedAt(m, n, to, from, y);
    forall flags | Opened(flags, e.perm) ensures f.perm == e.perm {
      P.RightsEqual(e.perm, f.perm);
    }
  }

  lemma AreasHoldAll(m: P.Memory, n: P.Memory, to: nat, from: nat, v: seq<Region>)
    requires AllCopied(m, n, to, from, v) && Backed(v, m.space, from)
    ensures FullCopy(m, n, to, from)
  {
    hide P.Entry, P.CopiedAt, Lookup;
    forall y: nat | P.Entry(m.space, from, y).Present? ensures P.CopiedAt(m, n, to, from, y) {
      assert BackedAt(v, P.Entry(m.space, from, y), y);
    }
  }

  lemma DupEnds(to: UserSpace, from: UserSpace, m: P.Memory, w: seq<Region>)
    requires Duplicating(to, from, m, w, 0) && Backed(from.mm.view, m.space, from.pgdir)
    ensures FullCopy(m, to.mmu.Snapshot(), to.pgdir, from.pgdir) && Vmm.AllRoom(from.mm.view, w)
    ensures AllCopied(m, to.mmu.Snapshot(), to.pgdir, from.pgdir, from.mm.view)
    ensures Vmm.Joins(to.mm.view, from.mm.view, w) && (w == [] ==> to.mm.view == from.mm.view)
    ensures P.Needed(m.space, to.pgdir, from.pgdir, 0, P.NPAGES) <= |m.free|
    ensures |to.mmu.free| == |m.free| - P.Needed(m.space, to.pgdir, from.pgdir, 0, P.NPAGES)
  {
    hide P.Entry, P.Users, P.Counted, P.Placed, P.Shaped, Backed, InUserPart, Good, Vmm.Shows, Lookup, AllCopied, Room,
      PagesIn, P.Groups, Cost, P.Needed, FullCopy, Vmm.Joins;
    assert from.mm.view[0..] == from.mm.view;
    WholeCost(m.space, to.pgdir, from.pgdir, from.mm.view, 0);
    AreasHoldAll(m, to.mmu.Snapshot(), to.pgdir, from.pgdir, from.mm.view);
  }

  /** dup_mmap: it succeeds just when the areas do not overlap any the child has and enough pages are free, and then the
      child has the areas of the parent and a copy of its own of every page. */
  method DupMmap(to: UserSpace, from: UserSpace) returns (ret: P.Ret)
    requires Two(to, from)
    modifies to.mm, to.mmu
    ensures Two(to, from)
    ensures ret.Ok? <==>
              && Vmm.AllRoom(from.mm.view, old(to.mm.view))
              && P.Needed(old(to.mmu.space), to.pgdir, from.pgdir, 0, P.NPAGES) <= |old(to.mmu.free)|
    ensures ret.Ok? ==>
              && FullCopy(old(to.mmu.Snapshot()), to.mmu.Snapshot(), to.pgdir, from.pgdir)
              && AllCopied(old(to.mmu.Snapshot()), to.mmu.Snapshot(), to.pgdir, from.pgdir, from.mm.view)
              && Vmm.Joins(to.mm.view, from.mm.view, old(to.mm.view))
              && (old(to.mm.view) == [] ==> to.mm.view == from.mm.view)
              && |to.mmu.free| == |old(to.mmu.free)| - P.Needed(old(to.mmu.space), to.pgdir, from.pgdir, 0, P.NPAGES)
    ensures to.mmu.Lost() == old(to.mmu.Lost()) && to.mmu.ref.Keys == old(to.mmu.ref.Keys)
    ensures OnlyDir(old(to.mmu.space), to.mmu.space, to.pgdir) && P.OneRow(old(to.mmu.pde), to.mmu.pde, to.pgdir)
    ensures old(Covered(to.mmu.space, to.pgdir, to.mm.view)) ==> Covered(to.mmu.space, to.pgdir, to.mm.view)
    ensures forall k :: 0 <= k < |to.mm.list| ==> to.mm.list[k] in old(to.mm.list) || fresh(to.mm.list[k])
  {
    hide P.Entry, P.Users, P.Counted, P.Placed, P.Shaped, P.Mmu.Lost, Backed, InUserPart, Good, Vmm.Shows, Lookup, Room,
      AllCopied, PagesIn, Cost, P.Groups, Vmm.Duped, Sane, OnlyDir, Covered, P.Needed, Vmm.Joins, FullCopy,
      P.OneRow;
    ghost var m, w, fv := to.mmu.Snapshot(), to.mm.view, from.mm.view;
    Vmm.AllShown(from.mm.list, fv);
    DupStarts(to, from);
    SaneNow(to.mmu);
    OnlyDirNone(m.space, to.pgdir);
    P.OneRowNone(to.mmu.pde, to.pgdir);
    var i := |from.mm.list|;
    ret := P.Ok;
    while i > 0
      invariant 0 <= i <= |from.mm.list| == |fv| && Duplicating(to, from, m, w, i) && ret.Ok?
      invariant to.mmu.Lost() == old(to.mmu.Lost()) && to.mmu.ref.Keys == old(to.mmu.ref.Keys)
      invariant OnlyDir(m.space, to.mmu.space, to.pgdir) && P.OneRow(old(to.mmu.pde), to.mmu.pde, to.pgdir)
      invariant old(Covered(to.mmu.space, to.pgdir, to.mm.view)) ==> Covered(to.mmu.space, to.pgdir, to.mm.view)
      invariant forall k :: 0 <= k < |to.mm.list| ==> to.mm.list[k] in old(to.mm.list) || fresh(to.mm.list[k])
    {
      i := i - 1;
      ghost var t, p := to.mmu.space, to.mmu.pde;
      ret := DupOne(to, from, i, m, w);
      OnlyDirTwice(m.space, t, to.mmu.space, to.pgdir);
      P.OneRowTwice(old(to.mmu.pde), p, to.mmu.pde, to.pgdir);
      if !ret.Ok? {
        WholeCost(m.space, to.pgdir, from.pgdir, fv, i);
        return;
      }
    }
    DupEnds(to, from, m, w);
  }

  // ---------- fork ----------

  /** The free pages that a copy of the address space of d takes: a directory, and tables and pages like those of d. */
  ghost function ForkCost(sp: P.Space, d: nat): nat {
    1 + Cost(P.Pages(sp, d, 0, P.NPAGES), {})
  }

  lemma ForkNeeds(s: P.Space, d: nat, from: nat)
    requires d !in s
    ensures var dir: P.Dir := map[];
            P.Needed(s[d := dir], d, from, 0, P.NPAGES) == ForkCost(s, from) - 1
  {
    var dir: P.Dir := map[];
    var t := s[d := dir];
    forall y: nat ensures P.Entry(t, from, y) == P.Entry(s, from, y) {
    }
    assert P.Pages(t, from, 0, P.NPAGES) == P.Pages(s, from, 0, P.NPAGES);
  }

  lemma NewDirEmpty(s: P.Space, d: nat)
    requires d !in s
    ensures var dir: P.Dir := map[];
            var t := s[d := dir];
            && OnlyDir(s, t, d) && P.SameEntries(s, t) && (forall y: nat :: !P.Entry(t, d, y).Present?)
            && Covered(t, d, [])
  {
  }

  /** A copy of the memory after setup_pgdir is a copy of that before. */
  lemma CopyOfBefore(m: P.Memory, k: P.Memory, n: P.Memory, to: nat, from: nat)
    requires FullCopy(k, n, to, from) && P.SameEntries(m.space, k.space) && k.free <= m.free && Sane(m)
    requires P.KeptContent(m.content, k.content, m.free)
    requires forall y: nat :: P.Entry(m.space, from, y).Present? ==> y < P.NPAGES
    ensures FullCopy(m, n, to, from)
  {
    hide P.Entry, P.Users;
    forall y: nat | P.Entry(m.space, from, y).Present? ensures P.CopiedAt(m, n, to, from, y) {
      var e := P.Entry(m.space, from, y);
      assert P.CopiedAt(k, n, to, from, y);
      P.IsUser(m.space, e.page, from, y);
      P.KeptAt(m.content, k.content, m.free, e.page);
    }
  }

  lemma BackedBound(mm: Vmm.Mm, sp: P.Space, d: nat)
    requires mm.Valid() && Backed(mm.view, sp, d)
    ensures forall y: nat :: P.Entry(sp, d, y).Present? ==> y < P.NPAGES
  {
    hide P.Entry, Lookup, Vmm.Shows;
    var v := mm.view;
    forall y: nat | P.Entry(sp, d, y).Present? ensures y < P.NPAGES {
      assert BackedAt(v, P.Entry(sp, d, y), y);
      LookupNone(v, y * 4096);
      var k :| 0 <= k < |v| && In(v[k], y * 4096);
      assert Proper(v[k]);
    }
  }

  lemma RowsBack(p: P.Pdes, q: P.Pdes, r: P.Pdes, d: nat)
    requires d !in p
    requires var row: P.Row := map[]; q == p[d := row]
    requires P.OneRow(q, r, d)
    ensures r - {d} == p
  {
  }

  /** The free pages are those that hold no table or directory and are mapped nowhere. */
  ghost predicate FreeRest(free: set<nat>, pages: set<nat>, pde: P.Pdes, sp: P.Space) {
    forall p: nat :: p in free <==> p in pages && !P.Leads(pde, p) && P.Users(sp, p) == {}
  }

  lemma NoneLost(mmu: P.Mmu)
    requires mmu.Valid()
    ensures mmu.Lost() == {} ==> FreeRest(mmu.free, mmu.ref.Keys, mmu.pde, mmu.space)
  {
    hide P.Users, P.Leads, P.Counted, P.Placed, P.Shaped, P.Mmu.Lost;
    if mmu.Lost() == {} {
      forall p: nat ensures p in mmu.free <==> p in mmu.ref && !P.Leads(mmu.pde, p) && P.Users(mmu.space, p) == {} {
        P.FreeExactly(mmu, p);
      }
    }
  }

  /** With the same mappings, tables and directories, the same pages are free. */
  lemma SameFree(s: P.Space, t: P.Space, f: set<nat>, g: set<nat>, pages: set<nat>, pde: P.Pdes)
    requires P.SameEntries(s, t) && FreeRest(f, pages, pde, s) && FreeRest(g, pages, pde, t)
    ensures f == g
  {
    hide P.Entry, P.Users, P.Leads;
    P.SameUsers(s, t);
  }

  /** The child of a fork that ran out of memory is taken down again: nothing stays of it. */
  method TakeDown(child: UserSpace, from: UserSpace, ghost s: P.Space, ghost f: set<nat>, ghost p: P.Pdes)
    requires Two(child, from) && child.pgdir !in s && child.pgdir !in p && child.mmu.pde - {child.pgdir} == p
    requires Covered(child.mmu.space, child.pgdir, child.mm.view) && OnlyDir(s, child.mmu.space, child.pgdir)
    requires child.mmu.Lost() == {} ==> FreeRest(f, child.mmu.ref.Keys, p, s)
    modifies child.mmu
    ensures from.Valid() && P.SameEntries(s, child.mmu.space) && child.mmu.pde == p && child.mmu.space.Keys == s.Keys
    ensures child.mmu.Lost() == old(child.mmu.Lost()) && child.mmu.ref.Keys == old(child.mmu.ref.Keys)
    ensures child.mmu.Lost() == {} ==> child.mmu.free == f
  {
    hide P.Entry, P.Users, P.Counted, P.Placed, P.Shaped, P.Mmu.Lost, Backed, InUserPart, Good, Vmm.Shows, Covered,
      P.DirEmptied, Orphans, FreeRest, P.SameEntries;
    ghost var mmu, u := child.mmu, child.mmu.space;
    child.Exit();
    BackTo(s, u, mmu.space, child.pgdir);
    ExitBacked(from.mm.view, u, mmu.space, child.pgdir, from.pgdir);
    NoneLost(mmu);
    if mmu.Lost() == {} {
      SameFree(s, mmu.space, f, mmu.free, mmu.ref.Keys, p);
    }
  }

  lemma ExitBacked(v: seq<Region>, u: P.Space, w: P.Space, d: nat, x: nat)
    requires Backed(v, u, x) && x != d && P.DirEmptied(u, w, d)
    ensures Backed(v, w, x)
  {
    hide P.Entry, Lookup;
    forall y: nat ensures BackedAt(v, P.Entry(w, x, y), y) {
      assert BackedAt(v, P.Entry(u, x, y), y);
    }
  }

  lemma BackTo(s: P.Space, u: P.Space, w: P.Space, d: nat)
    requires (forall x, y: nat :: x != d ==> P.Entry(u, x, y) == P.Entry(s, x, y)) && P.DirEmptied(u, w, d) && d !in s
    ensures P.SameEntries(s, w)
  {
    forall y: nat ensures P.Entry(s, d, y) == P.Zero {
    }
    forall x, y: nat ensures P.Entry(w, x, y) == P.Entry(s, x, y) {
      assert P.Entry(w, x, y) == if x == d then P.Zero else P.Entry(u, x, y);
    }
  }

  /** mm_create and setup_pgdir: a new address space without areas; null when there is no page for its directory. */
  method NewSpace(mmu: P.Mmu) returns (u: UserSpace?)
    requires mmu.Valid()
    modifies mmu
    ensures mmu.Valid() && mmu.Lost() == old(mmu.Lost()) && mmu.ref.Keys == old(mmu.ref.Keys)
    ensures u == null <==> old(mmu.free) == {}
    ensures u == null ==> mmu.space == old(mmu.space) && mmu.free == old(mmu.free) && mmu.pde == old(mmu.pde)
    ensures u != null ==>
              && fresh(u) && fresh(u.mm) && u.mm.list == [] && u.mmu == mmu && u.Valid() && u.mm.view == []
              && u.pgdir !in old(mmu.space) && OnlyDir(old(mmu.space), mmu.space, u.pgdir)
              && Covered(mmu.space, u.pgdir, u.mm.view) && mmu.space == old(mmu.space)[u.pgdir := map[]]
              && mmu.pde == old(mmu.pde)[u.pgdir := map[]] && mmu.free == old(mmu.free) - {u.pgdir}
              && |mmu.free| == |old(mmu.free)| - 1
    ensures P.SameEntries(old(mmu.space), mmu.space) && P.KeptContent(old(mmu.content), mmu.content, old(mmu.free))
  {
    hide P.Entry, P.Users, P.Counted, P.Placed, P.Shaped, P.Mmu.Lost, Backed, InUserPart, Good, Vmm.Shows, Covered,
      P.SameEntries, OnlyDir, P.KeptContent;
    ghost var s := mmu.space;
    u := null;
    var d := mmu.SetupPgdir();
    if d != -1 {
      NewDirEmpty(s, d);
      u := new UserSpace(mmu, d);
    }
  }

  lemma InPlace(mmu: P.Mmu)
    requires mmu.Valid()
    ensures P.Placed(mmu.space, mmu.pde, mmu.tables)
  {
  }

  /** copy_mm without CLONE_VM. */
  method Fork(from: UserSpace) returns (ret: P.Ret, child: UserSpace?)
    requires from.Valid()
    modifies from.mmu
    ensures from.Valid() && (ret.Ok? <==> ForkCost(old(from.mmu.space), from.pgdir) <= |old(from.mmu.free)|)
    ensures ret.Ok? <==> child != null
    ensures child != null ==>
              && fresh(child) && fresh(child.mm) && fresh(child.mm.list) && Two(child, from)
              && child.mm.view == from.mm.view && child.pgdir !in old(from.mmu.space)
              && OnlyDir(old(from.mmu.space), from.mmu.space, child.pgdir)
              && Covered(from.mmu.space, child.pgdir, child.mm.view)
              && FullCopy(old(from.mmu.Snapshot()), from.mmu.Snapshot(), child.pgdir, from.pgdir)
              && |from.mmu.free| == |old(from.mmu.free)| - ForkCost(old(from.mmu.space), from.pgdir)
    ensures ret.NoMem? ==>
              && P.SameEntries(old(from.mmu.space), from.mmu.space) && from.mmu.pde == old(from.mmu.pde)
              && from.mmu.space.Keys == old(from.mmu.space.Keys)
              && (from.mmu.Lost() == {} ==> from.mmu.free == old(from.mmu.free))
    ensures from.mmu.Lost() == old(from.mmu.Lost()) && from.mmu.ref.Keys == old(from.mmu.ref.Keys)
  {
    hide P.Entry, P.Users, P.Mmu.Valid, P.Placed, P.Mmu.Lost, Vmm.Mm.Valid, Backed, InUserPart, Good, Covered, FreeRest,
      P.SameEntries, OnlyDir, P.OneRow, FullCopy, AllCopied, Vmm.Joins, Sane, Room, P.KeptContent, P.Needed, ForkCost,
      P.Leads;
    var mmu := from.mmu;
    ghost var m, p := mmu.Snapshot(), mmu.pde;
    NoneLost(mmu);
    SaneNow(mmu);
    InPlace(mmu);
    P.PlacedAt(m.space, p, mmu.tables, from.pgdir);
    BackedBound(from.mm, m.space, from.pgdir);
    child := NewSpace(mmu);
    if child == null {
      NoRoomToFork(m.space, from.pgdir, m.free);
      return P.NoMem, null;
    }
    ghost var k, q, d := mmu.Snapshot(), mmu.pde, child.pgdir;
    ForkNeeds(m.space, d, from.pgdir);
    SameBacked(from.mm.view, m.space, k.space, from.pgdir);
    Vmm.NoneInTheWay(from.mm.view, []);
    ret := DupMmap(child, from);
    OnlyDirTwice(m.space, k.space, mmu.space, d);
    RowsBack(p, q, mmu.pde, d);
    if ret.Ok? {
      CopyOfBefore(m, k, mmu.Snapshot(), d, from.pgdir);
      return;
    }
    if ret.NoMem? {
      TakeDown(child, from, m.space, m.free, p);
    }
    child := null;
  }

  lemma NoRoomToFork(sp: P.Space, d: nat, free: set<nat>)
    requires free == {}
    ensures ForkCost(sp, d) > |free|
  {
  }

  // ---------- a page that is lost ----------

  lemma NothingMapped(v: seq<Region>, s: nat, e: nat, flags: bv32)
    requires Good(v) && s < e && Sets([], v, s, e, flags)
    ensures Mapped(v, s) && forall a: nat :: !Mapped(Unmapped(v, s, e), a)
  {
    hide Cut;
    forall a: nat ensures !Mapped(Unmapped(v, s, e), a) {
      CutLookup(v, s, e, a);
      assert Lookup([], a) == None;
    }
    assert Lookup(v, s) == Some(flags);
  }

  lemma NoneCovered(mmu: P.Mmu, d: nat, v: seq<Region>, i: nat)
    requires mmu.Valid() && d in mmu.pde && i in mmu.pde[d] && forall a: nat :: !Mapped(v, a)
    ensures d in mmu.space && !Covered(mmu.space, d, v)
  {
    hide P.Counted, P.Shaped, Lookup, P.Unshared;
    assert !Covers(v, i);
  }

  lemma PresentNow(mmu: P.Mmu, s: P.Space, d: nat, y: nat, e: P.Pte)
    requires mmu.Valid() && P.OneEntry(s, mmu.space, d, y, e) && e.Present?
    ensures d in mmu.pde && y / 1024 in mmu.pde[d]
  {
    hide P.Counted, P.Shaped, P.Unshared;
    assert P.Entry(mmu.space, d, y) == e;
    P.PlacedAt(mmu.space, mmu.pde, mmu.tables, d);
  }

  lemma FirstFault(sp: P.Space, free: set<nat>, d: nat, y: nat)
    requires d in sp && sp[d] == map[] && |free| >= 2
    ensures PageInResult(sp, free, d, y) == Done
  {
  }

  lemma WriteAllowed(v: seq<Region>, s: nat, e: nat)
    requires Sets([], v, s, e, VM_READ | VM_WRITE) && s < e
    ensures Allowed(v, s, 2)
  {
    assert Lookup(v, s) == Some(VM_READ | VM_WRITE);
    assert (1 as bv32 | 2) & 2 == 2 && 2 as bv32 & 3 == 2;
  }

  lemma FreeAtFirst(r: Region)
    ensures !Mapped([], r.start) && Room([], r)
  {
  }

  lemma GoodNow(mm: Vmm.Mm)
    requires mm.Valid()
    ensures Good(mm.view)
  {
  }

  /** mm_unmap does not give back a table, and exit_mmap looks for tables only beneath areas: a process that unmaps the
      only area over a table loses the page of that table when it ends. */
  method TableLost(pages: set<nat>) returns (mmu: P.Mmu)
    requires |pages| >= 3
    ensures mmu.Valid() && mmu.ref.Keys == pages && mmu.Lost() != {}
  {
    hide P.Mmu.Valid, P.Mmu.Lost, Vmm.Mm.Valid, Backed, InUserPart, OnlyDir, P.Entry, Covered, Unmapped, Vacated,
      Vacant, P.SameEntries, P.KeptContent, First, Last, Sets, P.DirEmptied, Orphans, Good, PageInResult, Allowed,
      P.OneEntry, Lookup;
    mmu := new P.Mmu(pages);
    var u := NewSpace(mmu);
    WholePages(0x80_0000, 0x80_1000);
    FreeAtFirst(Region(0x80_0000, 0x80_1000, VM_READ | VM_WRITE));
    var ret := u.Map(0x80_0000, 0x1000, VM_READ | VM_WRITE);
    ghost var v, s := u.mm.view, mmu.space;
    GoodNow(u.mm);
    NothingMapped(v, 0x80_0000, 0x80_1000, VM_READ | VM_WRITE);
    WriteAllowed(v, 0x80_0000, 0x80_1000);
    FirstFault(s, mmu.free, u.pgdir, 0x800);
    var fault;
    ghost var page;
    fault, page := u.Fault(2, 0x80_0000);
    PresentNow(mmu, s, u.pgdir, 0x800, FaultEntry(v, 0x80_0000, page));
    ret := u.Unmap(0x80_0000, 0x1000);
    NoneCovered(mmu, u.pgdir, u.mm.view, 2);
    u.Exit();
  }
}
