/** The list of virtual memory areas of a process (kern/mm/vmm.c). */
module Vmm {
  import opened VmaSpec

  /** The return codes, and the failure of a kernel assertion. */
  datatype Ret = Ok | Inval | Panic

  /** struct vma_struct. */
  class Vma {
    var start: nat
    var end: nat
    const flags: bv32

    /** vma_create. */
    constructor (start: nat, end: nat, flags: bv32)
      ensures this.start == start && this.end == end && this.flags == flags
    {
      this.start, this.end, this.flags := start, end, flags;
    }

    ghost function Region(): VmaSpec.Region
      reads this
    {
      VmaSpec.Region(start, end, flags)
    }
  }

  ghost predicate Apart(list: seq<Vma>) {
    forall i, j :: 0 <= i < j < |list| ==> list[i] != list[j]
  }

  ghost predicate Shows(list: seq<Vma>, v: seq<Region>)
    reads list
  {
    |list| == |v| && Apart(list) && forall i :: 0 <= i < |list| ==> list[i].Region() == v[i]
  }

  /** The assertions of check_vma_overlap. */
  predicate NoOverlap(prev: Vma, next: Vma)
    reads prev, next
  {
    prev.start < prev.end && prev.end <= next.start && next.start < next.end
  }

  lemma StillIn(list: seq<Vma>, k: nat)
    requires k < |list|
    ensures forall x :: x in list && x != list[k] ==> x in list[..k] + list[k + 1..]
  {
    var w := list[..k] + list[k + 1..];
    forall x | x in list && x != list[k] ensures x in w {
      var i :| 0 <= i < |list| && list[i] == x;
      assert w[if i < k then i else i - 1] == x;
    }
  }

  lemma DropOneVma(l: seq<Vma>, i: nat, j: nat)
    requires i <= j < |l|
    ensures var w := l[..i] + l[j..]; w[i] == l[j] && w[..i] + w[i + 1..] == l[..i] + l[j + 1..]
  {
  }

  lemma DropOne(v: seq<Region>, i: nat, j: nat)
    requires i <= j < |v|
    ensures var w := v[..i] + v[j..]; w[i] == v[j] && Without(w, i) == v[..i] + v[j + 1..]
  {
  }

  /** The areas of l from i to j, last one first. */
  ghost predicate Backwards(taken: seq<Vma>, l: seq<Vma>, i: nat, j: nat) {
    i <= j <= |l| && |taken| == j - i && forall m :: 0 <= m < |taken| ==> taken[m] == l[j - 1 - m]
  }

  lemma NoneTaken(l: seq<Vma>, i: nat)
    requires i <= |l|
    ensures Backwards([], l, i, i)
  {
  }

  lemma OneMore(taken: seq<Vma>, l: seq<Vma>, i: nat, j: nat)
    requires Backwards(taken, l, i, j) && j < |l|
    ensures Backwards([l[j]] + taken, l, i, j + 1)
  {
  }

  lemma Whole(l: seq<Vma>, v: seq<Region>, i: nat)
    requires i <= |l| == |v|
    ensures l == l[..i] + l[i..] && v == v[..i] + v[i..]
  {
  }

  lemma ProperAt(v: seq<Region>, k: nat)
    requires Good(v) && k < |v|
    ensures Proper(v[k])
  {
  }

  ghost predicate Touched(r: Region, s: nat, e: nat) {
    r.start < e && s < r.end && !(r.start < s && e < r.end)
  }

  lemma PartlyStart(v: seq<Region>, i: nat, j: nat, s: nat, e: nat)
    requires i <= j <= |v|
    ensures Partly(v, i, j, j, s, e) == v[..i] + v[j..]
  {
    assert v[..i] + [] + v[j..] == v[..i] + v[j..];
  }

  lemma ShownApart(l: seq<Vma>, v: seq<Region>)
    requires Shows(l, v)
    ensures |l| == |v| && Apart(l) && forall k :: 0 <= k < |l| ==> l[k].Region() == v[k]
  {
  }

  lemma SplitIn(l: seq<Vma>, i: nat, j: nat)
    requires i <= j <= |l|
    ensures forall x :: x in l[..i] + l[j..] ==> x in l[..i] || x in l[j..]
  {
  }

  lemma FromBehind(taken: seq<Vma>, l: seq<Vma>, i: nat, j: nat, m: nat)
    requires Backwards(taken, l, i, j) && m < |taken|
    ensures i <= j - 1 - m < j <= |l| && |taken| == j - i && taken[m] == l[j - 1 - m]
  {
  }

  lemma TakenLength(taken: seq<Vma>, l: seq<Vma>, i: nat, j: nat)
    requires Backwards(taken, l, i, j)
    ensures i <= j <= |l| && |taken| == j - i
  {
  }

  lemma Elsewhere(l: seq<Vma>, list: seq<Vma>, i: nat, n: nat)
    requires Apart(l) && i < n <= |l| && forall x :: x in list ==> x in l[..i] || x in l[n..]
    ensures l[n - 1] !in list
  {
    assert l[n - 1] !in l[..i] && l[n - 1] !in l[n..];
  }

  lemma InTail(l: seq<Vma>, n: nat)
    requires 0 < n <= |l|
    ensures l[n - 1..] == [l[n - 1]] + l[n..]
  {
  }

  lemma FoundMapped(v: seq<Region>, i: nat, a: nat)
    requires Good(v) && i < |v| && In(v[i], a)
    ensures Mapped(v, a) && Lookup(v, a) == Some(v[i].flags)
  {
    forall j: nat | j < i ensures !In(v[j], a) {
      assert v[j].end <= v[i].start;
    }
    LookupAt(v, a, i);
  }

  lemma OnePlace(l: seq<Vma>, v: seq<Region>, i: nat, j: nat)
    requires Shows(l, v) && i < |l| && j < |l| && l[i] == l[j]
    ensures i == j
  {
  }

  lemma OutsideCut(v: seq<Region>, i: nat, j: nat, s: nat, e: nat)
    requires Good(v) && i < j <= |v| && In(v[i], s) && (j < |v| ==> e <= v[j].start)
    ensures forall k :: 0 <= k < i ==> v[k].end <= s
    ensures forall k :: j <= k < |v| ==> e <= v[k].start
  {
    forall k: nat | k < i ensures v[k].end <= s {
      assert v[k].end <= v[i].start;
    }
    forall k: nat | j <= k < |v| ensures e <= v[k].start {
      assert j < k ==> v[j].end <= v[k].start && Proper(v[j]);
    }
  }

  /** From the area at the start of the range to the first one behind it, no area holds the whole range. */
  lemma AroundCut(v: seq<Region>, i: nat, j: nat, s: nat, e: nat)
    requires Good(v) && i < j <= |v| && In(v[i], s) && s < e && !(v[i].start < s && e < v[i].end)
    requires (forall m :: i <= m < j ==> v[m].start < e) && (j < |v| ==> e <= v[j].start)
    ensures forall m :: i <= m < j ==> Touched(v[m], s, e)
    ensures Partly(v, i, i, j, s, e) == Cut(v, s, e)
  {
    forall m: nat | i <= m < j ensures Touched(v[m], s, e) {
      assert i < m ==> v[i].end <= v[m].start && Proper(v[m]);
    }
    OutsideCut(v, i, j, s, e);
    CutMid(v, i, j, s, e);
  }

  /** The clipped regions that mm_unmap takes out, last one first. */
  ghost predicate Clips(gone: seq<Range>, v: seq<Region>, i: nat, j: nat, s: nat, e: nat) {
    i <= j <= |v| && |gone| == j - i && forall m :: 0 <= m < |gone| ==> gone[m] == Clip(v[j - 1 - m], s, e)
  }

  lemma ClipsGiveUp(gone: seq<Range>, v: seq<Region>, i: nat, j: nat, s: nat, e: nat)
    requires Good(v) && i < j <= |v| && In(v[i], s) && (j < |v| ==> e <= v[j].start) && Clips(gone, v, i, j, s, e)
    requires s % 4096 == 0 && e % 4096 == 0 && forall m :: i <= m < j ==> Touched(v[m], s, e)
    ensures GivesUp(gone, v, s, e)
  {
    FoundMapped(v, i, s);
    forall x: nat | x < |gone| ensures Inner(gone[x], s, e) {
      assert Touched(v[j - 1 - x], s, e) && Proper(v[j - 1 - x]);
    }
    forall a: nat ensures Hit(gone, a) <==> s <= a < e && Mapped(v, a) {
      ClipsHit(gone, v, i, j, s, e, a);
    }
  }

  lemma ClipsHit(gone: seq<Range>, v: seq<Region>, i: nat, j: nat, s: nat, e: nat, a: nat)
    requires Good(v) && i < j <= |v| && In(v[i], s) && (j < |v| ==> e <= v[j].start) && Clips(gone, v, i, j, s, e)
    ensures Hit(gone, a) <==> s <= a < e && Mapped(v, a)
  {
    hide Lookup, Good;
    if Hit(gone, a) {
      var x :| 0 <= x < |gone| && gone[x].start <= a < gone[x].end;
      FoundMapped(v, j - 1 - x, a);
    }
    if s <= a < e && Mapped(v, a) {
      LookupNone(v, a);
      var m :| 0 <= m < |v| && In(v[m], a);
      OutsideCut(v, i, j, s, e);
      assert gone[j - 1 - m] == Clip(v[m], s, e);
    }
  }

  lemma HoleGivesUp(v: seq<Region>, i: nat, s: nat, e: nat)
    requires Good(v) && i < |v| && v[i].start < s < e < v[i].end && s % 4096 == 0 && e % 4096 == 0
    ensures GivesUp([Range(s, e)], v, s, e)
  {
    var gone := [Range(s, e)];
    forall a: nat | s <= a < e ensures Mapped(v, a) && Hit(gone, a) {
      FoundMapped(v, i, a);
      assert gone[0].start <= a < gone[0].end;
    }
  }

  lemma NothingGivenUp(v: seq<Region>, s: nat, e: nat)
    requires !Mapped(v, s)
    ensures GivesUp([], v, s, e)
  {
  }

  lemma AddedLookup(v: seq<Region>, k: nat, r: Region, a: nat)
    requires Room(v, r) && k <= |v|
    ensures Lookup(With(v, k, r), a) == if In(r, a) then Some(r.flags) else Lookup(v, a)
  {
    if In(r, a) { RoomMeansFree(v, r, a); }
    WithLookup(v, k, r, a);
  }

  lemma RestAllowed(v: seq<Region>, i: nat, s: nat, write: bool)
    requires Good(v) && i < |v| && In(v[i], s) && Allows(v[i], s, write)
    ensures forall a: nat :: s <= a < v[i].end ==> Accessible(v, a, write)
  {
    forall a: nat | s <= a < v[i].end ensures Accessible(v, a, write) {
      assert In(v[i], a) && Allows(v[i], a, write);
    }
  }

  /** In w the range [s, e) is ordinary memory, and all else is as in v. */
  ghost predicate Becomes(v: seq<Region>, w: seq<Region>, s: nat, e: nat) {
    forall a: nat :: Lookup(w, a) == if s <= a < e then Some(VM_READ | VM_WRITE) else Lookup(v, a)
  }

  lemma BecomesPuts(v: seq<Region>, w: seq<Region>, addr: nat, len: nat)
    requires addr < 0x1_0000_0000 && len < 0x1_0000_0000 && UserAccess(First(addr), Last(addr, len))
    requires Becomes(v, w, First(addr), Last(addr, len))
    ensures Puts(v, w, addr, len, Some(VM_READ | VM_WRITE))
  {
    PutsExactly(v, w, addr, len, Some(VM_READ | VM_WRITE));
  }

  /** Some area of ordinary memory ends at s. */
  ghost predicate Adjoins(v: seq<Region>, s: nat) {
    exists i :: 0 <= i < |v| && v[i].end == s && v[i].flags == VM_READ | VM_WRITE
  }

  /** mm_brk sees all that is mapped in its range. */
  ghost predicate BrkSees(v: seq<Region>, s: nat, e: nat) {
    Mapped(v, s) || Room(v, Region(s, e, VM_READ | VM_WRITE))
  }

  lemma ExtendBecomes(v: seq<Region>, i: nat, s: nat, e: nat)
    requires Good(v) && i < |v| && v[i].end == s < e && v[i].flags == VM_READ | VM_WRITE
    requires Room(v, Region(s, e, VM_READ | VM_WRITE))
    ensures Becomes(v, v[i := Region(v[i].start, e, v[i].flags)], s, e)
  {
    forall a: nat { ExtendLookup(v, i, e, a); }
  }

  lemma AddedBecomes(v: seq<Region>, k: nat, s: nat, e: nat)
    requires Good(v) && k <= |v| && s < e && Room(v, Region(s, e, VM_READ | VM_WRITE))
    ensures Becomes(v, With(v, k, Region(s, e, VM_READ | VM_WRITE)), s, e)
  {
    var r := Region(s, e, VM_READ | VM_WRITE);
    forall a: nat ensures Lookup(With(v, k, r), a) == if s <= a < e then Some(VM_READ | VM_WRITE) else Lookup(v, a) {
      AddedLookup(v, k, r, a);
    }
  }

  /** When the area in front of s, if any, is not ordinary memory that ends there, none is. */
  lemma NoneAdjoins(v: seq<Region>, s: nat, i: nat)
    requires Good(v) && s > 0 && i <= |v| && (i == |v| ==> !Mapped(v, s - 1))
    requires i < |v| ==> In(v[i], s - 1) && !(v[i].end == s && v[i].flags == VM_READ | VM_WRITE)
    ensures !Adjoins(v, s)
  {
    if j :| 0 <= j < |v| && v[j].end == s && v[j].flags == VM_READ | VM_WRITE {
      assert Proper(v[j]);
      FoundMapped(v, j, s - 1);
    }
  }

  lemma BrkUnmapped(v: seq<Region>, u: seq<Region>, s: nat, e: nat)
    requires Good(v) && Good(u) && s < e && u == Unmapped(v, s, e)
    ensures BrkSees(v, s, e) ==> Room(u, Region(s, e, VM_READ | VM_WRITE))
    ensures !BrkSees(v, s, e) ==> u == v && !Room(u, Region(s, e, VM_READ | VM_WRITE))
  {
    if BrkSees(v, s, e) {
      Emptied(v, u, s, e);
    }
  }

  lemma BecomesAfter(v: seq<Region>, u: seq<Region>, w: seq<Region>, s: nat, e: nat)
    requires Good(v) && Good(u) && s < e && u == Unmapped(v, s, e) && BrkSees(v, s, e) && Becomes(u, w, s, e)
    ensures Becomes(v, w, s, e)
  {
    hide Good, Room;
    Emptied(v, u, s, e);
  }

  lemma Emptied(v: seq<Region>, u: seq<Region>, s: nat, e: nat)
    requires Good(v) && Good(u) && s < e && u == Unmapped(v, s, e) && BrkSees(v, s, e)
    ensures Room(u, Region(s, e, VM_READ | VM_WRITE))
    ensures forall a: nat :: !(s <= a < e) ==> Lookup(u, a) == Lookup(v, a)
  {
    if Mapped(v, s) {
      forall a: nat ensures Lookup(u, a) == if s <= a < e then None else Lookup(v, a) {
        CutLookup(v, s, e, a);
      }
      FreeMeansRoom(u, Region(s, e, VM_READ | VM_WRITE));
    }
  }

  lemma BeforeRest(v: seq<Region>, i: nat)
    requires Good(v) && i < |v|
    ensures Room(v[i + 1..], v[i]) && (i + 1 < |v| ==> v[i].start < v[i + 1..][0].start)
    ensures v[i..] == [v[i]] + v[i + 1..] && With(v[i + 1..], 0, v[i]) == v[i..]
  {
    assert Proper(v[i]);
    var w := v[i + 1..];
    forall k: nat | k < |w| ensures Disjoint(w[k], v[i]) {
      assert w[k] == v[i + 1 + k];
    }
  }

  lemma ShowsWith(l: seq<Vma>, v: seq<Region>, k: nat, vma: Vma)
    requires Shows(l, v) && k <= |l| && vma !in l
    ensures Shows(l[..k] + [vma] + l[k..], With(v, k, vma.Region()))
  {
    var m, w := l[..k] + [vma] + l[k..], With(v, k, vma.Region());
    forall i | 0 <= i < |m|
        ensures m[i].Region() == w[i] && m[i] == if i < k then l[i] else if i == k then vma else l[i - 1] {
    }
  }

  lemma AllShown(l: seq<Vma>, v: seq<Region>)
    requires Shows(l, v)
    ensures |l| == |v| && forall m :: 0 <= m < |l| ==>
              l[m].start == v[m].start && l[m].end == v[m].end && l[m].flags == v[m].flags
  {
    forall m | 0 <= m < |l| ensures l[m].start == v[m].start && l[m].end == v[m].end && l[m].flags == v[m].flags {
      assert l[m].Region() == v[m];
    }
  }

  /** struct mm_struct. */
  class Mm {
    var list: seq<Vma>
    var cache: Vma?
    var mapCount: int
    ghost var view: seq<Region>

    /** mm_create. */
    constructor ()
      ensures Valid() && view == [] && list == []
    {
      list, cache, mapCount, view := [], null, 0, [];
    }

    ghost predicate Listed()
      reads this, list
    {
      Shows(list, view) && (cache != null ==> cache in list) && mapCount == |list|
    }

    ghost predicate Valid()
      reads this, list
    {
      Listed() && Good(view)
    }

    /** find_vma: the area that contains the address, from the cache or by scanning the list. */
    method FindVma(address: nat) returns (vma: Vma?, ghost i: nat)
      requires Valid()
      modifies `cache
      ensures Valid() && cache == if vma != null then vma else old(cache)
      ensures vma == null ==> !Mapped(view, address)
      ensures vma != null ==> i < |list| && vma == list[i] && In(view[i], address)
    {
      hide Good, Lookup;
      i := 0;
      vma := cache;
      if vma == null || !(vma.start <= address < vma.end) {
        vma := null;
        var k := 0;
        while k < |list|
          invariant k <= |list| && vma == null && forall j :: 0 <= j < k ==> !In(view[j], address)
        {
          assert list[k].Region() == view[k];
          if list[k].start <= address < list[k].end {
            vma, i := list[k], k;
            break;
          }
          k := k + 1;
        }
        LookupNone(view, address);
      } else {
        i :| 0 <= i < |list| && list[i] == vma;
      }
      if vma != null {
        cache := vma;
      }
    }

    /** insert_vma_struct: false when one of the overlap assertions fails, which the neighbours alone decide. */
    method InsertVma(vma: Vma) returns (ok: bool, ghost k: nat)
      requires Valid() && vma !in list
      modifies this
      ensures Listed() && (Valid() <==> !ok || Proper(vma.Region())) && cache == old(cache)
      ensures ok <==> vma.start < vma.end && Room(old(view), vma.Region())
      ensures k <= |old(list)| == |old(view)| && (!ok ==> view == old(view) && list == old(list))
      ensures ok ==> view == With(old(view), k, vma.Region()) && list == old(list)[..k] + [vma] + old(list)[k..]
      ensures vma.start < vma.end ==>
                && (forall i :: 0 <= i < k ==> old(view)[i].start <= vma.start)
                && (k < |old(view)| ==> vma.start < old(view)[k].start)
    {
      hide Good, Shows, Room;
      AllShown(list, view);
      ok, k := false, 0;
      if vma.start >= vma.end {
        return;
      }
      var place := FindPlace(vma);
      k := place;
      NeighboursDecide(view, vma.Region(), k);
      if k > 0 { ProperAt(view, k - 1); }
      if k < |list| { ProperAt(view, k); }
      ok := (place > 0 ==> NoOverlap(list[place - 1], vma)) && (place < |list| ==> NoOverlap(vma, list[place]));
      if ok {
        WithGood(view, k, vma.Region());
        ShowsWith(list, view, k, vma);
        list, view := list[..place] + [vma] + list[place..], With(view, k, vma.Region());
        mapCount := mapCount + 1;
      }
    }

    /** The loop of insert_vma_struct. */
    method FindPlace(vma: Vma) returns (k: nat)
      requires Valid()
      ensures k <= |list| && (forall i :: 0 <= i < k ==> view[i].start <= vma.start)
      ensures (k < |list| ==> vma.start < view[k].start)
    {
      k := 0;
      while k < |list|
        invariant k <= |list| && forall i :: 0 <= i < k ==> view[i].start <= vma.start
      {
        assert list[k].Region() == view[k];
        if list[k].start > vma.start {
          break;
        }
        k := k + 1;
      }
    }

    /** remove_vma_struct, of the area at place k. */
    method RemoveVma(k: nat)
      requires Valid() && k < |list|
      modifies this
      ensures Valid() && view == Without(old(view), k) && list == old(list)[..k] + old(list)[k + 1..]
      ensures cache == if old(cache) == old(list)[k] then null else old(cache)
    {
      WithoutGood(view, k);
      if cache == list[k] {
        cache := null;
      }
      ghost var before := list;
      list, view := list[..k] + list[k + 1..], Without(view, k);
      mapCount := mapCount - 1;
      StillIn(before, k);
    }

    // ---------- mm_unmap ----------

    /** vma_resize, of the area at place i. */
    method Resize(i: nat, start: nat, end: nat)
      requires Valid() && i < |list| && Proper(Region(start, end, view[i].flags)) && view[i].start <= start
      requires end <= view[i].end
      modifies `view, list[i]
      ensures Valid() && view == old(view)[i := Region(start, end, old(view)[i].flags)]
    {
      ShrinkGood(view, i, Region(start, end, view[i].flags));
      var vma := list[i];
      assert vma.Region() == view[i];
      vma.start, vma.end := start, end;
      view := view[i := Region(start, end, view[i].flags)];
    }

    /** A hole inside one area: the area keeps what is behind the hole, a new one takes what is in front. */
    method PunchHole(i: nat, start: nat, end: nat)
      requires Valid() && i < |list| && view[i].start < start < end < view[i].end && start % 4096 == 0
      requires end % 4096 == 0
      modifies this, list[i]
      ensures Valid() && view == Cut(old(view), start, end)
      ensures forall k :: 0 <= k < |list| ==> list[k] in old(list) || fresh(list[k])
    {
      hide Good, Shows, Room, Cut;
      ghost var v := view;
      AllShown(list, v);
      ProperAt(v, i);
      CutHole(v, i, start, end);
      var vma := list[i];
      var nvma := new Vma(vma.start, start, vma.flags);
      Resize(i, end, vma.end);
      HoleRoom(v, i, start, end);
      ghost var w := view;
      AllShown(list, w);
      assert w[i].start == end;
      var ok;
      ghost var k;
      ok, k := InsertVma(nvma);
      assert k == i;
    }

    /** The areas of l from i to j have been taken out. */
    ghost predicate Removed(l: seq<Vma>, v: seq<Region>, i: nat, j: nat)
      reads this, list
    {
      Valid() && i <= j <= |l| == |v| && list == l[..i] + l[j..] && view == v[..i] + v[j..]
    }

    method TakeOne(ghost l: seq<Vma>, ghost v: seq<Region>, i: nat, ghost j: nat)
      requires Removed(l, v, i, j) && j < |l|
      modifies this
      ensures Removed(l, v, i, j + 1)
    {
      hide Good;
      DropOne(v, i, j);
      DropOneVma(l, i, j);
      RemoveVma(i);
    }

    /** The first loop of mm_unmap: the areas from place i on that start before end are taken out; list_add puts the
        last one taken in front. */
    method TakeOut(i: nat, end: nat, ghost l: seq<Vma>, ghost v: seq<Region>) returns (taken: seq<Vma>, ghost j: nat)
      requires Valid() && i < |list| && view[i].start < end && l == list && v == view
      modifies this
      ensures i < j <= |l| && Removed(l, v, i, j)
      ensures Backwards(taken, l, i, j)
      ensures (forall m :: i <= m < j ==> v[m].start < end) && (j < |v| ==> end <= v[j].start)
    {
      hide Good, Shows, Backwards;
      NoneTaken(l, i);
      taken, j := [], i;
      AllShown(l, v);
      Whole(l, v, i);
      var vma := list[i];
      while vma.start < end
        invariant i <= j < |l| && Removed(l, v, i, j) && vma == l[j] && (j == i ==> vma.start < end)
        invariant Backwards(taken, l, i, j)
        invariant forall m :: i <= m < j ==> v[m].start < end
        decreases |l| - j
      {
        TakeOne(l, v, i, j);
        OneMore(taken, l, i, j);
        taken := [vma] + taken;
        j := j + 1;
        if i == |list| {
          break;
        }
        vma := list[i];
      }
    }

    /** The body of the second loop of mm_unmap, for the area that region n - 1 of v shows: it is trimmed and put
        back, or dropped; the pages of the part that goes are to be unmapped. */
    method PutBackOne(vma: Vma, start: nat, end: nat, ghost v: seq<Region>, ghost i: nat, ghost n: nat, ghost j: nat)
      returns (gone: Range)
      requires Valid() && Good(v) && i < n <= j <= |v| && view == Partly(v, i, n, j, start, end)
      requires vma !in list && vma.Region() == v[n - 1] && start < end && start % 4096 == 0 && end % 4096 == 0
      requires vma.start < end && start < vma.end && !(vma.start < start && end < vma.end)
      modifies this, vma
      ensures Valid() && view == Partly(v, i, n - 1, j, start, end) && cache == old(cache)
      ensures gone == Clip(v[n - 1], start, end)
      ensures forall x :: x in list ==> x in old(list) || x == vma
    {
      hide Good, Partly, Cut, Shows;
      ProperAt(v, n - 1);
      PartlyStep(v, i, n, j, start, end);
      ghost var l := list;
      var again := true;
      if vma.start < start {
        gone := Range(start, vma.end);
        vma.end := start;
      } else if end < vma.end {
        gone := Range(vma.start, end);
        vma.start := end;
      } else {
        gone := Range(vma.start, vma.end);
        again := false;
      }
      if again {
        PartlyRoom(v, i, n, j, start, end, vma.Region());
        var ok;
        ghost var k;
        ok, k := InsertVma(vma);
        assert Pieces(v[n - 1], start, end) == [vma.Region()];
        assert k == i;
      }
    }

    /** The second loop of mm_unmap. */
    method PutBack(taken: seq<Vma>, start: nat, end: nat, ghost l: seq<Vma>, ghost v: seq<Region>, ghost i: nat,
                   ghost j: nat)
      returns (gone: seq<Range>)
      requires Removed(l, v, i, j) && Backwards(taken, l, i, j) && Shows(l, v) && Good(v)
      requires start < end && start % 4096 == 0 && end % 4096 == 0
      requires forall m :: i <= m < j ==> Touched(v[m], start, end)
      modifies this, l
      ensures Valid() && view == Partly(v, i, i, j, start, end) && forall k :: 0 <= k < |list| ==> list[k] in l
      ensures Clips(gone, v, i, j, start, end)
    {
      hide Good, Partly, Cut, Shows, Backwards;
      gone := [];
      ghost var n := j;
      PartlyStart(v, i, j, start, end);
      ShownApart(l, v);
      SplitIn(l, i, j);
      TakenLength(taken, l, i, j);
      for m := 0 to |taken|
        invariant n == j - m && i <= n && Valid() && view == Partly(v, i, n, j, start, end)
        invariant forall k :: 0 <= k < n ==> l[k].Region() == v[k]
        invariant forall x :: x in list ==> x in l[..i] || x in l[n..]
        invariant Clips(gone, v, n, j, start, end)
      {
        FromBehind(taken, l, i, j, m);
        var vma := taken[m];
        Elsewhere(l, list, i, n);
        var part := PutBackOne(vma, start, end, v, i, n, j);
        gone := gone + [part];
        InTail(l, n);
        n := n - 1;
      }
      forall k | 0 <= k < |list| ensures list[k] in l {
        assert list[k] in l[..i] || list[k] in l[i..];
      }
    }

    /** mm_unmap, past the rounding and the check of the range. The ranges given up are those that it passes to
        unmap_range. */
    method UnmapRange(start: nat, end: nat) returns (gone: seq<Range>)
      requires Valid() && start < end && start % 4096 == 0 && end % 4096 == 0
      modifies this, list
      ensures Valid() && view == Unmapped(old(view), start, end) && GivesUp(gone, old(view), start, end)
      ensures forall k :: 0 <= k < |list| ==> list[k] in old(list) || fresh(list[k])
    {
      hide Good, Cut, Shows, Partly, Backwards, Lookup, GivesUp, Clips;
      ghost var l, v := list, view;
      var vma;
      ghost var at;
      vma, at := FindVma(start);
      if vma == null {
        NothingGivenUp(v, start, end);
        return [];
      }
      AllShown(l, v);
      FoundMapped(v, at, start);
      var i :| 0 <= i < |list| && list[i] == vma;
      OnePlace(l, v, at, i);
      if vma.start < start && end < vma.end {
        HoleGivesUp(v, i, start, end);
        PunchHole(i, start, end);
        return [Range(start, end)];
      }
      var taken;
      ghost var j;
      taken, j := TakeOut(i, end, l, v);
      AroundCut(v, i, j, start, end);
      gone := PutBack(taken, start, end, l, v, i, j);
      ClipsGiveUp(gone, v, i, j, start, end);
    }

    /** mm_unmap. */
    method Unmap(addr: nat, len: nat) returns (ret: Ret, gone: seq<Range>)
      requires Valid() && addr < 0x1_0000_0000 && len < 0x1_0000_0000
      modifies this, list
      ensures if ret.Ok? then GivesUp(gone, old(view), First(addr), Last(addr, len)) else gone == []
      ensures Valid() && (ret == if UserAccess(First(addr), Last(addr, len)) then Ok else Inval)
      ensures view == if ret.Ok? then Unmapped(old(view), First(addr), Last(addr, len)) else old(view)
      ensures ret.Ok? <==> Accepts(addr, len)
      ensures ret.Ok? && Mapped(old(view), addr) ==> Puts(old(view), view, addr, len, None)
      ensures forall k :: 0 <= k < |list| ==> list[k] in old(list) || fresh(list[k])
    {
      hide Good, Shows, First, Last, Unmapped, GivesUp, Puts, Mapped, Accepts;
      Pages(addr, len);
      AcceptsExactly(addr, len);
      var start, end := First(addr), Last(addr, len);
      if !UserAccess(start, end) {
        return Inval, [];
      }
      UnmapPuts(view, addr, len);
      gone := UnmapRange(start, end);
      ret := Ok;
    }

    /** mm_map. The start must be free; a mapping that begins later in the range fails an assertion. */
    method Map(addr: nat, len: nat, flags: bv32) returns (ret: Ret)
      requires Valid() && addr < 0x1_0000_0000 && len < 0x1_0000_0000
      modifies this
      ensures Valid()
      ensures var s, e := First(addr), Last(addr, len);
              && (ret.Inval? <==> !UserAccess(s, e) || Mapped(old(view), s))
              && (ret.Panic? <==> UserAccess(s, e) && !Mapped(old(view), s) && !Room(old(view), Region(s, e, flags)))
              && (!ret.Ok? ==> view == old(view))
              && (ret.Ok? ==>
                    forall a: nat :: Lookup(view, a) == if s <= a < e then Some(flags) else Lookup(old(view), a))
      ensures ret.Inval? <==> !Accepts(addr, len) || Mapped(old(view), addr)
      ensures ret.Ok? ==> Puts(old(view), view, addr, len, Some(flags))
      ensures forall k :: 0 <= k < |list| ==> list[k] in old(list) || fresh(list[k])
    {
      hide Good, Shows, Lookup, Room, First, Last, Puts, Accepts;
      Pages(addr, len);
      AcceptsExactly(addr, len);
      MappedByPage(view, addr);
      var start, end := First(addr), Last(addr, len);
      if !UserAccess(start, end) {
        return Inval;
      }
      var vma;
      ghost var i;
      vma, i := FindVma(start);
      if vma != null {
        AllShown(list, view);
        FoundMapped(view, i, start);
        return Inval;
      }
      var nvma := new Vma(start, end, flags);
      var ok;
      ghost var k;
      ok, k := InsertVma(nvma);
      if !ok {
        return Panic;
      }
      forall a: nat ensures Lookup(view, a) == if start <= a < end then Some(flags) else Lookup(old(view), a) {
        AddedLookup(old(view), k, Region(start, end, flags), a);
      }
      PutsExactly(old(view), view, addr, len, Some(flags));
      ret := Ok;
    }

    /** user_mem_check of a process: every byte of the range can be accessed. */
    method UserMemCheck(addr: nat, len: nat, write: bool) returns (ok: bool)
      requires Valid() && addr < 0x1_0000_0000 && len < 0x1_0000_0000
      modifies `cache
      ensures Valid()
      ensures var end := (addr + len) % 0x1_0000_0000;
              ok <==> UserAccess(addr, end) && forall a: nat :: addr <= a < end ==> Accessible(view, a, write)
    {
      hide Good, Shows;
      var start, end := addr, (addr + len) % 0x1_0000_0000;
      if !UserAccess(start, end) {
        return false;
      }
      while start < end
        invariant Valid() && addr <= start && forall a: nat :: addr <= a < end && a < start ==>
                    Accessible(view, a, write)
        decreases end - start
      {
        var vma;
        ghost var i;
        vma, i := FindVma(start);
        if vma == null {
          LookupNone(view, start);
          assert !Accessible(view, start, write);
          return false;
        }
        AllShown(list, view);
        OneRegion(view, i, start, write);
        if vma.flags & (if write then VM_WRITE else VM_READ) == 0 {
          return false;
        }
        if write && vma.flags & VM_STACK != 0 {
          if start < vma.start + 4096 {
            return false;
          }
        }
        RestAllowed(view, i, start, write);
        start := vma.end;
      }
      ok := true;
    }

    method SetEnd(vma: Vma, end: nat, ghost i: nat)
      requires Listed() && i < |list| && vma == list[i]
      modifies `view, vma
      ensures Listed() && view == old(view)[i := Region(old(view)[i].start, end, old(view)[i].flags)]
    {
      assert vma.Region() == view[i];
      vma.end := end;
      view := view[i := Region(view[i].start, end, view[i].flags)];
    }

    /** mm_brk, past the check of the range and the unmapping: the range becomes part of the area below it if that is
        ordinary memory, or an area of its own. Only the latter checks that the range is free. */
    method Grow(start: nat, end: nat) returns (ret: Ret)
      requires Valid() && UserAccess(start, end) && start % 4096 == 0 && end % 4096 == 0
      modifies this, list
      ensures Room(old(view), Region(start, end, VM_READ | VM_WRITE)) ==>
                ret.Ok? && Valid() && Becomes(old(view), view, start, end)
      ensures !Room(old(view), Region(start, end, VM_READ | VM_WRITE)) ==>
                Listed() && if Adjoins(old(view), start) then ret.Ok? && !Good(view)
                    else ret.Panic? && view == old(view)
      ensures forall k :: 0 <= k < |list| ==> list[k] in old(list) || fresh(list[k])
    {
      hide Good, Shows, Lookup, Room;
      ghost var l, v, r := list, view, Region(start, end, VM_READ | VM_WRITE);
      var flags := VM_READ | VM_WRITE;
      var vma;
      ghost var i;
      vma, i := FindVma(start - 1);
      AllShown(l, v);
      ret := Ok;
      if vma != null && vma.end == start && vma.flags == flags {
        ExtendGood(v, i, end);
        SetEnd(vma, end, i);
        if Room(v, r) {
          ExtendBecomes(v, i, start, end);
        }
        return;
      }
      NoneAdjoins(v, start, if vma == null then |v| else i);
      var nvma := new Vma(start, end, flags);
      var ok;
      ghost var k;
      ok, k := InsertVma(nvma);
      if !ok {
        return Panic;
      }
      AddedBecomes(v, k, start, end);
    }

    /** mm_brk: the range becomes ordinary memory, whatever was mapped there. As in mm_unmap, a mapping that begins
        behind an unmapped start is not seen. If there is one, the areas come to overlap when the area below the range
        is ordinary memory, and an assertion fails when it is not. */
    method Brk(addr: nat, len: nat) returns (ret: Ret, gone: seq<Range>)
      requires Valid() && addr < 0x1_0000_0000 && len < 0x1_0000_0000
      modifies this, list
      ensures Listed() && (ret.Inval? <==> !UserAccess(First(addr), Last(addr, len)))
      ensures if ret.Inval? then gone == [] else GivesUp(gone, old(view), First(addr), Last(addr, len))
      ensures (!ret.Ok? ==> view == old(view))
      ensures !ret.Inval? && BrkSees(old(view), First(addr), Last(addr, len)) ==>
                ret.Ok? && Valid() && Becomes(old(view), view, First(addr), Last(addr, len))
      ensures !ret.Inval? && !BrkSees(old(view), First(addr), Last(addr, len)) ==>
                if Adjoins(old(view), First(addr)) then ret.Ok? && !Good(view) else ret.Panic?
      ensures ret.Inval? <==> !Accepts(addr, len)
      ensures ret.Ok? && BrkSees(old(view), First(addr), Last(addr, len)) ==>
                Puts(old(view), view, addr, len, Some(VM_READ | VM_WRITE))
      ensures forall k :: 0 <= k < |list| ==> list[k] in old(list) || fresh(list[k])
    {
      hide Good, Shows, Room, First, Last, Unmapped, Becomes, Adjoins, GivesUp, Puts, Accepts;
      Pages(addr, len);
      AcceptsExactly(addr, len);
      var start, end := First(addr), Last(addr, len);
      if !UserAccess(start, end) {
        return Inval, [];
      }
      WholePages(start, end);
      ret, gone := Unmap(start, end - start);
      ghost var v := view;
      BrkUnmapped(old(view), v, start, end);
      ret := Grow(start, end);
      if BrkSees(old(view), start, end) {
        BecomesAfter(old(view), v, view, start, end);
        BecomesPuts(old(view), view, addr, len);
      }
    }
  }

  /** u holds the mappings of v and, where there are none, those of w. */
  ghost predicate Joins(u: seq<Region>, v: seq<Region>, w: seq<Region>) {
    && (forall a: nat :: Lookup(u, a) == if Mapped(v, a) then Lookup(v, a) else Lookup(w, a))
    && (forall r: Region :: Room(u, r) <==> Room(v, r) && Room(w, r))
  }

  lemma JoinsNone(w: seq<Region>)
    ensures Joins(w, [], w)
  {
  }

  lemma RoomWith(v: seq<Region>, k: nat, x: Region, r: Region)
    requires k <= |v|
    ensures Room(With(v, k, x), r) <==> Room(v, r) && Disjoint(x, r)
  {
    var w := With(v, k, x);
    assert w[k] == x;
    forall i: nat | i < |v| ensures v[i] == w[if i < k then i else i + 1] {
    }
    forall i: nat | i < |w| ensures w[i] == if i < k then v[i] else if i == k then x else v[i - 1] {
    }
  }

  lemma JoinsMore(u: seq<Region>, v: seq<Region>, w: seq<Region>, k: nat, x: Region)
    requires Joins(u, v, w) && k <= |u| && Room(u, x)
    ensures Joins(With(u, k, x), [x] + v, w)
  {
    hide Room, With;
    forall a: nat ensures Lookup(With(u, k, x), a) == if Mapped([x] + v, a) then Lookup([x] + v, a) else Lookup(w, a) {
      AddedLookup(u, k, x, a);
      assert ([x] + v)[1..] == v;
    }
    forall r: Region ensures Room(With(u, k, x), r) <==> Room([x] + v, r) && Room(w, r) {
      RoomWith(u, k, x, r);
      RoomWith(v, 0, x, r);
      assert With(v, 0, x) == [x] + v by { FrontWith(v, x); }
    }
  }

  lemma FrontWith(v: seq<Region>, x: Region)
    ensures With(v, 0, x) == [x] + v
  {
    assert v[..0] == [];
  }

  /** The areas of v do not overlap those of w. */
  ghost predicate AllRoom(v: seq<Region>, w: seq<Region>) {
    forall i :: 0 <= i < |v| ==> Room(w, v[i])
  }

  /** Of the areas of from, those from place i on have been copied to an address space that held those of w. */
  ghost predicate Duped(to: Mm, from: Mm, i: nat, w: seq<Region>)
    reads to, to.list, from, from.list
  {
    && to.Valid() && from.Valid() && i <= |from.view| && Joins(to.view, from.view[i..], w)
    && (w == [] ==> to.view == from.view[i..]) && forall k :: i <= k < |from.view| ==> Room(w, from.view[k])
  }

  lemma NoneDuped(to: Mm, from: Mm)
    requires to.Valid() && from.Valid()
    ensures Duped(to, from, |from.view|, to.view)
  {
    hide Good, Shows;
    assert from.view[|from.view|..] == [];
    JoinsNone(to.view);
  }

  /** The body of the loop of dup_mmap, but for the copying of pages. */
  method DupArea(to: Mm, from: Mm, i: nat, ghost w: seq<Region>) returns (ok: bool)
    requires to != from && i < |from.list| && Duped(to, from, i + 1, w)
    modifies to
    ensures to.Valid() && from.Valid() && i < |from.view| && (ok <==> Room(w, from.view[i]))
    ensures ok ==> Duped(to, from, i, w) && Room(old(to.view), from.view[i])
    ensures !ok ==> to.view == old(to.view)
    ensures ok ==> forall a: nat ::
              Lookup(to.view, a) == if In(from.view[i], a) then Some(from.view[i].flags) else Lookup(old(to.view), a)
    ensures forall k :: 0 <= k < |to.list| ==> to.list[k] in old(to.list) || fresh(to.list[k])
  {
    hide Good, Shows, Joins, Room, Lookup;
    AllShown(from.list, from.view);
    ProperAt(from.view, i);
    var vma := from.list[i];
    var nvma := new Vma(vma.start, vma.end, vma.flags);
    BeforeRest(from.view, i);
    ghost var k, u := 0, to.view;
    RoomJoined(u, from.view[i + 1..], w, from.view[i]);
    ok, k := to.InsertVma(nvma);
    if ok {
      JoinsMore(u, from.view[i + 1..], w, k, from.view[i]);
      forall a: nat ensures Lookup(to.view, a) ==
          if In(from.view[i], a) then Some(from.view[i].flags) else Lookup(u, a) {
        AddedLookup(u, k, from.view[i], a);
      }
    }
  }

  lemma RoomJoined(u: seq<Region>, v: seq<Region>, w: seq<Region>, r: Region)
    requires Joins(u, v, w) && Room(v, r)
    ensures Room(u, r) <==> Room(w, r)
  {
  }

  lemma NoneInTheWay(v: seq<Region>, w: seq<Region>)
    ensures w == [] ==> AllRoom(v, w)
  {
  }

  lemma MappedAndCut(v: seq<Region>, w: seq<Region>, r: Region)
    requires Good(w) && r.start < r.end && Room(v, r)
    requires forall a: nat :: Lookup(w, a) == if r.start <= a < r.end then Some(r.flags) else Lookup(v, a)
    ensures forall a: nat :: Lookup(Unmapped(w, r.start, r.end), a) == Lookup(v, a)
  {
    assert In(r, r.start) && Mapped(w, r.start);
    forall a: nat ensures Lookup(Unmapped(w, r.start, r.end), a) == Lookup(v, a) {
      CutLookup(w, r.start, r.end, a);
      if In(r, a) {
        RoomMeansFree(v, r, a);
      }
    }
  }

  /** What mm_map has mapped, mm_unmap removes again, and nothing else. */
  method MapThenUnmap(m: Mm, addr: nat, len: nat, flags: bv32) returns (ret: Ret)
    requires m.Valid() && addr < 0x1_0000_0000 && len < 0x1_0000_0000
    modifies m, m.list
    ensures m.Valid() && forall a: nat :: Lookup(m.view, a) == Lookup(old(m.view), a)
  {
    hide Good, Shows, Lookup, Room, First, Last, Unmapped;
    ghost var v := m.view;
    ret := m.Map(addr, len, flags);
    if ret.Ok? {
      MappedAndCut(v, m.view, Region(First(addr), Last(addr, len), flags));
      var gone;
      ret, gone := m.Unmap(addr, len);
    }
  }

  /** So mm_brk can leave areas that overlap. */
  lemma BrkOverlaps()
    ensures var v := [Region(0x80_0000, 0x80_1000, VM_READ | VM_WRITE), Region(0x80_2000, 0x80_3000, VM_READ)];
            && Good(v) && Unmapped(v, 0x80_1000, 0x80_3000) == v && !BrkSees(v, 0x80_1000, 0x80_3000)
            && Adjoins(v, 0x80_1000)
            && !Good(v[0 := Region(0x80_0000, 0x80_3000, VM_READ | VM_WRITE)])
  {
    var v := [Region(0x80_0000, 0x80_1000, VM_READ | VM_WRITE), Region(0x80_2000, 0x80_3000, VM_READ)];
    LookupNone(v, 0x80_1000);
    var w := v[0 := Region(0x80_0000, 0x80_3000, VM_READ | VM_WRITE)];
    assert w[0].end > w[1].start;
    assert v[0].end == 0x80_1000 && !Disjoint(v[1], Region(0x80_1000, 0x80_3000, VM_READ | VM_WRITE));
  }
}
