/** The physical page allocator of kern/mm/default_pmm.c. Pages are numbers below npages; the head of the free list is
    entry npages of the links. */
module PageAllocator {
  import opened Rings
  import opened Runs

  ghost function Bases(r: seq<Run>): seq<nat> {
    seq(|r|, i requires 0 <= i < |r| => r[i].base)
  }

  /** The property fields and flags of the pages that head the given runs. */
  ghost predicate Label(run: Run, property: seq<nat>) {
    run.End() <= |property| && run.size > 0 && property[run.base] == run.size
  }

  ghost predicate Labelled(r: seq<Run>, property: seq<nat>) {
    forall i :: 0 <= i < |r| ==> Label(r[i], property)
  }

  ghost predicate Flagged(r: seq<Run>, heads: seq<bool>) {
    forall p: nat :: p < |heads| ==> (heads[p] <==> p in Bases(r))
  }

  lemma BaseOf(r: seq<Run>, p: nat)
    ensures p in Bases(r) <==> exists i :: 0 <= i < |r| && r[i].base == p
  {
    if i :| 0 <= i < |r| && r[i].base == p { assert Bases(r)[i] == p; }
  }

  // ---------- taking a run, or a part of it, out of the list ----------

  lemma TakeBases(r: seq<Run>, k: nat, num: nat)
    requires k < |r| && 0 < num <= r[k].size
    ensures Bases(Take(r, k, num)) ==
            if r[k].size == num then Without(Bases(r), k) else With(Without(Bases(r), k), k, r[k].base + num)
  {
    var t, l := Take(r, k, num), Bases(r);
    if |t| > 0 { TakeAt(r, k, num, 0); }
    var rhs := if r[k].size == num then Without(l, k) else With(Without(l, k), k, r[k].base + num);
    assert |Bases(t)| == |rhs|;
    forall j: nat | j < |t| ensures Bases(t)[j] == rhs[j] {
      TakeAt(r, k, num, j);
    }
  }

  /** The rest of a run starts where no other run does. */
  lemma RestIsNew(r: seq<Run>, k: nat, num: nat)
    requires Sorted(r) && k < |r| && 0 < num < r[k].size
    ensures r[k].base + num !in Bases(r)
  {
    BaseOf(r, r[k].base + num);
    forall i: nat | i < |r| ensures r[i].base != r[k].base + num {
      if i != k { assert i < k ==> r[i].End() < r[k].base; assert k < i ==> r[k].End() < r[i].base; }
    }
  }

  lemma LabelAt(r: seq<Run>, k: nat, num: nat, property: seq<nat>, j: nat)
    requires Sorted(r) && Labelled(r, property) && k < |r| && 0 < num <= r[k].size && j < |Take(r, k, num)|
    ensures r[k].size == num ==> Label(Take(r, k, num)[j], property)
    ensures r[k].size > num ==> r[k].base + num < |property|
    ensures r[k].size > num ==> Label(Take(r, k, num)[j], property[r[k].base + num := r[k].size - num])
  {
    hide Take;
    assert Label(r[k], property);
    TakeAt(r, k, num, j);
    if r[k].size > num && j != k {
      RestIsNew(r, k, num);
      assert Bases(r)[j] == r[j].base && Label(r[j], property);
    }
  }

  lemma TakeLabelled(r: seq<Run>, k: nat, num: nat, property: seq<nat>)
    requires Sorted(r) && Labelled(r, property) && k < |r| && 0 < num <= r[k].size
    ensures r[k].size == num ==> Labelled(Take(r, k, num), property)
    ensures r[k].size > num ==> r[k].base + num < |property|
    ensures r[k].size > num ==> Labelled(Take(r, k, num), property[r[k].base + num := r[k].size - num])
  {
    hide Take, Sorted;
    assert Label(r[k], property);
    var p := if r[k].size > num then property[r[k].base + num := r[k].size - num] else property;
    forall j: nat | j < |Take(r, k, num)| ensures Label(Take(r, k, num)[j], p) {
      LabelAt(r, k, num, property, j);
    }
  }

  lemma TakeFlagged(r: seq<Run>, k: nat, num: nat, heads: seq<bool>)
    requires Sorted(r) && Flagged(r, heads) && k < |r| && 0 < num <= r[k].size && r[k].End() <= |heads|
    ensures r[k].size == num ==> Flagged(Take(r, k, num), heads[r[k].base := false])
    ensures r[k].size > num ==> Flagged(Take(r, k, num), heads[r[k].base + num := true][r[k].base := false])
  {
    TakeBases(r, k, num);
    var l := Bases(r);
    assert l[k] == r[k].base;
    forall i: nat | i < |l| && i != k ensures l[i] != l[k] {
      assert i < k ==> r[i].End() < r[k].base;
      assert k < i ==> r[k].End() < r[i].base;
    }
    InWithout(l, k);
  }

  lemma InWithout(l: seq<nat>, k: nat)
    requires k < |l| && forall i: nat :: i < |l| && i != k ==> l[i] != l[k]
    ensures forall p :: p in Without(l, k) <==> p in l && p != l[k]
  {
    var w := Without(l, k);
    forall p ensures p in w <==> p in l && p != l[k] {
      if p in l && p != l[k] {
        var i :| 0 <= i < |l| && l[i] == p;
        assert w[if i < k then i else i - 1] == p;
      }
      if p in w {
        var i :| 0 <= i < |w| && w[i] == p;
        assert l[if i < k then i else i + 1] == p;
      }
    }
  }

  lemma HeadOf(r: seq<Run>, property: seq<nat>, k: nat)
    requires Labelled(r, property) && k < |r|
    ensures r[k].End() <= |property| && r[k].size > 0 && property[r[k].base] == r[k].size
    ensures |Bases(r)| == |r| && Bases(r)[k] == r[k].base
  {
  }

  lemma Ends(next: seq<nat>, prev: seq<nat>, h: nat, l: seq<nat>, k: nat)
    requires Ring(next, prev, h, l) && k < |l| && h + 1 == |next|
    ensures l[k] < h && prev[l[k]] <= h && next[l[k]] <= h
  {
    DelRing(next, prev, h, l, k);
  }

  // ---------- walking the list ----------

  /** Entry i + 1 of the list is the head of run i, or the end of the list. */
  lemma Walk(next: seq<nat>, prev: seq<nat>, h: nat, r: seq<Run>, property: seq<nat>, i: nat)
    requires Ring(next, prev, h, Bases(r)) && h + 1 == |next| && i <= |r| && Labelled(r, property)
    ensures var le := At(h, Bases(r), i);
            && le <= h && next[le] == At(h, Bases(r), i + 1) && (At(h, Bases(r), i + 1) == h <==> i == |r|)
            && (i < |r| ==>
                  At(h, Bases(r), i + 1) == r[i].base < h && r[i].End() <= |property|
                  && property[r[i].base] == r[i].size)
  {
    assert i < |r| ==> Bases(r)[i] == r[i].base;
  }

  // ---------- giving pages back ----------

  /** While run c is being put together, outside the list, its head is flagged too. */
  ghost predicate FlaggedWith(r: seq<Run>, c: nat, heads: seq<bool>) {
    c !in Bases(r) && forall p: nat :: p < |heads| ==> (heads[p] <==> p in Bases(r) || p == c)
  }

  lemma DropBases(r: seq<Run>, k: nat)
    requires Sorted(r) && k < |r|
    ensures Bases(Dropped(r, k)) == Without(Bases(r), k) && Bases(r)[k] == r[k].base
    ensures forall p :: p in Bases(Dropped(r, k)) <==> p in Bases(r) && p != r[k].base
  {
    var l := Bases(r);
    forall i: nat | i < |l| && i != k ensures l[i] != l[k] {
      assert i < k ==> r[i].End() < r[k].base;
      assert k < i ==> r[k].End() < r[i].base;
    }
    InWithout(l, k);
  }

  lemma DropLabelled(r: seq<Run>, k: nat, property: seq<nat>, b: nat, v: nat)
    requires Labelled(r, property) && k < |r| && b < |property| && b !in Bases(Dropped(r, k))
    ensures Labelled(Dropped(r, k), property[b := v])
  {
    var t := Dropped(r, k);
    forall i: nat | i < |t| ensures t[i] == r[if i < k then i else i + 1] && t[i].base != b {
      assert Bases(t)[i] == t[i].base;
    }
  }

  lemma PutBases(r: seq<Run>, j: nat, c: Run)
    requires j <= |r|
    ensures Bases(r[..j] + [c] + r[j..]) == With(Bases(r), j, c.base)
    ensures forall p :: p in Bases(r[..j] + [c] + r[j..]) <==> p in Bases(r) || p == c.base
  {
    var w, l := With(Bases(r), j, c.base), Bases(r);
    assert w[j] == c.base;
    forall p ensures p in w <==> p in l || p == c.base {
      if p in l {
        var i :| 0 <= i < |l| && l[i] == p;
        assert w[if i < j then i else i + 1] == p;
      }
    }
  }

  lemma PutLabelled(r: seq<Run>, j: nat, c: Run, property: seq<nat>)
    requires Labelled(r, property) && j <= |r| && c.End() <= |property| && c.size > 0 && property[c.base] == c.size
    ensures Labelled(r[..j] + [c] + r[j..], property)
  {
    var t := r[..j] + [c] + r[j..];
    forall i: nat | i < |t| ensures t[i] == if i < j then r[i] else if i == j then c else r[i - 1] {
    }
  }

  lemma Shifted(h: nat, r: seq<Run>, k: nat)
    requires Sorted(r) && k < |r|
    ensures At(h, Bases(Dropped(r, k)), k + 1) == At(h, Bases(r), k + 2) && |Dropped(r, k)| == |r| - 1
  {
    DropBases(r, k);
  }

  lemma Back(next: seq<nat>, prev: seq<nat>, h: nat, l: seq<nat>, j: nat)
    requires Ring(next, prev, h, l) && j <= |l|
    ensures At(h, l, j + 1) < |prev| && prev[At(h, l, j + 1)] == At(h, l, j)
  {
  }

  lemma SetKeeps(r: seq<Run>, property: seq<nat>, b: nat, v: nat)
    requires Labelled(r, property) && b < |property| && b !in Bases(r)
    ensures Labelled(r, property[b := v])
  {
    forall i: nat | i < |r| ensures r[i].base != b {
      assert Bases(r)[i] == r[i].base;
    }
  }

  lemma WithinPages(r: seq<Run>, i: nat, num: nat)
    requires i < |r| && num <= r[i].size
    ensures forall p: nat :: r[i].base <= p < r[i].base + num ==> Free(r, p)
  {
    forall p: nat | r[i].base <= p < r[i].base + num ensures Free(r, p) {
      assert In(r[i], p);
    }
  }

  /** Nothing is free behind the last run. */
  lemma PutLast(r: seq<Run>, c: Run)
    requires Sorted(r) && c.size > 0
    ensures r[..|r|] + [c] + r[|r|..] == r + [c] && Total(r + [c]) == Total(r) + c.size
    ensures Sorted(r + [c]) <==> (r != [] ==> r[|r| - 1].End() < c.base)
    ensures forall p: nat :: Free(r + [c], p) <==> Free(r, p) || In(c, p)
  {
    hide Total, Sorted, Free;
    assert r[..|r|] + [c] + r[|r|..] == r + [c];
    PutTotal(r, |r|, c);
    if r == [] || r[|r| - 1].End() < c.base {
      PutSorted(r, |r|, c);
    }
    LastSorted(r, c);
    forall p: nat ensures Free(r + [c], p) <==> Free(r, p) || In(c, p) {
      LastFree(r, c, p);
    }
  }

  lemma LastSorted(r: seq<Run>, c: Run)
    ensures r != [] && Sorted(r + [c]) ==> r[|r| - 1].End() < c.base
  {
    var t := r + [c];
    assert r != [] ==> t[|r| - 1] == r[|r| - 1] && t[|r|] == c;
  }

  lemma LastFree(r: seq<Run>, c: Run, p: nat)
    ensures Free(r + [c], p) <==> Free(r, p) || In(c, p)
  {
    var t := r + [c];
    assert t[|r|] == c && forall i :: 0 <= i < |r| ==> t[i] == r[i];
  }

  lemma MergedClear(old_: seq<Run>, given: Run, r: seq<Run>, c: Run, j: nat)
    requires Merging(old_, given, r, c, |r|) && j < |r|
    ensures Clear(r[j], c)
  {
  }

  lemma MergeBound(old_: seq<Run>, given: Run, r: seq<Run>, c: Run, k: nat)
    requires Merging(old_, given, r, c, k)
    ensures k <= |r|
  {
  }

  /** A page that is not free heads no run. */
  lemma NotHead(r: seq<Run>, p: nat)
    requires Sorted(r) && !Free(r, p)
    ensures p !in Bases(r)
  {
    forall i: nat | i < |r| ensures r[i].base != p {
      assert In(r[i], r[i].base);
    }
  }

  datatype Policy = First | Best | Worst

  ghost predicate Chosen(r: seq<Run>, num: nat, i: nat, policy: Policy) {
    match policy
    case First => FirstFit(r, num, i)
    case Best => BestFit(r, num, i)
    case Worst => WorstFit(r, num, i)
  }

  /** An allocation takes num pages from the front of the run that the policy chooses, and fails only when no run is
      long enough. */
  ghost predicate Allocated(r: seq<Run>, t: seq<Run>, page: int, num: nat, policy: Policy) {
    if page == -1 then t == r && !Fits(r, num)
    else exists i: nat ::
        Chosen(r, num, i, policy) && i < |r| && num <= r[i].size && page == r[i].base && t == Take(r, i, num)
  }

  lemma {:induction false} SizeWithin(r: seq<Run>, i: nat)
    requires i < |r|
    ensures r[i].size <= Total(r)
  {
    if i > 0 { SizeWithin(r[1..], i - 1); }
  }

  lemma TooMany(r: seq<Run>, num: nat)
    requires num > Total(r)
    ensures !Fits(r, num)
  {
    forall i: nat | i < |r| ensures r[i].size < num {
      SizeWithin(r, i);
    }
  }

  class FreeArea {
    const npages: nat
    const next: array<nat>
    const prev: array<nat>
    const property: array<nat>
    /** The flags PG_property and PG_reserved. */
    const heads: array<bool>
    const reserved: array<bool>
    var nrFree: nat
    /** What the free list holds. */
    ghost var runs: seq<Run>

    ghost predicate Shape()
      reads this
    {
      && next.Length == prev.Length == npages + 1 && property.Length == heads.Length == reserved.Length == npages
      && next != prev && property != next && property != prev && heads != reserved && npages < 0xffff_ffff
    }

    /** The list is linked through the heads of the given runs, whose sizes are noted there. */
    ghost predicate Linked(r: seq<Run>)
      requires Shape()
      reads this, next, prev, property
    {
      Ring(next[..], prev[..], npages, Bases(r)) && Labelled(r, property[..])
    }

    /** The list, the flags and the count are those of the runs, and no page in a run is reserved. */
    ghost predicate Listed()
      reads this, next, prev, property, heads, reserved
    {
      && Shape() && Linked(runs) && Flagged(runs, heads[..]) && nrFree == Total(runs)
      && forall p: nat :: Free(runs, p) ==> p < npages && !reserved[p]
    }

    ghost predicate Valid()
      reads this, next, prev, property, heads, reserved
    {
      Listed() && Sorted(runs)
    }

    /** default_init, with all pages marked reserved as page_init leaves them. */
    constructor (npages: nat)
      requires npages < 0xffff_ffff
      ensures Valid() && runs == [] && this.npages == npages && fresh(next) && fresh(prev) && fresh(property)
      ensures fresh(heads) && fresh(reserved) && forall p :: 0 <= p < npages ==> reserved[p]
    {
      this.npages := npages;
      next := new nat[npages + 1](i => npages);
      prev := new nat[npages + 1](i => npages);
      property := new nat[npages](i => 0);
      heads := new bool[npages](i => false);
      reserved := new bool[npages](i => true);
      nrFree := 0;
      runs := [];
    }

    // ---------- list.h ----------

    /** list_del. */
    method ListDel(e: nat)
      requires Shape() && e <= npages && prev[e] <= npages && next[e] <= npages
      modifies next, prev
      ensures next[..] == old(next[..])[old(prev[e]) := old(next[e])]
      ensures prev[..] == old(prev[..])[old(next[e]) := old(prev[e])]
    {
      var p, n := prev[e], next[e];
      next[p] := n;
      prev[n] := p;
    }

    /** __list_add. */
    method ListAdd(e: nat, p: nat, n: nat)
      requires Shape() && e <= npages && p <= npages && n <= npages
      modifies next, prev
      ensures next[..] == old(next[..])[p := e][e := n] && prev[..] == old(prev[..])[n := e][e := p]
    {
      prev[n] := e;
      next[p] := e;
      next[e] := n;
      prev[e] := p;
    }

    // ---------- allocating ----------

    /** A page is deleted from the list twice: the second time changes nothing. */
    method Drop(page: nat, ghost l: seq<nat>, ghost k: nat)
      requires Shape() && Ring(next[..], prev[..], npages, l) && k < |l| && page == l[k]
      modifies next, prev
      ensures Ring(next[..], prev[..], npages, Without(l, k))
    {
      hide Ring;
      Ends(next[..], prev[..], npages, l, k);
      DelRing(next[..], prev[..], npages, l, k);
      DelAgain(next[..], prev[..], npages, l, k);
      ListDel(page);
      ListDel(page);
    }

    /** Between the two deletions page p is put in behind it: it takes the place of the deleted page. */
    method Replace(page: nat, p: nat, ghost l: seq<nat>, ghost k: nat)
      requires Shape() && Ring(next[..], prev[..], npages, l) && k < |l| && page == l[k] && p < npages && p !in l
      modifies next, prev
      ensures Ring(next[..], prev[..], npages, With(Without(l, k), k, p))
    {
      hide Ring;
      Ends(next[..], prev[..], npages, l, k);
      DelAgain(next[..], prev[..], npages, l, k);
      ReplaceRing(next[..], prev[..], npages, l, k, p);
      ListDel(page);
      var n := next[page];
      ListAdd(p, page, n);
      ListDel(page);
    }

    /** The common tail of the three allocators: num pages are taken from the front of run k. */
    method Detach(page: nat, num: nat, ghost k: nat)
      requires Valid() && k < |runs| && page == runs[k].base && 0 < num <= runs[k].size
      modifies this, next, prev, property, heads
      ensures Valid() && runs == Take(old(runs), k, num)
    {
      hide Ring, Labelled, Flagged, Take, Sorted, Total, With, Without, Bases;
      ghost var r := runs;
      HeadOf(r, property[..], k);
      TakeBases(r, k, num);
      TakeLabelled(r, k, num, property[..]);
      TakeFlagged(r, k, num, heads[..]);
      TakeSorted(r, k, num);
      TakeTotal(r, k, num);
      forall p: nat ensures Free(Take(r, k, num), p) ==> Free(r, p) {
        TakeFree(r, k, num, p);
      }
      if property[page] > num {
        RestIsNew(r, k, num);
        var p := page + num;
        property[p] := property[page] - num;
        heads[p] := true;
        Replace(page, p, Bases(r), k);
        assert property[..] == old(property[..])[p := r[k].size - num];
      } else {
        Drop(page, Bases(r), k);
      }
      nrFree := nrFree - num;
      heads[page] := false;
      assert heads[..] == if r[k].size > num then old(heads[..])[page + num := true][page := false]
          else old(heads[..])[page := false];
      runs := Take(r, k, num);
    }

    /** The loop of default_alloc_pages. */
    method FindFirst(num: nat) returns (page: int, ghost i: nat)
      requires Valid()
      ensures page == -1 ==> !Fits(runs, num)
      ensures page != -1 ==> FirstFit(runs, num, i) && page == runs[i].base
    {
      hide Ring, Labelled, Flagged, Sorted, Total;
      page, i := -1, 0;
      Walk(next[..], prev[..], npages, runs, property[..], 0);
      var le := next[npages];
      while le != npages
        invariant i <= |runs| && le == At(npages, Bases(runs), i + 1) && (le == npages <==> i == |runs|)
        invariant forall j :: 0 <= j < i ==> runs[j].size < num
        decreases |runs| - i
      {
        Walk(next[..], prev[..], npages, runs, property[..], i);
        if property[le] >= num {
          page := le;
          break;
        }
        Walk(next[..], prev[..], npages, runs, property[..], i + 1);
        le := next[le];
        i := i + 1;
      }
    }

    /** The loop of default_alloc_pages_best_fit. The bound starts as the 32-bit value of the constant in the code, and
        the comparison is of unsigned numbers. */
    method FindBest(num: nat) returns (page: int, ghost i: nat)
      requires Valid()
      ensures page == -1 ==> !Fits(runs, num)
      ensures page != -1 ==> BestFit(runs, num, i) && page == runs[i].base
    {
      hide Ring, Labelled, Flagged, Sorted, Total;
      page, i := -1, 0;
      ghost var k: nat := 0;
      var minSize := 0x7_ffff_ffff % 0x1_0000_0000;
      Walk(next[..], prev[..], npages, runs, property[..], 0);
      var le := next[npages];
      while le != npages
        invariant k <= |runs| && le == At(npages, Bases(runs), k + 1) && (le == npages <==> k == |runs|)
        invariant page == -1 ==> minSize == 0xffff_ffff && forall j :: 0 <= j < k ==> runs[j].size < num
        invariant page != -1 ==> i < k && page == runs[i].base && minSize == runs[i].size >= num
        invariant page != -1 ==> forall j :: 0 <= j < k && runs[j].size >= num ==> minSize <= runs[j].size
        invariant page != -1 ==> forall j :: 0 <= j < i && runs[j].size >= num ==> minSize < runs[j].size
        decreases |runs| - k
      {
        Walk(next[..], prev[..], npages, runs, property[..], k);
        if property[le] >= num && property[le] < minSize {
          page, i := le, k;
          minSize := property[le];
        }
        Walk(next[..], prev[..], npages, runs, property[..], k + 1);
        le := next[le];
        k := k + 1;
      }
    }

    /** The loop of default_alloc_pages_worst_fit. */
    method FindWorst(num: nat) returns (page: int, ghost i: nat)
      requires Valid()
      ensures page == -1 ==> !Fits(runs, num)
      ensures page != -1 ==> WorstFit(runs, num, i) && page == runs[i].base
    {
      hide Ring, Labelled, Flagged, Sorted, Total;
      page, i := -1, 0;
      ghost var k: nat := 0;
      var maxSize := 0;
      Walk(next[..], prev[..], npages, runs, property[..], 0);
      var le := next[npages];
      while le != npages
        invariant k <= |runs| && le == At(npages, Bases(runs), k + 1) && (le == npages <==> k == |runs|)
        invariant page == -1 ==> maxSize == 0 && forall j :: 0 <= j < k ==> runs[j].size < num
        invariant page != -1 ==> i < k && page == runs[i].base && maxSize == runs[i].size >= num
        invariant page != -1 ==> forall j :: 0 <= j < k ==> runs[j].size <= maxSize
        invariant page != -1 ==> forall j :: i < j < k ==> runs[j].size < maxSize
        decreases |runs| - k
      {
        Walk(next[..], prev[..], npages, runs, property[..], k);
        if property[le] >= num && property[le] >= maxSize {
          page, i := le, k;
          maxSize := property[le];
        }
        Walk(next[..], prev[..], npages, runs, property[..], k + 1);
        le := next[le];
        k := k + 1;
      }
    }

    /** default_alloc_pages, default_alloc_pages_best_fit and default_alloc_pages_worst_fit; -1 is the null page. */
    method Alloc(num: nat, policy: Policy) returns (page: int)
      requires Valid() && num > 0
      modifies this, next, prev, property, heads
      ensures Valid() && Allocated(old(runs), runs, page, num, policy)
    {
      hide Ring, Labelled, Flagged, Take, Sorted;
      page := -1;
      if num > nrFree {
        TooMany(runs, num);
        return;
      }
      ghost var i;
      match policy {
        case First => page, i := FindFirst(num);
        case Best => page, i := FindBest(num);
        case Worst => page, i := FindWorst(num);
      }
      if page != -1 {
        assert Chosen(runs, num, i, policy);
        Detach(page, num, i);
      }
    }

    // ---------- freeing ----------

    /** Run c is in hand, headed by its first page and outside the list of the runs r. */
    ghost predicate Holding(r: seq<Run>, c: Run)
      reads this, next, prev, property, heads
    {
      && Shape() && Linked(r) && Sorted(r) && c.End() <= npages && c.size > 0 && property[c.base] == c.size
      && FlaggedWith(r, c.base, heads[..])
    }

    /** The run in hand takes over run k, which follows it. */
    method AbsorbNext(base: nat, ptr: nat, ghost c: Run, ghost k: nat)
      requires Holding(runs, c) && k < |runs| && ptr == runs[k].base && base == c.base && c.End() == ptr
      modifies this`runs, next, prev, property, heads
      ensures runs == Dropped(old(runs), k) && Holding(runs, Join(c, old(runs)[k])) && next[ptr] == old(next[ptr])
    {
      hide Ring, Labelled, Dropped, Sorted;
      ghost var r, l := runs, Bases(runs);
      HeadOf(r, property[..], k);
      DropBases(r, k);
      DropLabelled(r, k, property[..], base, c.size + r[k].size);
      DropRun(r, k, 0);
      Ends(next[..], prev[..], npages, l, k);
      DelRing(next[..], prev[..], npages, l, k);
      DelAgain(next[..], prev[..], npages, l, k);
      property[base] := property[base] + property[ptr];
      heads[ptr] := false;
      ListDel(ptr);
      runs := Dropped(r, k);
    }

    /** Run k, which ends where the run in hand starts, takes it over, and is in hand. */
    method AbsorbPrevious(base: nat, ptr: nat, ghost c: Run, ghost k: nat)
      requires Holding(runs, c) && k < |runs| && ptr == runs[k].base && base == c.base && runs[k].End() == base
      modifies this`runs, next, prev, property, heads
      ensures runs == Dropped(old(runs), k) && Holding(runs, Join(c, old(runs)[k])) && next[ptr] == old(next[ptr])
    {
      hide Ring, Labelled, Dropped, Sorted;
      ghost var r, l := runs, Bases(runs);
      HeadOf(r, property[..], k);
      DropBases(r, k);
      DropLabelled(r, k, property[..], ptr, c.size + r[k].size);
      DropRun(r, k, 0);
      Ends(next[..], prev[..], npages, l, k);
      DelRing(next[..], prev[..], npages, l, k);
      DelAgain(next[..], prev[..], npages, l, k);
      property[ptr] := property[ptr] + property[base];
      heads[base] := false;
      ListDel(ptr);
      runs := Dropped(r, k);
    }

    /** The first loop over the list in default_free_pages: the runs that touch the one in hand are joined to it. */
    method Coalesce(base0: nat, ghost r: seq<Run>, ghost given: Run) returns (base: nat, ghost c: Run)
      requires r == runs && Holding(r, given) && base0 == given.base && Merging(r, given, r, given, 0)
      modifies this`runs, next, prev, property, heads
      ensures Holding(runs, c) && base == c.base && Merging(r, given, runs, c, |runs|)
    {
      hide Ring, Labelled, Merging, Dropped, Sorted, FlaggedWith;
      base, c := base0, given;
      ghost var k: nat := 0;
      Walk(next[..], prev[..], npages, runs, property[..], 0);
      var le := next[npages];
      while le != npages
        invariant Holding(runs, c) && base == c.base && Merging(r, given, runs, c, k)
        invariant k <= |runs| && le == At(npages, Bases(runs), k + 1) && (le == npages <==> k == |runs|)
        decreases 2 * |runs| - k
      {
        Walk(next[..], prev[..], npages, runs, property[..], k);
        Walk(next[..], prev[..], npages, runs, property[..], k + 1);
        ghost var s, l := runs, Bases(runs);
        var ptr := le;
        if base + property[base] == ptr {
          MergeJoin(r, given, runs, c, k);
          AbsorbNext(base, ptr, c, k);
          c := Join(c, s[k]);
          Shifted(npages, s, k);
          le := next[ptr];
        } else if ptr + property[ptr] == base {
          MergeJoin(r, given, runs, c, k);
          AbsorbPrevious(base, ptr, c, k);
          c := Join(c, s[k]);
          base := ptr;
          Shifted(npages, s, k);
          le := next[ptr];
        } else {
          MergePast(r, given, runs, c, k);
          le := next[ptr];
          k := k + 1;
        }
        MergeBound(r, given, runs, c, k);
        Walk(next[..], prev[..], npages, runs, property[..], k);
      }
    }

    /** The second loop: the place of the run in hand. */
    method FindPlace(base: nat, ghost c: Run, ghost r: seq<Run>, ghost given: Run) returns (le: nat, ghost j: nat)
      requires Holding(runs, c) && base == c.base && Merging(r, given, runs, c, |runs|)
      ensures j <= |runs| && le == At(npages, Bases(runs), j + 1)
      ensures (j < |runs| ==> c.End() <= runs[j].base) && forall i :: 0 <= i < j ==> c.End() > runs[i].base
    {
      hide Ring, Labelled, FlaggedWith, Merging;
      j := 0;
      Walk(next[..], prev[..], npages, runs, property[..], 0);
      le := next[npages];
      while le != npages
        invariant j <= |runs| && le == At(npages, Bases(runs), j + 1) && (le == npages <==> j == |runs|)
        invariant forall i :: 0 <= i < j ==> c.End() > runs[i].base
        decreases |runs| - j
      {
        Walk(next[..], prev[..], npages, runs, property[..], j);
        if base + property[base] <= le {
          MergedClear(r, given, runs, c, j);
          assert base + property[base] != le;
          break;
        }
        Walk(next[..], prev[..], npages, runs, property[..], j + 1);
        le := next[le];
        j := j + 1;
      }
    }

    /** list_add_before of the run in hand. */
    method Attach(base: nat, le: nat, ghost c: Run, ghost j: nat)
      requires Holding(runs, c) && base == c.base && j <= |runs| && le == At(npages, Bases(runs), j + 1)
      modifies this`runs, next, prev
      ensures runs == old(runs)[..j] + [c] + old(runs)[j..]
      ensures Shape() && Linked(runs) && Flagged(runs, heads[..])
    {
      hide Ring, Labelled, Sorted;
      ghost var r, l := runs, Bases(runs);
      AddRing(next[..], prev[..], npages, l, j, base);
      Back(next[..], prev[..], npages, l, j);
      PutBases(r, j, c);
      PutLabelled(r, j, c, property[..]);
      var p := prev[le];
      ListAdd(base, p, le);
      runs := r[..j] + [c] + r[j..];
    }

    /** The first loop of default_free_pages. */
    method ClearFlags(base: nat, num: nat)
      requires Valid() && base + num <= npages
      requires forall p :: base <= p < base + num ==> !reserved[p] && !Free(runs, p)
      modifies heads, reserved
      ensures heads[..] == old(heads[..]) && reserved[..] == old(reserved[..])
    {
      hide Ring, Labelled, Sorted;
      var ptr := base;
      while ptr != base + num
        invariant base <= ptr <= base + num && heads[..] == old(heads[..]) && reserved[..] == old(reserved[..])
      {
        NotHead(runs, ptr);
        assert !reserved[ptr] && !heads[ptr];
        heads[ptr], reserved[ptr] := false, false;
        ptr := ptr + 1;
      }
    }

    /** default_free_pages: the pages of the range, which are in use, join the free ones. */
    method FreePages(base0: nat, num: nat)
      requires Valid() && num > 0 && base0 + num <= npages
      requires forall p :: base0 <= p < base0 + num ==> !reserved[p] && !Free(runs, p)
      modifies this, next, prev, property, heads, reserved
      ensures Valid() && reserved[..] == old(reserved[..])
      ensures forall p: nat :: Free(runs, p) <==> Free(old(runs), p) || base0 <= p < base0 + num
    {
      hide Ring, Labelled, Sorted, Merging, Total;
      ghost var r, given := runs, Run(base0, num);
      ClearFlags(base0, num);
      NotHead(r, base0);
      MergeStart(r, given);
      SetKeeps(r, property[..], base0, num);
      property[base0] := num;
      heads[base0] := true;
      ghost var c, j;
      var base, le;
      base, c := Coalesce(base0, r, given);
      nrFree := nrFree + num;
      le, j := FindPlace(base, c, r, given);
      MergeEnd(r, given, runs, c, j);
      Attach(base, le, c, j);
    }

    /** Giving an allocation straight back restores the list. */
    method AllocThenFree(num: nat, policy: Policy)
      requires Valid() && num > 0
      modifies this, next, prev, property, heads, reserved
      ensures Valid() && runs == old(runs) && nrFree == old(nrFree)
    {
      hide Ring, Labelled, Total;
      ghost var r := runs;
      var page := Alloc(num, policy);
      if page != -1 {
        ghost var i: nat :| Chosen(r, num, i, policy) && i < |r| && num <= r[i].size && page == r[i].base
            && runs == Take(r, i, num);
        forall p: nat ensures Free(runs, p) <==> Free(r, p) && !(page <= p < page + num) {
          TakeFree(r, i, num, p);
        }
        EndInUse(r, i);
        WithinPages(r, i, num);
        assert Free(r, page + num - 1);
        FreePages(page, num);
        TakeThenGive(r, i, num, runs);
      }
    }

    /** The loop of default_init_memmap. */
    method ClearPages(base: nat, n: nat)
      requires Valid() && base + n <= npages && forall p :: base <= p < base + n ==> reserved[p]
      modifies heads, reserved, property
      ensures heads[..] == old(heads[..]) && Labelled(runs, property[..])
      ensures forall p :: 0 <= p < npages ==> reserved[p] == (old(reserved[p]) && !(base <= p < base + n))
    {
      hide Ring, Labelled, Sorted;
      var ptr := base;
      while ptr != base + n
        invariant base <= ptr <= base + n && heads[..] == old(heads[..]) && Labelled(runs, property[..])
        invariant forall p :: 0 <= p < npages ==> reserved[p] == (old(reserved[p]) && !(base <= p < ptr))
      {
        assert reserved[ptr];
        NotHead(runs, ptr);
        SetKeeps(runs, property[..], ptr, 0);
        heads[ptr], reserved[ptr] := false, false;
        property[ptr] := 0;
        ptr := ptr + 1;
      }
    }

    /** default_init_memmap: a run of reserved pages becomes free, and is put behind all others. The list stays sorted
        just when that is where it belongs. */
    method InitMemmap(base: nat, n: nat)
      requires Valid() && n > 0 && base + n <= npages && forall p :: base <= p < base + n ==> reserved[p]
      modifies this, next, prev, property, heads, reserved
      ensures Listed() && runs == old(runs) + [Run(base, n)]
      ensures Valid() <==> (old(runs) != [] ==> old(runs)[|old(runs)| - 1].End() < base)
      ensures forall p :: 0 <= p < npages ==> reserved[p] == (old(reserved[p]) && !(base <= p < base + n))
    {
      hide Ring, Labelled, Total, Sorted;
      ghost var r, c := runs, Run(base, n);
      assert !Free(r, base);
      ClearPages(base, n);
      NotHead(r, base);
      SetKeeps(r, property[..], base, n);
      PutLast(r, c);
      property[base] := n;
      heads[base] := true;
      nrFree := nrFree + n;
      Attach(base, npages, c, |r|);
    }
  }
}
