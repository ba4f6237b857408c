/** Runs of free pages: what the free list of kern/mm/default_pmm.c stands for. */
module Runs {
  datatype Run = Run(base: nat, size: nat) {
    function End(): nat {
      base + size
    }
  }

  /** Nonempty runs in order of address, with a page in use between any two. */
  ghost predicate Sorted(r: seq<Run>) {
    && (forall i :: 0 <= i < |r| ==> r[i].size > 0)
    && (forall i, j :: 0 <= i < j < |r| ==> r[i].End() < r[j].base)
  }

  ghost predicate In(run: Run, p: nat) {
    run.base <= p < run.End()
  }

  ghost predicate Free(r: seq<Run>, p: nat) {
    exists i :: 0 <= i < |r| && In(r[i], p)
  }

  ghost function Total(r: seq<Run>): nat {
    if r == [] then 0 else r[0].size + Total(r[1..])
  }

  lemma {:induction false} TotalSplit(a: seq<Run>, b: seq<Run>)
    ensures Total(a + b) == Total(a) + Total(b)
  {
    if a == [] {
      assert a + b == b;
    } else {
      TotalSplit(a[1..], b);
      assert (a + b)[1..] == a[1..] + b;
    }
  }

  lemma TotalOne(run: Run)
    ensures Total([run]) == run.size
  {
    assert [run][1..] == [];
  }

  // ---------- the runs are determined by the free pages ----------

  lemma TailSorted(r: seq<Run>)
    requires Sorted(r) && r != []
    ensures Sorted(r[1..])
  {
    assert forall i :: 0 <= i < |r| - 1 ==> r[1..][i] == r[i + 1];
  }

  lemma FreeTail(r: seq<Run>, p: nat)
    requires Sorted(r) && r != []
    ensures Free(r[1..], p) <==> Free(r, p) && p >= r[0].End()
  {
    assert forall i :: 0 <= i < |r| - 1 ==> r[1..][i] == r[i + 1];
    if Free(r, p) && p >= r[0].End() {
      var i :| 0 <= i < |r| && In(r[i], p);
      assert In(r[1..][i - 1], p);
    }
  }

  lemma FirstIsLeast(r: seq<Run>, p: nat)
    requires Sorted(r) && Free(r, p)
    ensures r != [] && r[0].base <= p && Free(r, r[0].base)
  {
    assert In(r[0], r[0].base);
  }

  lemma EndInUse(r: seq<Run>, i: nat)
    requires Sorted(r) && i < |r|
    ensures !Free(r, r[i].End()) && forall p :: In(r[i], p) ==> Free(r, p)
  {
  }

  ghost predicate SameFree(a: seq<Run>, b: seq<Run>) {
    forall p: nat :: Free(a, p) <==> Free(b, p)
  }

  lemma HeadsAgree(a: seq<Run>, b: seq<Run>)
    requires Sorted(a) && Sorted(b) && SameFree(a, b) && a != []
    ensures b != [] && a[0] == b[0]
  {
    assert In(a[0], a[0].base);
    assert Free(a, a[0].base);
    FirstIsLeast(b, a[0].base);
    FirstIsLeast(a, b[0].base);
    EndInUse(a, 0);
    EndInUse(b, 0);
    assert !In(b[0], a[0].End()) && !In(a[0], b[0].End());
  }

  /** There is one way to write a set of free pages as runs. */
  lemma {:induction false} Unique(a: seq<Run>, b: seq<Run>)
    requires Sorted(a) && Sorted(b) && SameFree(a, b)
    ensures a == b
    decreases |a|
  {
    if a == [] {
      if b != [] { HeadsAgree(b, a); }
    } else {
      HeadsAgree(a, b);
      TailSorted(a);
      TailSorted(b);
      forall p: nat ensures Free(a[1..], p) <==> Free(b[1..], p) {
        FreeTail(a, p);
        FreeTail(b, p);
      }
      Unique(a[1..], b[1..]);
    }
  }

  // ---------- taking pages from a run ----------

  ghost function Rest(run: Run, num: nat): seq<Run>
    requires num <= run.size
  {
    if run.size > num then [Run(run.base + num, run.size - num)] else []
  }

  ghost function Take(r: seq<Run>, i: nat, num: nat): seq<Run>
    requires i < |r| && num <= r[i].size
  {
    r[..i] + Rest(r[i], num) + r[i + 1..]
  }

  lemma TakeSorted(r: seq<Run>, i: nat, num: nat)
    requires Sorted(r) && i < |r| && 0 < num <= r[i].size
    ensures Sorted(Take(r, i, num))
  {
    var t := Take(r, i, num);
    if r[i].size == num {
      assert forall k :: 0 <= k < |t| ==> t[k] == r[if k < i then k else k + 1];
    } else {
      assert forall k :: 0 <= k < |t| ==> t[k] == if k == i then Run(r[i].base + num, r[i].size - num) else r[k];
    }
  }

  /** Where the runs of Take come from. */
  lemma TakeAt(r: seq<Run>, i: nat, num: nat, k: nat)
    requires i < |r| && 0 < num <= r[i].size && k < |Take(r, i, num)|
    ensures |Take(r, i, num)| == if r[i].size == num then |r| - 1 else |r|
    ensures Take(r, i, num)[k] ==
            if r[i].size == num then r[if k < i then k else k + 1]
            else if k == i then Run(r[i].base + num, r[i].size - num) else r[k]
  {
  }

  lemma OneRun(r: seq<Run>, i: nat, j: nat, p: nat)
    requires Sorted(r) && i < |r| && j < |r| && In(r[i], p) && In(r[j], p)
    ensures i == j
  {
  }

  lemma TakeKeeps(r: seq<Run>, i: nat, num: nat, p: nat, k: nat)
    requires Sorted(r) && i < |r| && 0 < num <= r[i].size && k < |r| && In(r[k], p)
    requires !(r[i].base <= p < r[i].base + num)
    ensures Free(Take(r, i, num), p)
  {
    var j := if r[i].size == num && k > i then k - 1 else k;
    assert |Take(r, i, num)| == if r[i].size == num then |r| - 1 else |r|;
    TakeAt(r, i, num, j);
    assert In(Take(r, i, num)[j], p);
  }

  lemma TakeLeaves(r: seq<Run>, i: nat, num: nat, p: nat, k: nat)
    requires Sorted(r) && i < |r| && 0 < num <= r[i].size && k < |Take(r, i, num)| && In(Take(r, i, num)[k], p)
    ensures Free(r, p) && !(r[i].base <= p < r[i].base + num)
  {
    TakeAt(r, i, num, k);
    var j := if r[i].size == num && k >= i then k + 1 else k;
    assert In(r[j], p);
    if j != i && In(r[i], p) { OneRun(r, i, j, p); }
  }

  lemma TakeFree(r: seq<Run>, i: nat, num: nat, p: nat)
    requires Sorted(r) && i < |r| && 0 < num <= r[i].size
    ensures Free(Take(r, i, num), p) <==> Free(r, p) && !(r[i].base <= p < r[i].base + num)
  {
    var t := Take(r, i, num);
    if Free(t, p) {
      var k: nat :| k < |t| && In(t[k], p);
      TakeLeaves(r, i, num, p, k);
    }
    if Free(r, p) && !(r[i].base <= p < r[i].base + num) {
      var k: nat :| k < |r| && In(r[k], p);
      TakeKeeps(r, i, num, p, k);
    }
  }

  lemma TakeTotal(r: seq<Run>, i: nat, num: nat)
    requires i < |r| && num <= r[i].size
    ensures Total(Take(r, i, num)) == Total(r) - num
  {
    assert r == r[..i] + [r[i]] + r[i + 1..];
    TotalSplit(r[..i] + [r[i]], r[i + 1..]);
    TotalSplit(r[..i], [r[i]]);
    TotalOne(r[i]);
    TotalSplit(r[..i] + Rest(r[i], num), r[i + 1..]);
    TotalSplit(r[..i], Rest(r[i], num));
    if r[i].size > num { TotalOne(Run(r[i].base + num, r[i].size - num)); }
  }

  /** Giving back what was just taken restores the runs, however it is done. */
  lemma TakeThenGive(r: seq<Run>, i: nat, num: nat, back: seq<Run>)
    requires Sorted(r) && i < |r| && 0 < num <= r[i].size && Sorted(back)
    requires forall p: nat :: Free(back, p) <==> Free(Take(r, i, num), p) || r[i].base <= p < r[i].base + num
    ensures back == r
  {
    forall p: nat ensures Free(back, p) <==> Free(r, p) {
      TakeFree(r, i, num, p);
      EndInUse(r, i);
    }
    Unique(back, r);
  }

  // ---------- choosing a run ----------

  ghost predicate Fits(r: seq<Run>, num: nat) {
    exists i :: 0 <= i < |r| && r[i].size >= num
  }

  ghost predicate FirstFit(r: seq<Run>, num: nat, i: nat) {
    i < |r| && r[i].size >= num && forall j :: 0 <= j < i ==> r[j].size < num
  }

  /** The smallest that fits, the first of those. */
  ghost predicate BestFit(r: seq<Run>, num: nat, i: nat) {
    && i < |r| && r[i].size >= num
    && (forall j :: 0 <= j < |r| && r[j].size >= num ==> r[i].size <= r[j].size)
    && (forall j :: 0 <= j < i && r[j].size >= num ==> r[i].size < r[j].size)
  }

  /** The largest, the last of those. */
  ghost predicate WorstFit(r: seq<Run>, num: nat, i: nat) {
    && i < |r| && r[i].size >= num
    && (forall j :: 0 <= j < |r| ==> r[j].size <= r[i].size)
    && (forall j :: i < j < |r| ==> r[j].size < r[i].size)
  }

  // ---------- giving pages back ----------

  lemma PutBetween(r: seq<Run>, k: nat, c: Run, i: nat)
    requires Sorted(r) && k <= |r| && i < |r|
    requires (k > 0 ==> r[k - 1].End() < c.base) && (k < |r| ==> c.End() < r[k].base)
    ensures if i < k then r[i].End() < c.base else c.End() < r[i].base
  {
    if i < k - 1 { assert r[i].End() < r[k - 1].base; }
    if k < i { assert r[k].End() < r[i].base; }
  }

  lemma PutElement(r: seq<Run>, k: nat, c: Run, i: nat)
    requires k <= |r| && i <= |r|
    ensures (r[..k] + [c] + r[k..])[i] == if i < k then r[i] else if i == k then c else r[i - 1]
  {
  }

  /** Putting a run that touches no other between two others. */
  lemma PutSorted(r: seq<Run>, k: nat, c: Run)
    requires Sorted(r) && k <= |r| && c.size > 0
    requires (k > 0 ==> r[k - 1].End() < c.base) && (k < |r| ==> c.End() < r[k].base)
    ensures Sorted(r[..k] + [c] + r[k..])
  {
    var t := r[..k] + [c] + r[k..];
    forall i: nat | i < |t| ensures t[i].size > 0 {
      PutElement(r, k, c, i);
    }
    forall i, j | 0 <= i < j < |t| ensures t[i].End() < t[j].base {
      PutElement(r, k, c, i);
      PutElement(r, k, c, j);
      if i == k {
        PutBetween(r, k, c, j - 1);
      } else if j == k {
        PutBetween(r, k, c, i);
      }
    }
  }

  lemma PutFree(r: seq<Run>, k: nat, c: Run, p: nat)
    requires k <= |r|
    ensures Free(r[..k] + [c] + r[k..], p) <==> Free(r, p) || In(c, p)
  {
    var t := r[..k] + [c] + r[k..];
    if Free(r, p) {
      var i :| 0 <= i < |r| && In(r[i], p);
      assert In(t[if i < k then i else i + 1], p);
    }
    assert t[k] == c;
    if Free(t, p) && !In(c, p) {
      var i :| 0 <= i < |t| && In(t[i], p);
      assert In(r[if i < k then i else i - 1], p);
    }
  }

  lemma PutTotal(r: seq<Run>, k: nat, c: Run)
    requires k <= |r|
    ensures Total(r[..k] + [c] + r[k..]) == Total(r) + c.size
  {
    assert r == r[..k] + r[k..];
    TotalSplit(r[..k], r[k..]);
    TotalSplit(r[..k] + [c], r[k..]);
    TotalSplit(r[..k], [c]);
    TotalOne(c);
  }

  ghost function Dropped(r: seq<Run>, k: nat): seq<Run>
    requires k < |r|
  {
    r[..k] + r[k + 1..]
  }

  lemma DropRun(r: seq<Run>, k: nat, p: nat)
    requires Sorted(r) && k < |r|
    ensures Sorted(Dropped(r, k)) && Total(Dropped(r, k)) == Total(r) - r[k].size
    ensures Free(Dropped(r, k), p) <==> Free(r, p) && !In(r[k], p)
  {
    assert Take(r, k, r[k].size) == r[..k] + r[k + 1..];
    TakeSorted(r, k, r[k].size);
    TakeFree(r, k, r[k].size, p);
    TakeTotal(r, k, r[k].size);
  }

  /** Coalescing: c is the run being put together, r the runs still in the list, of which the first k do not touch c. */
  ghost predicate Merging(old_: seq<Run>, given: Run, r: seq<Run>, c: Run, k: nat) {
    && Sorted(r) && k <= |r| && c.size > 0 && Total(r) + c.size == Total(old_) + given.size
    && (forall p: nat :: Free(r, p) || In(c, p) <==> Free(old_, p) || In(given, p))
    && (forall p: nat :: In(c, p) ==> !Free(r, p))
    && (forall j :: 0 <= j < k ==> Clear(r[j], c))
  }

  ghost predicate Clear(a: Run, b: Run) {
    a.End() != b.base && b.End() != a.base
  }

  lemma Apart(r: seq<Run>, c: Run, j: nat)
    requires Sorted(r) && j < |r| && c.size > 0 && forall p: nat :: In(c, p) ==> !Free(r, p)
    ensures r[j].End() <= c.base || c.End() <= r[j].base
  {
    var p := if c.base < r[j].base then r[j].base else c.base;
    assert In(r[j], p) ==> Free(r, p);
  }

  lemma MergeStart(r: seq<Run>, given: Run)
    requires Sorted(r) && given.size > 0 && forall p: nat :: In(given, p) ==> !Free(r, p)
    ensures Merging(r, given, r, given, 0)
  {
  }

  lemma MergePast(old_: seq<Run>, given: Run, r: seq<Run>, c: Run, k: nat)
    requires Merging(old_, given, r, c, k) && k < |r| && Clear(r[k], c)
    ensures Merging(old_, given, r, c, k + 1)
  {
  }

  ghost function Join(a: Run, b: Run): Run {
    Run(if a.base < b.base then a.base else b.base, a.size + b.size)
  }

  lemma JoinIn(a: Run, b: Run, p: nat)
    requires a.End() == b.base || b.End() == a.base
    ensures In(Join(a, b), p) <==> In(a, p) || In(b, p)
  {
  }

  /** Run k of the list touches c and is joined to it. */
  lemma MergeJoin(old_: seq<Run>, given: Run, r: seq<Run>, c: Run, k: nat)
    requires Merging(old_, given, r, c, k) && k < |r| && (c.End() == r[k].base || r[k].End() == c.base)
    ensures Merging(old_, given, Dropped(r, k), Join(c, r[k]), k)
  {
    var t, d := Dropped(r, k), Join(c, r[k]);
    DropRun(r, k, 0);
    forall p: nat
      ensures Free(t, p) || In(d, p) <==> Free(old_, p) || In(given, p)
      ensures In(d, p) ==> !Free(t, p)
    {
      DropRun(r, k, p);
      JoinIn(c, r[k], p);
      EndInUse(r, k);
    }
    forall j: nat | j < k ensures Clear(t[j], d) {
      assert t[j] == r[j] && r[j].End() < r[k].base;
      Apart(r, c, j);
    }
  }

  /** At the end c touches nothing, and goes in front of the first run that lies behind it. */
  lemma MergeEnd(old_: seq<Run>, given: Run, r: seq<Run>, c: Run, j: nat)
    requires Merging(old_, given, r, c, |r|) && j <= |r|
    requires (j < |r| ==> c.End() <= r[j].base) && forall i :: 0 <= i < j ==> c.End() > r[i].base
    ensures var t := r[..j] + [c] + r[j..];
            && Sorted(t) && Total(t) == Total(old_) + given.size
            && forall p: nat :: Free(t, p) <==> Free(old_, p) || In(given, p)
  {
    if j > 0 {
      Apart(r, c, j - 1);
      assert Clear(r[j - 1], c);
    }
    if j < |r| { assert Clear(r[j], c); }
    PutSorted(r, j, c);
    PutTotal(r, j, c);
    forall p: nat ensures Free(r[..j] + [c] + r[j..], p) <==> Free(old_, p) || In(given, p) {
      PutFree(r, j, c, p);
    }
  }
}
