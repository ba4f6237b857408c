/** Long runs of the two scheduling classes over a fixed set of runnable processes.

    A run is any sequence of clock ticks and scheduler calls that respects
    need_resched: a process whose time slice is used up does not tick again before
    the scheduler has run. The steps are those of schedule, cfs_enqueue,
    cfs_pick_next and cfs_proc_tick (and of stride_pick_next), on numbers that do
    not wrap; processes are numbered in the order of their pids.
 */
module Fairness {

  datatype Step = Tick | Resched

  /** vruntime, ticks received and time_slice of each process, and the running one. */
  datatype Cfs = Cfs(v: seq<int>, ticks: seq<nat>, slice: seq<nat>, current: nat)

  ghost predicate Shape(s: Cfs, prior: seq<nat>) {
    |s.v| == |s.ticks| == |s.slice| == |prior| && s.current < |prior|
  }

  /** Comes first in the run queue: by vruntime, then by pid. */
  ghost predicate First(v: seq<int>, i: nat) {
    i < |v| && forall j :: 0 <= j < |v| ==> v[i] < v[j] || (v[i] == v[j] && i <= j)
  }

  ghost predicate Next(prior: seq<nat>, max: nat, s: Cfs, step: Step, s': Cfs)
    requires Shape(s, prior)
  {
    var c := s.current;
    match step
    case Tick =>
      && s.slice[c] > 0
      && s' == s.(v := s.v[c := s.v[c] + prior[c]], ticks := s.ticks[c := s.ticks[c] + 1],
            slice := s.slice[c := s.slice[c] - 1])
    case Resched =>
      // the running process is queued again, and the first of the queue taken out
      var slice := if s.slice[c] == 0 || s.slice[c] > max then s.slice[c := max] else s.slice;
      First(s.v, s'.current) && s' == s.(slice := slice, current := s'.current)
  }

  ghost predicate Run(prior: seq<nat>, max: nat, s: Cfs, steps: seq<Step>, s': Cfs)
    requires Shape(s, prior)
    decreases |steps|
  {
    if steps == [] then s' == s
    else exists m :: Next(prior, max, s, steps[0], m) && Shape(m, prior) && Run(prior, max, m, steps[1..], s')
  }

  ghost predicate Within(v: seq<int>, d: int) {
    forall i, j :: 0 <= i < |v| && 0 <= j < |v| ==> v[i] - v[j] <= d
  }

  /** All virtual times lie in [base, base + d], and the running process cannot leave that range before it is
      descheduled. */
  ghost predicate Banded(prior: seq<nat>, max: nat, d: int, base: int, s: Cfs) {
    && Shape(s, prior)
    && (forall i :: 0 <= i < |prior| ==> base <= s.v[i] <= base + d && s.slice[i] <= max && max * prior[i] <= d)
    && s.v[s.current] + s.slice[s.current] * prior[s.current] <= base + d
  }

  lemma SliceBound(slice: nat, max: nat, prior: nat)
    requires slice <= max
    ensures slice * prior <= max * prior
  {
  }

  lemma StepKeepsBand(prior: seq<nat>, max: nat, d: int, base: int, s: Cfs, step: Step, s': Cfs) returns (base': int)
    requires Banded(prior, max, d, base, s) && Next(prior, max, s, step, s') && Shape(s', prior)
    ensures Banded(prior, max, d, base', s')
  {
    match step
    case Tick =>
      base' := base;
      var c := s.current;
      assert s.slice[c] * prior[c] == (s.slice[c] - 1) * prior[c] + prior[c];
    case Resched =>
      base' := s.v[s'.current];
      SliceBound(s'.slice[s'.current], max, prior[s'.current]);
  }

  /** What t additions of p amount to: p * t. */
  ghost function Paid(p: nat, t: nat): nat {
    if t == 0 then 0 else Paid(p, t - 1) + p
  }

  lemma {:induction false} PaidIsProduct(p: nat, t: nat)
    ensures Paid(p, t) == p * t
  {
    if t > 0 {
      PaidIsProduct(p, t - 1);
      assert p * t == p * (t - 1) + p;
    }
  }

  /** Every tick adds the process's priority to its virtual time. */
  ghost predicate Accounted(prior: seq<nat>, s: Cfs, s': Cfs) {
    && Shape(s, prior) && Shape(s', prior)
    && forall i :: 0 <= i < |prior| ==> s'.v[i] - s.v[i] == Paid(prior[i], s'.ticks[i]) - Paid(prior[i], s.ticks[i])
  }

  lemma StepAccounted(prior: seq<nat>, max: nat, s: Cfs, step: Step, s': Cfs)
    requires Shape(s, prior) && Next(prior, max, s, step, s') && Shape(s', prior)
    ensures Accounted(prior, s, s')
  {
  }

  lemma {:induction false} RunKeepsBand(prior: seq<nat>, max: nat, d: int, base: int, s: Cfs, steps: seq<Step>, s': Cfs)
    returns (base': int)
    requires Banded(prior, max, d, base, s) && Run(prior, max, s, steps, s')
    ensures Banded(prior, max, d, base', s') && Accounted(prior, s, s')
    decreases |steps|
  {
    base' := base;
    if steps != [] {
      var m :| Next(prior, max, s, steps[0], m) && Shape(m, prior) && Run(prior, max, m, steps[1..], s');
      base' := StepKeepsBand(prior, max, d, base, s, steps[0], m);
      StepAccounted(prior, max, s, steps[0], m);
      base' := RunKeepsBand(prior, max, d, base', m, steps[1..], s');
    }
  }

  lemma {:induction false} Least(v: seq<int>) returns (i: nat)
    requires v != []
    ensures i < |v| && forall j :: 0 <= j < |v| ==> v[i] <= v[j]
  {
    i := 0;
    if |v| > 1 {
      var k := Least(v[1..]);
      i := if v[0] <= v[1..][k] then 0 else k + 1;
      assert forall j :: 0 < j < |v| ==> v[j] == v[1..][j - 1];
    }
  }

  /** CFS is fair: from a scheduling point with spread at most d0, after any run, however long, the virtual
      times are within d of each other, where d is the larger of d0 and what one slice can add; and the
      weighted processor time that any two processes received differs by at most d + d0. */
  lemma CfsIsFair(prior: seq<nat>, max: nat, d0: nat, d: nat, s: Cfs, steps: seq<Step>, s': Cfs)
    requires Shape(s, prior) && Within(s.v, d0) && (s.slice[s.current] == 0 || First(s.v, s.current))
    requires forall i :: 0 <= i < |prior| ==> s.slice[i] <= max && s.ticks[i] == 0
    requires d0 <= d && forall i :: 0 <= i < |prior| ==> max * prior[i] <= d
    requires Run(prior, max, s, steps, s')
    ensures Shape(s', prior) && Within(s'.v, d)
    ensures forall i, j :: 0 <= i < |prior| && 0 <= j < |prior| ==>
      prior[i] * s'.ticks[i] - prior[j] * s'.ticks[j] <= d + d0
  {
    var base := StartBanded(prior, max, d0, d, s);
    base := RunKeepsBand(prior, max, d, base, s, steps, s');
    BandIsWithin(prior, max, d, base, s');
    forall i, j | 0 <= i < |prior| && 0 <= j < |prior|
      ensures prior[i] * s'.ticks[i] - prior[j] * s'.ticks[j] <= d + d0
    {
      FairPair(prior, d0, d, s, s', i, j);
    }
  }

  lemma StartBanded(prior: seq<nat>, max: nat, d0: nat, d: nat, s: Cfs) returns (base: int)
    requires Shape(s, prior) && Within(s.v, d0) && (s.slice[s.current] == 0 || First(s.v, s.current))
    requires d0 <= d && forall i :: 0 <= i < |prior| ==> s.slice[i] <= max && max * prior[i] <= d
    ensures Banded(prior, max, d, base, s)
  {
    var low := Least(s.v);
    base := s.v[low];
    SliceBound(s.slice[s.current], max, prior[s.current]);
  }

  lemma BandIsWithin(prior: seq<nat>, max: nat, d: nat, base: int, s: Cfs)
    requires Banded(prior, max, d, base, s)
    ensures Shape(s, prior) && Within(s.v, d)
  {
  }

  lemma FairPair(prior: seq<nat>, d0: nat, d: nat, s: Cfs, s': Cfs, i: nat, j: nat)
    requires Accounted(prior, s, s') && Within(s.v, d0) && Within(s'.v, d) && i < |prior| && j < |prior|
    requires s.ticks[i] == 0 && s.ticks[j] == 0
    ensures prior[i] * s'.ticks[i] - prior[j] * s'.ticks[j] <= d + d0
  {
    PaidIsProduct(prior[i], s'.ticks[i]);
    PaidIsProduct(prior[j], s'.ticks[j]);
  }

  // ---------- stride ----------

  /** Unbounded stride of each process, and how often it was picked. */
  datatype Strides = Strides(v: seq<int>, picks: seq<nat>)

  ghost predicate Picked(pass: seq<nat>, s: Strides, s': Strides) {
    && |s.v| == |s.picks| == |pass|
    && exists i: nat :: First(s.v, i) && s' == Strides(s.v[i := s.v[i] + pass[i]], s.picks[i := s.picks[i] + 1])
  }

  ghost predicate PickRun(pass: seq<nat>, s: Strides, n: nat, s': Strides)
    decreases n
  {
    if n == 0 then s' == s else exists m :: Picked(pass, s, m) && PickRun(pass, m, n - 1, s')
  }

  /** One pick. */
  lemma PickKeepsSpread(pass: seq<nat>, d: nat, s: Strides, m: Strides)
    requires |s.v| == |s.picks| == |pass| && Within(s.v, d) && Picked(pass, s, m)
    requires forall i :: 0 <= i < |pass| ==> pass[i] <= d
    ensures |m.v| == |m.picks| == |pass| && Within(m.v, d)
    ensures forall i :: 0 <= i < |pass| ==> m.v[i] - s.v[i] == Paid(pass[i], m.picks[i]) - Paid(pass[i], s.picks[i])
  {
    var i: nat :| First(s.v, i) && m == Strides(s.v[i := s.v[i] + pass[i]], s.picks[i := s.picks[i] + 1]);
  }

  lemma {:induction false} PicksKeepSpread(pass: seq<nat>, d: nat, s: Strides, n: nat, s': Strides)
    requires |s.v| == |s.picks| == |pass| && Within(s.v, d) && PickRun(pass, s, n, s')
    requires forall i :: 0 <= i < |pass| ==> pass[i] <= d
    ensures |s'.v| == |s'.picks| == |pass| && Within(s'.v, d)
    ensures forall i :: 0 <= i < |pass| ==> s'.v[i] - s.v[i] == Paid(pass[i], s'.picks[i]) - Paid(pass[i], s.picks[i])
    decreases n
  {
    hide Picked, Within, Paid;
    if n > 0 {
      var m :| Picked(pass, s, m) && PickRun(pass, m, n - 1, s');
      PickKeepsSpread(pass, d, s, m);
      PicksKeepSpread(pass, d, m, n - 1, s');
    }
  }

  /** Stride scheduling is proportional: pass[i] * picks[i] never differs by more than twice the largest step. */
  lemma StrideIsProportional(pass: seq<nat>, d: nat, s: Strides, n: nat, s': Strides, i: nat, j: nat)
    requires |s.v| == |s.picks| == |pass| && Within(s.v, d) && PickRun(pass, s, n, s')
    requires forall i :: 0 <= i < |pass| ==> pass[i] <= d && s.picks[i] == 0
    requires i < |pass| && j < |pass|
    ensures |s'.picks| == |pass| && pass[i] * s'.picks[i] - pass[j] * s'.picks[j] <= 2 * d
  {
    PicksKeepSpread(pass, d, s, n, s');
    PaidIsProduct(pass[i], s'.picks[i]);
    PaidIsProduct(pass[j], s'.picks[j]);
  }

  /** The picks x and y of two processes are as the shares a and b of n that their steps are, up to the spread d of the
      keys and what rounding takes from the steps. */
  ghost predicate InShares(n: nat, d: nat, a: nat, x: nat, b: nat, y: nat) {
    n * (b * x - a * y) <= 2 * d * (a * b) + (a - 1) * (b * x)
  }

  lemma Mul(a: int, b: int, c: int)
    requires a <= b && c >= 0
    ensures a * c <= b * c
  {
  }

  lemma Times(x: int, y: int, c: int)
    ensures (x - y) * c == x * c - y * c
  {
  }

  lemma Regroup(p: int, x: int, a: int, b: int)
    ensures p * x * (a * b) == p * a * (b * x)
  {
  }

  lemma SharesFollow(n: nat, d: nat, a: nat, x: nat, b: nat, y: nat, p: nat, q: nat)
    requires a > 0 && b > 0 && n < (p + 1) * a && q * b <= n && p * x - q * y <= 2 * d
    ensures InShares(n, d, a, x, b, y)
  {
    assert p * a >= n - (a - 1) by { Times(p + 1, 1, a); }
    Times(p * x, q * y, a * b);
    Regroup(p, x, a, b);
    Regroup(q, y, b, a);
    Commutes(a, b);
    Mul(p * x - q * y, 2 * d, a * b);
    Mul(n - (a - 1), p * a, b * x);
    Times(n, a - 1, b * x);
    Mul(q * b, n, a * y);
    Shared(n, b * x, a * y);
  }

  lemma Commutes(a: nat, b: nat)
    ensures a * b == b * a >= 0
  {
  }

  lemma Shared(n: int, u: int, w: int)
    ensures n * (u - w) == n * u - n * w
  {
  }
}
