/** Long runs of the scheduler itself over a fixed set of runnable processes: its ticks and scheduler calls are the
    steps of `Fairness`, so its bounds hold of them. */
module FairRuns {
  import opened Process
  import opened RbShape
  import opened RbTree
  import opened RunQueue
  import F = Fairness
  import S = Scheduler

  /** The processes that compete, in the order of their pids. */
  ghost predicate Numbered(ps: seq<Proc>, active: set<Proc>) {
    && (forall i, j :: 0 <= i < j < |ps| ==> ps[i].pid < ps[j].pid)
    && (forall i :: 0 <= i < |ps| ==> ps[i] in active)
    && (forall p :: p in active ==> exists i :: 0 <= i < |ps| && ps[i] == p)
  }

  /** The keys in that order. */
  ghost predicate KeysAre(v: Keys, ps: seq<Proc>, ks: seq<int>) {
    |ks| == |ps| && forall i :: 0 <= i < |ps| ==> ps[i] in v && v[ps[i]] == ks[i]
  }

  /** The first in the order of the queue is the first in the order of the numbers. */
  lemma LeastIsFirst(v: Keys, ps: seq<Proc>, ks: seq<int>, active: set<Proc>, p: Proc) returns (i: nat)
    requires Numbered(ps, active) && KeysAre(v, ps, ks) && Least(v, active, p)
    ensures i < |ps| == |ks| && ps[i] == p && p in active && F.First(ks, i)
  {
    i :| 0 <= i < |ps| && ps[i] == p;
    forall j | 0 <= j < |ks| ensures ks[i] < ks[j] || (ks[i] == ks[j] && i <= j) {
      assert j != i ==> ps[j] != p && Less(v, p, ps[j]);
    }
  }

  lemma PlaceOf(ps: seq<Proc>, active: set<Proc>, p: Proc) returns (i: nat)
    requires Numbered(ps, active) && p in active
    ensures i < |ps| && ps[i] == p && forall j :: 0 <= j < |ps| && j != i ==> ps[j] != p
  {
    i :| 0 <= i < |ps| && ps[i] == p;
  }

  function IndexOf(ps: seq<Proc>, p: Proc): (i: nat)
    requires p in ps
    ensures i < |ps| && ps[i] == p
  {
    if ps[0] == p then 0 else 1 + IndexOf(ps[1..], p)
  }

  // ---------- CFS ----------

  /** The state of the scheduler as one of `Fairness`. */
  ghost predicate Shows(s: S.Scheduler, ps: seq<Proc>, m: F.Cfs)
    reads s, s.rq, ps
  {
    && KeysAre(s.rq.keys, ps, m.v) && |m.slice| == |m.ticks| == |ps| && m.current < |ps| && ps[m.current] == s.current
    && forall i :: 0 <= i < |ps| ==> m.slice[i] == ps[i].timeSlice
  }

  ghost predicate Priors(ps: seq<Proc>, prior: seq<nat>)
    reads ps
  {
    |prior| == |ps| && forall i :: 0 <= i < |ps| ==> prior[i] == ps[i].cfsPrior
  }

  lemma CurrentActive(s: S.Scheduler, ps: seq<Proc>, m: F.Cfs)
    requires s.Valid() && Numbered(ps, s.Active()) && Shows(s, ps, m)
    ensures s.current in s.Active() && s.current != s.idle && s.current.state == Runnable && s.current in s.procs
    ensures s.rq.cls == Cfs ==> s.rq.keys[s.current] == s.current.vruntime
  {
    assert Reflects(s.rq.cls, s.rq.keys, s.current);
  }

  /** A tick of the scheduler is a tick of `Fairness`, as long as the virtual time does not wrap. */
  method Tick(s: S.Scheduler, ps: seq<Proc>, ghost prior: seq<nat>, ghost m: F.Cfs) returns (ghost m': F.Cfs)
    requires s.Valid() && s.rq.cls == Cfs && Numbered(ps, s.Active()) && Shows(s, ps, m) && Priors(ps, prior)
    requires s.current.timeSlice > 0 && s.current.cfsPrior != 0 && s.current.vruntime + s.current.cfsPrior < WORD
    requires 0 <= s.rq.maxTimeSlice
    modifies s.rq`keys, s.current`vruntime, s.current`timeSlice, s.current`needResched
    ensures s.Valid() && s.Active() == old(s.Active()) && Shows(s, ps, m')
    ensures F.Next(prior, s.rq.maxTimeSlice, m, F.Tick, m')
    ensures F.Shape(m', prior)
  {
    hide S.Scheduler.Queued, S.Scheduler.Active, Numbered;
    CurrentActive(s, ps, m);
    ghost var c := PlaceOf(ps, s.Active(), s.current);
    var ok := s.Tick();
    m' := m.(v := m.v[c := m.v[c] + prior[c]], ticks := m.ticks[c := m.ticks[c] + 1],
        slice := m.slice[c := m.slice[c] - 1]);
  }

  /** What schedule() leaves of the state, for a running process of ps. */
  lemma Rescheduled(max: nat, m: F.Cfs, prior: seq<nat>, i: nat) returns (m': F.Cfs)
    requires F.Shape(m, prior) && F.First(m.v, i)
    ensures F.Shape(m', prior) && F.Next(prior, max, m, F.Resched, m') && m'.current == i && m'.v == m.v
    ensures m'.slice == if m.slice[m.current] == 0 || m.slice[m.current] > max then m.slice[m.current := max]
              else m.slice
  {
    var c := m.current;
    m' := m.(slice := if m.slice[c] == 0 || m.slice[c] > max then m.slice[c := max] else m.slice, current := i);
  }

  /** A call of the scheduler is a rescheduling of `Fairness`. */
  method Resched(s: S.Scheduler, ps: seq<Proc>, ghost prior: seq<nat>, ghost m: F.Cfs) returns (ghost m': F.Cfs)
    requires s.Valid() && s.rq.cls == Cfs && Numbered(ps, s.Active()) && Shows(s, ps, m) && Priors(ps, prior)
    requires 0 <= s.rq.maxTimeSlice
    modifies s`current, s.rq, s.rq.root, Nodes(s.rq.tree)
    modifies s.procs`stride, s.procs`needResched, s.procs`timeSlice, s.procs`runs
    ensures s.Valid() && s.Active() == old(s.Active()) && Shows(s, ps, m')
    ensures F.Next(prior, s.rq.maxTimeSlice, m, F.Resched, m')
    ensures F.Shape(m', prior)
    ensures forall n :: n in Nodes(s.rq.tree) ==> n in old(Nodes(s.rq.tree)) || fresh(n)
  {
    hide S.Scheduler.Queued, S.Scheduler.Active, Numbered, Least;
    CurrentActive(s, ps, m);
    ActiveListed(s, ps);
    ghost var c := PlaceOf(ps, s.Active(), s.current);
    var ok := s.Schedule();
    ghost var i := LeastIsFirst(s.rq.keys, ps, m.v, s.Active(), s.current);
    m' := Rescheduled(s.rq.maxTimeSlice, m, prior, i);
  }

  lemma ActiveListed(s: S.Scheduler, ps: seq<Proc>)
    requires Numbered(ps, s.Active())
    ensures forall i :: 0 <= i < |ps| ==> ps[i] in s.procs
  {
  }

  /** A run and one more step. */
  lemma {:induction false} RunOn(prior: seq<nat>, max: nat, s: F.Cfs, steps: seq<F.Step>, m: F.Cfs, step: F.Step,
                                 m': F.Cfs)
    requires F.Shape(s, prior) && F.Run(prior, max, s, steps, m)
    requires F.Shape(m, prior) && F.Next(prior, max, m, step, m') && F.Shape(m', prior)
    ensures F.Run(prior, max, s, steps + [step], m')
    decreases |steps|
  {
    var all := steps + [step];
    if steps == [] {
      assert all[1..] == [];
      assert F.Run(prior, max, m', all[1..], m');
    } else {
      var n :| F.Next(prior, max, s, steps[0], n) && F.Shape(n, prior) && F.Run(prior, max, n, steps[1..], m);
      RunOn(prior, max, n, steps[1..], m, step, m');
      assert all[1..] == steps[1..] + [step];
    }
  }

  /** Slices as enqueueing leaves them, and virtual times that do not wrap within n ticks. */
  ghost predicate Roomy(ps: seq<Proc>, prior: seq<nat>, max: int, n: nat)
    reads ps
  {
    && Priors(ps, prior)
    && forall i :: 0 <= i < |ps| ==>
         0 <= ps[i].timeSlice <= max && prior[i] != 0 && ps[i].vruntime + F.Paid(prior[i], n) < WORD
  }

  /** The first call of the scheduler, whatever has been running. */
  method Begin(s: S.Scheduler, ps: seq<Proc>, ghost prior: seq<nat>, ghost n: nat) returns (ghost m: F.Cfs)
    requires s.Valid() && s.rq.cls == Cfs && Numbered(ps, s.Active()) && ps != []
    requires Roomy(ps, prior, s.rq.maxTimeSlice, n)
    modifies s`current, s.rq, s.rq.root, Nodes(s.rq.tree)
    modifies s.procs`stride, s.procs`needResched, s.procs`timeSlice, s.procs`runs
    ensures s.Valid() && s.Active() == old(s.Active()) && Shows(s, ps, m) && Roomy(ps, prior, s.rq.maxTimeSlice, n)
    ensures F.Shape(m, prior) && F.First(m.v, m.current) && forall i :: 0 <= i < |ps| ==> m.ticks[i] == 0
    ensures forall i :: 0 <= i < |ps| ==> m.v[i] == ps[i].vruntime
    ensures forall p :: p in Nodes(s.rq.tree) ==> p in old(Nodes(s.rq.tree)) || fresh(p)
  {
    hide S.Scheduler.Queued, S.Scheduler.Active, Numbered, Least, F.Paid;
    ActiveListed(s, ps);
    KeysHeld(s, ps);
    var ok := s.Schedule();
    m := Begun(s, ps, prior);
  }

  lemma Begun(s: S.Scheduler, ps: seq<Proc>, prior: seq<nat>) returns (m: F.Cfs)
    requires Numbered(ps, s.Active()) && Least(s.rq.keys, s.Active(), s.current) && Priors(ps, prior)
    requires forall i :: 0 <= i < |ps| ==>
               0 <= ps[i].timeSlice && ps[i] in s.rq.keys && s.rq.keys[ps[i]] == ps[i].vruntime
    ensures Shows(s, ps, m) && F.Shape(m, prior) && F.First(m.v, m.current)
    ensures forall i :: 0 <= i < |ps| ==> m.ticks[i] == 0 && m.v[i] == ps[i].vruntime
  {
    var v := seq(|ps|, i requires 0 <= i < |ps| reads ps => ps[i].vruntime as int);
    var c := LeastIsFirst(s.rq.keys, ps, v, s.Active(), s.current);
    m := F.Cfs(v, seq(|ps|, i => 0), seq(|ps|, i requires 0 <= i < |ps| reads ps => ps[i].timeSlice), c);
  }

  lemma KeysHeld(s: S.Scheduler, ps: seq<Proc>)
    requires s.Valid() && s.rq.cls == Cfs && Numbered(ps, s.Active())
    ensures ps != [] ==> s.Active() != {}
    ensures forall i :: 0 <= i < |ps| ==> ps[i] in s.rq.keys && s.rq.keys[ps[i]] == ps[i].vruntime
  {
    assert ps != [] ==> ps[0] in s.Active();
    forall i | 0 <= i < |ps| ensures ps[i] in s.rq.keys && s.rq.keys[ps[i]] == ps[i].vruntime {
      assert Reflects(s.rq.cls, s.rq.keys, ps[i]);
    }
  }

  /** The scheduler has come from `first` to `m` by the steps `done`, and can take n more. */
  ghost predicate Going(s: S.Scheduler, ps: seq<Proc>, prior: seq<nat>, first: F.Cfs, done: seq<F.Step>, m: F.Cfs,
                        n: nat)
    reads s, s.rq, ps
  {
    && s.rq.cls == Cfs && Shows(s, ps, m) && Roomy(ps, prior, s.rq.maxTimeSlice, n) && 0 <= s.rq.maxTimeSlice
    && F.Shape(first, prior) && F.Shape(m, prior) && F.Run(prior, s.rq.maxTimeSlice, first, done, m)
  }

  lemma RoomLeft(s: S.Scheduler, ps: seq<Proc>, prior: seq<nat>, m: F.Cfs, step: F.Step, m': F.Cfs, n: nat)
    requires s.Valid() && s.rq.cls == Cfs && Numbered(ps, s.Active()) && Shows(s, ps, m') && Priors(ps, prior)
    requires 0 <= s.rq.maxTimeSlice && F.Shape(m, prior) && F.Next(prior, s.rq.maxTimeSlice, m, step, m') && n > 0
    requires forall i :: 0 <= i < |ps| ==>
               m.slice[i] <= s.rq.maxTimeSlice && prior[i] != 0 && m.v[i] + F.Paid(prior[i], n) < WORD
    ensures Roomy(ps, prior, s.rq.maxTimeSlice, n - 1)
  {
    KeysHeld(s, ps);
  }

  /** A tick, if there is time left, or else a call of the scheduler. */
  method OneStep(s: S.Scheduler, ps: seq<Proc>, step: F.Step, ticks: seq<nat>, ghost prior: seq<nat>,
                 ghost first: F.Cfs,
                 ghost done: seq<F.Step>, ghost m: F.Cfs, ghost n: nat)
    returns (ticks': seq<nat>, ghost done': seq<F.Step>, ghost m': F.Cfs)
    requires s.Valid() && Numbered(ps, s.Active()) && Going(s, ps, prior, first, done, m, n) && n > 0
    requires m.ticks == ticks
    modifies s`current, s.rq, s.rq.root, Nodes(s.rq.tree)
    modifies s.procs`stride, s.procs`needResched, s.procs`timeSlice, s.procs`runs, s.procs`vruntime
    ensures s.Valid() && s.Active() == old(s.Active()) && Going(s, ps, prior, first, done', m', n - 1)
    ensures m'.ticks == ticks'
    ensures forall x :: x in Nodes(s.rq.tree) ==> x in old(Nodes(s.rq.tree)) || fresh(x)
  {
    hide S.Scheduler.Queued, S.Scheduler.Active, Numbered, F.Run;
    CurrentActive(s, ps, m);
    ActiveListed(s, ps);
    KeysHeld(s, ps);
    if step == F.Tick && s.current.timeSlice > 0 {
      ghost var i := PlaceOf(ps, s.Active(), s.current);
      var c := IndexOf(ps, s.current);
      m' := Tick(s, ps, prior, m);
      RoomLeft(s, ps, prior, m, F.Tick, m', n);
      RunOn(prior, s.rq.maxTimeSlice, first, done, m, F.Tick, m');
      done' := done + [F.Tick];
      ticks' := ticks[c := ticks[c] + 1];
    } else {
      m' := Resched(s, ps, prior, m);
      RoomLeft(s, ps, prior, m, F.Resched, m', n);
      RunOn(prior, s.rq.maxTimeSlice, first, done, m, F.Resched, m');
      done' := done + [F.Resched];
      ticks' := ticks;
    }
  }

  /** CFS is fair: however many ticks come and however often the scheduler is called, the virtual times of the
      processes stay within d of each other, where d is the larger of their first spread d0 and what one slice can
      add, and the weighted processor times that any two have received differ by at most d + d0. A process whose slice
      is used up is descheduled. */
  method CfsRun(s: S.Scheduler, ps: seq<Proc>, steps: seq<F.Step>, ghost prior: seq<nat>, ghost d0: nat, ghost d: nat)
    returns (ticks: seq<nat>)
    requires s.Valid() && s.rq.cls == Cfs && Numbered(ps, s.Active()) && ps != []
    requires Roomy(ps, prior, s.rq.maxTimeSlice, |steps|)
    requires d0 <= d && forall i, j :: 0 <= i < |ps| && 0 <= j < |ps| ==> ps[i].vruntime - ps[j].vruntime <= d0
    requires forall i :: 0 <= i < |ps| ==> s.rq.maxTimeSlice * prior[i] <= d
    modifies s`current, s.rq, s.rq.root, Nodes(s.rq.tree)
    modifies s.procs`stride, s.procs`needResched, s.procs`timeSlice, s.procs`runs, s.procs`vruntime
    ensures s.Valid() && s.Active() == old(s.Active()) && |ticks| == |ps|
    ensures forall i, j :: 0 <= i < |ps| && 0 <= j < |ps| ==>
              && ps[i].vruntime - ps[j].vruntime <= d
              && prior[i] * ticks[i] - prior[j] * ticks[j] <= d + d0
  {
    hide S.Scheduler.Queued, S.Scheduler.Active, Numbered, Going, Roomy, F.Run;
    ActiveListed(s, ps);
    ghost var first := Begin(s, ps, prior, |steps|);
    Starts(s, ps, prior, first, |steps|);
    ghost var slices := first.slice;
    ghost var m, done: seq<F.Step> := first, [];
    ticks := seq(|ps|, i => 0);
    var k := 0;
    while k < |steps|
      invariant k <= |steps| && s.Valid() && s.Active() == old(s.Active()) && s.rq.cls == Cfs
      invariant Going(s, ps, prior, first, done, m, |steps| - k) && m.ticks == ticks
      invariant forall n :: n in Nodes(s.rq.tree) ==> n in old(Nodes(s.rq.tree)) || fresh(n)
    {
      ticks, done, m := OneStep(s, ps, steps[k], ticks, prior, first, done, m, |steps| - k);
      k := k + 1;
    }
    KeysHeld(s, ps);
    Ends(s, ps, prior, first, done, m, d0, d);
  }

  lemma Starts(s: S.Scheduler, ps: seq<Proc>, prior: seq<nat>, first: F.Cfs, n: nat)
    requires s.rq.cls == Cfs && ps != [] && Shows(s, ps, first) && Roomy(ps, prior, s.rq.maxTimeSlice, n)
    requires F.Shape(first, prior)
    ensures Going(s, ps, prior, first, [], first, n)
    ensures forall i :: 0 <= i < |ps| ==> first.slice[i] <= s.rq.maxTimeSlice
  {
    assert 0 <= ps[0].timeSlice;
  }

  lemma Ends(s: S.Scheduler, ps: seq<Proc>, prior: seq<nat>, first: F.Cfs, done: seq<F.Step>, m: F.Cfs, d0: nat, d: nat)
    requires Going(s, ps, prior, first, done, m, 0) && F.First(first.v, first.current)
    requires d0 <= d && F.Within(first.v, d0) && forall i :: 0 <= i < |ps| ==> s.rq.maxTimeSlice * prior[i] <= d
    requires forall i :: 0 <= i < |ps| ==> first.slice[i] <= s.rq.maxTimeSlice && first.ticks[i] == 0
    ensures F.Shape(m, prior) && Shows(s, ps, m) && F.Within(m.v, d)
    ensures forall i, j :: 0 <= i < |ps| && 0 <= j < |ps| ==> prior[i] * m.ticks[i] - prior[j] * m.ticks[j] <= d + d0
  {
    F.CfsIsFair(prior, s.rq.maxTimeSlice, d0, d, first, done, m);
  }

  // ---------- stride ----------

  lemma {:induction false} PickOn(pass: seq<nat>, s: F.Strides, n: nat, m: F.Strides, m': F.Strides)
    requires F.PickRun(pass, s, n, m) && F.Picked(pass, m, m')
    ensures F.PickRun(pass, s, n + 1, m')
    decreases n
  {
    if n == 0 {
      assert F.PickRun(pass, m', 0, m');
    } else {
      var x :| F.Picked(pass, s, x) && F.PickRun(pass, x, n - 1, m);
      PickOn(pass, x, n - 1, m, m');
    }
  }

  /** The steps by which the strides move on. */
  ghost predicate Passes(ps: seq<Proc>, pass: seq<nat>)
    reads ps
  {
    |pass| == |ps| && forall i :: 0 <= i < |ps| ==> ps[i].stridePrior != 20 && pass[i] == Pass(ps[i].stridePrior)
  }

  /** What schedule() does to the strides is a pick of `Fairness`. */
  lemma PickedLeast(v: Keys, w: Keys, ps: seq<Proc>, active: set<Proc>, p: Proc, pass: seq<nat>, m: F.Strides)
    returns (i: nat, m': F.Strides)
    requires Numbered(ps, active) && KeysAre(v, ps, m.v) && Least(v, active, p) && Passes(ps, pass) && |m.picks| == |ps|
    requires p.stridePrior != 20 && w == Advance(v, p)
    ensures i < |ps| && ps[i] == p && m'.picks == m.picks[i := m.picks[i] + 1]
    ensures forall j :: 0 <= j < |ps| && ps[j] == p ==> j == i
    ensures KeysAre(w, ps, m'.v) && F.Picked(pass, m, m')
  {
    hide Pass, Numbered, Least, KeysAre, Advance, F.First;
    i := LeastIsFirst(v, ps, m.v, active, p);
    var c := PlaceOf(ps, active, p);
    KeysMoved(v, ps, m.v, i, pass[i]);
    m' := F.Strides(m.v[i := m.v[i] + pass[i]], m.picks[i := m.picks[i] + 1]);
    assert w == v[p := v[p] + pass[i]] by { OneMoved(v, ps, m.v, i); }
  }

  lemma OneMoved(v: Keys, ps: seq<Proc>, ks: seq<int>, i: nat)
    requires KeysAre(v, ps, ks) && i < |ps| && ps[i].stridePrior != 20
    ensures ps[i] in v && |ks| == |ps| && v[ps[i]] == ks[i]
    ensures Advance(v, ps[i]) == v[ps[i] := v[ps[i]] + Pass(ps[i].stridePrior)]
  {
    hide Pass;
  }

  lemma KeysMoved(v: Keys, ps: seq<Proc>, ks: seq<int>, i: nat, d: int)
    requires KeysAre(v, ps, ks) && i < |ps| && forall j :: 0 <= j < |ps| && j != i ==> ps[j] != ps[i]
    ensures |ks| == |ps| && ps[i] in v && KeysAre(v[ps[i] := v[ps[i]] + d], ps, ks[i := ks[i] + d])
  {
  }

  /** A call of the scheduler is a pick of `Fairness`. */
  method Pick(s: S.Scheduler, ps: seq<Proc>, ghost pass: seq<nat>, ghost m: F.Strides)
    returns (ghost i: nat, ghost m': F.Strides)
    requires s.Valid() && s.rq.cls == Stride && Numbered(ps, s.Active()) && ps != [] && Passes(ps, pass)
    requires KeysAre(s.rq.keys, ps, m.v) && |m.picks| == |ps|
    modifies s`current, s.rq, s.rq.root, Nodes(s.rq.tree)
    modifies s.procs`stride, s.procs`needResched, s.procs`timeSlice, s.procs`runs
    ensures s.Valid() && s.Active() == old(s.Active()) && i < |ps| && m'.picks == m.picks[i := m.picks[i] + 1]
    ensures ps[i] == s.current && forall j :: 0 <= j < |ps| && ps[j] == s.current ==> j == i
    ensures KeysAre(s.rq.keys, ps, m'.v) && F.Picked(pass, m, m')
    ensures forall n :: n in Nodes(s.rq.tree) ==> n in old(Nodes(s.rq.tree)) || fresh(n)
  {
    hide S.Scheduler.Queued, S.Scheduler.Active, Numbered, Least, KeysAre, S.Scheduler.Stops, Advance;
    GoesOn(s, ps, pass);
    ghost var v := s.rq.keys;
    var ok := s.Schedule();
    i, m' := PickedLeast(v, s.rq.keys, ps, s.Active(), s.current, pass, m);
  }

  lemma GoesOn(s: S.Scheduler, ps: seq<Proc>, pass: seq<nat>)
    requires Numbered(ps, s.Active()) && ps != [] && Passes(ps, pass)
    ensures !s.Stops() && s.Active() != {} && forall i :: 0 <= i < |ps| ==> ps[i] in s.procs
  {
    assert ps[0] in s.Active();
  }

  /** A tick, which moves no stride, or a call of the scheduler. */
  method StrideStep(s: S.Scheduler, ps: seq<Proc>, step: F.Step, picks: seq<nat>, ghost pass: seq<nat>,
                    ghost first: F.Strides,
                    ghost n: nat, ghost m: F.Strides)
    returns (picks': seq<nat>, ghost n': nat, ghost m': F.Strides)
    requires s.Valid() && s.rq.cls == Stride && Numbered(ps, s.Active()) && ps != [] && Passes(ps, pass)
    requires KeysAre(s.rq.keys, ps, m.v) && m.picks == picks && |picks| == |ps| && F.PickRun(pass, first, n, m)
    modifies s`current, s.rq, s.rq.root, Nodes(s.rq.tree)
    modifies s.procs`stride, s.procs`needResched, s.procs`timeSlice, s.procs`runs, s.procs`vruntime
    ensures s.Valid() && s.Active() == old(s.Active())
    ensures KeysAre(s.rq.keys, ps, m'.v) && m'.picks == picks' && |picks'| == |ps| && F.PickRun(pass, first, n', m')
    ensures forall x :: x in Nodes(s.rq.tree) ==> x in old(Nodes(s.rq.tree)) || fresh(x)
  {
    hide S.Scheduler.Queued, S.Scheduler.Active, Numbered, F.Picked, F.PickRun, Pass, KeysAre, Passes;
    picks', n', m' := picks, n, m;
    if step == F.Tick {
      CurrentListed(s);
      var ok := s.Tick();
    } else {
      ghost var i;
      i, m' := Pick(s, ps, pass, m);
      PickOn(pass, first, n, m, m');
      n' := n + 1;
      var c := IndexOf(ps, s.current);
      picks' := picks[c := picks[c] + 1];
    }
  }

  /** Stride scheduling is proportional: however often the scheduler is called, the picks of any two processes,
      weighted by their steps, differ by at most 2 * d, where d bounds the steps and the first spread. The strides may
      wrap. */
  method StrideRun(s: S.Scheduler, ps: seq<Proc>, steps: seq<F.Step>, ghost pass: seq<nat>, ghost d: nat)
    returns (picks: seq<nat>)
    requires s.Valid() && s.rq.cls == Stride && Numbered(ps, s.Active()) && ps != [] && Passes(ps, pass)
    requires forall i :: 0 <= i < |ps| ==> pass[i] <= d
    requires forall i, j :: 0 <= i < |ps| && 0 <= j < |ps| ==>
               ps[i] in s.rq.keys && ps[j] in s.rq.keys && s.rq.keys[ps[i]] - s.rq.keys[ps[j]] <= d
    modifies s`current, s.rq, s.rq.root, Nodes(s.rq.tree)
    modifies s.procs`stride, s.procs`needResched, s.procs`timeSlice, s.procs`runs, s.procs`vruntime
    ensures s.Valid() && s.Active() == old(s.Active()) && |picks| == |ps|
    ensures forall i, j :: 0 <= i < |ps| && 0 <= j < |ps| ==> pass[i] * picks[i] - pass[j] * picks[j] <= 2 * d
    ensures forall i, j :: 0 <= i < |ps| && 0 <= j < |ps| && ps[i].stridePrior < 20 && ps[j].stridePrior < 20 ==>
              F.InShares(0x7FFF_FFFF, d, 20 - ps[i].stridePrior, picks[i], 20 - ps[j].stridePrior, picks[j])
    ensures forall i, j :: 0 <= i < |ps| && 0 <= j < |ps| ==>
               ps[i] in s.rq.keys && ps[j] in s.rq.keys && s.rq.keys[ps[i]] - s.rq.keys[ps[j]] <= d
  {
    hide S.Scheduler.Queued, S.Scheduler.Active, Numbered, F.Picked, F.PickRun, Pass, F.InShares;
    GoesOn(s, ps, pass);
    picks := seq(|ps|, i => 0);
    ghost var v := s.rq.keys;
    ghost var first := F.Strides(seq(|ps|, i requires 0 <= i < |ps| && ps[i] in v => v[ps[i]]), picks);
    ghost var m, n := first, 0;
    PickNone(pass, first);
    var k := 0;
    while k < |steps|
      invariant k <= |steps| && s.Valid() && s.Active() == old(s.Active())
      invariant KeysAre(s.rq.keys, ps, m.v) && m.picks == picks && |picks| == |ps| && F.PickRun(pass, first, n, m)
      invariant forall x :: x in Nodes(s.rq.tree) ==> x in old(Nodes(s.rq.tree)) || fresh(x)
    {
      picks, n, m := StrideStep(s, ps, steps[k], picks, pass, first, n, m);
      k := k + 1;
    }
    F.PicksKeepSpread(pass, d, first, n, m);
    forall i, j | 0 <= i < |ps| && 0 <= j < |ps| ensures pass[i] * picks[i] - pass[j] * picks[j] <= 2 * d {
      F.StrideIsProportional(pass, d, first, n, m, i, j);
    }
    PicksInShares(ps, pass, d, picks);
  }

  /** By the priorities: a process of priority p has the share 20 - p. */
  lemma PicksInShares(ps: seq<Proc>, pass: seq<nat>, d: nat, picks: seq<nat>)
    requires Passes(ps, pass) && |picks| == |ps|
    requires forall i, j :: 0 <= i < |ps| && 0 <= j < |ps| ==> pass[i] * picks[i] - pass[j] * picks[j] <= 2 * d
    ensures forall i, j :: 0 <= i < |ps| && 0 <= j < |ps| && ps[i].stridePrior < 20 && ps[j].stridePrior < 20 ==>
              F.InShares(0x7FFF_FFFF, d, 20 - ps[i].stridePrior, picks[i], 20 - ps[j].stridePrior, picks[j])
  {
    hide Pass, F.InShares;
    forall i, j | 0 <= i < |ps| && 0 <= j < |ps| && ps[i].stridePrior < 20 && ps[j].stridePrior < 20
      ensures F.InShares(0x7FFF_FFFF, d, 20 - ps[i].stridePrior, picks[i], 20 - ps[j].stridePrior, picks[j])
    {
      PassExactly(ps[i].stridePrior);
      PassExactly(ps[j].stridePrior);
      F.SharesFollow(0x7FFF_FFFF, d, 20 - ps[i].stridePrior, picks[i], 20 - ps[j].stridePrior, picks[j], pass[i],
        pass[j]);
    }
  }

  lemma PickNone(pass: seq<nat>, first: F.Strides)
    ensures F.PickRun(pass, first, 0, first)
  {
  }

  lemma CurrentListed(s: S.Scheduler)
    requires s.Valid()
    ensures s.current in s.procs
  {
  }
}
