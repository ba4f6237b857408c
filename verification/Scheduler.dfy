/** kern/schedule/sched.c: wakeup_proc and schedule over the run queue.

    `Valid` is what holds between scheduler calls: the tree holds exactly the
    runnable processes other than idle and the running one, once each, sorted,
    with procNum their number, and the keys of all runnable processes stay
    within reach of the wrapped comparison.
 */
module Scheduler {
  import opened Process
  import opened RbShape
  import opened RbTree
  import opened RunQueue

  /** A newcomer with the key that it is given. */
  lemma HasJoined(cls: Class, v: Keys, ps: set<Proc>, proc: Proc, key: int)
    requires Readable(cls, v, ps) && proc !in ps && DistinctPids(ps + {proc})
    requires if cls == Stride then Fits(v, ps, proc.stride, key) else key == proc.vruntime
    ensures Readable(cls, v[proc := key], ps + {proc})
  {
    var w := v[proc := key];
    forall p, q | p in ps + {proc} && q in ps + {proc} ensures Comparable(cls, w, p, q) {
      assert p in ps && q in ps ==> Comparable(cls, v, p, q);
      assert p in ps ==> Reflects(cls, v, p);
      assert q in ps ==> Reflects(cls, v, q);
    }
    forall p | p in ps + {proc} ensures Reflects(cls, w, p) {
      assert p in ps ==> Reflects(cls, v, p);
    }
  }

  /** A process that becomes runnable gets a key within reach of the others, if there is one. */
  lemma Join(cls: Class, v: Keys, ps: set<Proc>, proc: Proc) returns (w: Keys)
    requires Readable(cls, v, ps) && proc !in ps && DistinctPids(ps + {proc})
    ensures cls == Cfs || InReach(ps, proc.stride) ==> Readable(cls, w, ps + {proc})
    ensures forall p :: p in v && p != proc ==> p in w && w[p] == v[p]
  {
    w := v;
    if cls == Cfs {
      HasJoined(cls, v, ps, proc, proc.vruntime);
      w := v[proc := proc.vruntime];
    } else if InReach(ps, proc.stride) {
      JoinExact(v, ps, proc.stride);
      var key :| Fits(v, ps, proc.stride, key);
      HasJoined(cls, v, ps, proc, key);
      w := v[proc := key];
    }
  }

  lemma PidsWithin(ps: set<Proc>, qs: set<Proc>)
    requires DistinctPids(ps) && qs <= ps
    ensures DistinctPids(qs)
  {
  }

  /** Without reach there is no such key. */
  lemma ReachNeeded(v: Keys, w: Keys, ps: set<Proc>, proc: Proc)
    requires Readable(Stride, v, ps) && Readable(Stride, w, ps + {proc})
    ensures InReach(ps, proc.stride)
  {
    assert Readable(Stride, w, ps);
    assert Reflects(Stride, w, proc);
    forall q | q in ps ensures q in w && w[proc] - w[q] <= BIG_STRIDE && w[q] - w[proc] <= BIG_STRIDE {
      assert Comparable(Stride, w, proc, q);
    }
    assert Fits(w, ps, proc.stride, w[proc]);
    JoinExact(w, ps, proc.stride);
  }

  lemma OrderedSame(v: Keys, w: Keys, ns: seq<Node>, proc: Proc)
    requires Ordered(v, ns) && proc !in Procs(ns) && forall p :: p in v && p != proc ==> p in w && w[p] == v[p]
    ensures Ordered(w, ns)
  {
    forall i, j | 0 <= i < j < |ns| ensures Less(w, ns[i].proc, ns[j].proc) {
      assert Less(v, ns[i].proc, ns[j].proc) && ns[i].proc in Procs(ns) && ns[j].proc in Procs(ns);
    }
  }

  class Scheduler {
    const idle: Proc
    var current: Proc
    const rq: Queue
    ghost var procs: set<Proc>

    /** sched_init with the idle process running and alone. */
    constructor (idle: Proc, cls: Class)
      ensures Valid() && this.idle == idle && current == idle && procs == {idle} && rq.cls == cls
      ensures rq.maxTimeSlice == 5
      ensures fresh(rq) && fresh(rq.root) && rq.tree == Leaf && rq.keys == map[]
      ensures Active() == {}
    {
      this.idle := idle;
      current := idle;
      rq := new Queue(cls, 5);
      procs := {idle};
    }

    /** The runnable processes that compete for the processor. */
    ghost function Active(): set<Proc>
      reads this, procs`state
    {
      set p | p in procs && p.state == Runnable && p != idle
    }

    /** Everything but which processes are queued: those of q. */
    ghost predicate Queued(q: set<Proc>)
      reads this, procs, rq, rq.root, Nodes(rq.tree), Procs(InOrder(rq.tree))`stride, Procs(InOrder(rq.tree))`vruntime
    {
      && rq.Valid() && idle in procs && current in procs && DistinctPids(procs)
      && Procs(InOrder(rq.tree)) == q <= Active()
      && Readable(rq.cls, rq.keys, Active())
    }

    ghost predicate Valid()
      reads this, procs, rq, rq.root, Nodes(rq.tree), Procs(InOrder(rq.tree))`stride, Procs(InOrder(rq.tree))`vruntime
    {
      Queued(Active() - {current})
    }

    /** The time slice that sched_class_enqueue leaves. */
    ghost function Refilled(proc: Proc, slice: int): int {
      if proc != idle && (slice == 0 || slice > rq.maxTimeSlice) then rq.maxTimeSlice else slice
    }

    /** sched_class_enqueue: idle is never queued. */
    method SchedEnqueue(proc: Proc)
      requires rq.Linked() && rq.procNum == |InOrder(rq.tree)|
      modifies rq`tree, rq`procNum, rq.root, Nodes(rq.tree), proc`timeSlice
      ensures rq.Linked() && rq.procNum == |InOrder(rq.tree)|
      ensures Procs(InOrder(rq.tree)) == old(Procs(InOrder(rq.tree))) + if proc == idle then {} else {proc}
      ensures old(if proc == idle then Ordered(rq.keys, InOrder(rq.tree)) else rq.Sortable(proc)) ==>
                Ordered(rq.keys, InOrder(rq.tree))
      ensures proc.timeSlice == Refilled(proc, old(proc.timeSlice))
      ensures forall n :: n in Nodes(rq.tree) ==> n in old(Nodes(rq.tree)) || fresh(n)
    {
      if proc != idle {
        rq.Enqueue(proc);
      }
    }

    /** The comparison tells proc apart from all runnable processes. */
    ghost predicate Joins(proc: Proc)
      reads this, procs, proc`stride
    {
      rq.cls == Cfs || proc == idle || InReach(Active(), proc.stride)
    }

    /** The queue holds q, linked and counted, but perhaps not sorted. */
    ghost predicate Holds(q: set<Proc>)
      reads this, procs, rq, rq.root, Nodes(rq.tree)
    {
      && rq.Linked() && rq.procNum == |InOrder(rq.tree)| && Procs(InOrder(rq.tree)) == q
      && idle in procs && current in procs && DistinctPids(procs)
    }

    lemma ValidHolds()
      requires Valid()
      ensures Holds(Active() - {current}) && Ordered(rq.keys, InOrder(rq.tree)) && Readable(rq.cls, rq.keys, Active())
      ensures forall p :: p in Active() ==> p in rq.keys
    {
      forall p | p in Active() ensures p in rq.keys {
        assert Reflects(rq.cls, rq.keys, p);
      }
    }

    lemma IdleListed(q: set<Proc>)
      requires Queued(q)
      ensures idle in procs
    {
    }

    lemma HoldsValid()
      requires Holds(Active() - {current}) && Ordered(rq.keys, InOrder(rq.tree)) && Readable(rq.cls, rq.keys, Active())
      ensures Valid()
    {
    }

    lemma ActiveHas(proc: Proc)
      requires proc in procs
      ensures proc in Active() <==> proc.state == Runnable && proc != idle
    {
    }

    /** A runnable process that is not queued can be. */
    lemma SortableNow(proc: Proc, q: set<Proc>)
      requires Holds(q) && Ordered(rq.keys, InOrder(rq.tree)) && Readable(rq.cls, rq.keys, Active())
      requires proc !in q && q + {proc} <= Active()
      ensures rq.Sortable(proc)
    {
    }

    /** sched_class_enqueue of a runnable process. */
    method Place(proc: Proc, ghost q: set<Proc>)
      requires Holds(q) && proc !in q && Ordered(rq.keys, InOrder(rq.tree)) && (proc == idle || q + {proc} <= Active())
      modifies rq`tree, rq`procNum, rq.root, Nodes(rq.tree), proc`timeSlice
      ensures Holds(q + if proc == idle then {} else {proc}) && Active() == old(Active())
      ensures proc == idle || Readable(rq.cls, rq.keys, Active()) ==> Ordered(rq.keys, InOrder(rq.tree))
      ensures proc.timeSlice == Refilled(proc, old(proc.timeSlice))
      ensures forall n :: n in Nodes(rq.tree) ==> n in old(Nodes(rq.tree)) || fresh(n)
    {
      hide Readable, Ordered, InReach, DistinctPids, Queue.Sortable, Queue.Linked;
      if proc != idle && Readable(rq.cls, rq.keys, Active()) {
        SortableNow(proc, q);
      }
      SchedEnqueue(proc);
      assert Active() == old(Active());
    }

    lemma WokenValid(ps: set<Proc>, v: Keys, proc: Proc)
      requires Holds(Active() - {current}) && Active() == ps + (if proc == idle then {} else {proc})
      requires Readable(rq.cls, v, ps)
      requires rq.cls == Cfs || proc == idle || InReach(ps, proc.stride) ==>
                 Readable(rq.cls, rq.keys, Active()) && Ordered(rq.keys, InOrder(rq.tree))
      ensures Valid() <==> rq.cls == Cfs || proc == idle || InReach(ps, proc.stride)
    {
      hide Queued, Readable, Ordered, RedBlack, InReach, DistinctPids;
      if rq.cls == Cfs || proc == idle || InReach(ps, proc.stride) {
        HoldsValid();
      } else if Valid() {
        ValidHolds();
        ReachNeeded(v, rq.keys, ps, proc);
      }
    }

    /** The first half of wakeup_proc. */
    method Rouse(proc: Proc)
      requires Valid() && proc in procs && proc.state != Runnable
      modifies rq`keys, proc`state, proc`waitState
      ensures proc.state == Runnable && proc.waitState == 0 && proc !in old(Active())
      ensures Active() == old(Active()) + (if proc == idle then {} else {proc})
      ensures Holds(old(Active()) - {current}) && Ordered(rq.keys, InOrder(rq.tree))
      ensures old(Joins(proc)) ==> Readable(rq.cls, rq.keys, Active())
      ensures forall p :: p in old(Active()) ==> p in rq.keys && p in old(rq.keys) && rq.keys[p] == old(rq.keys)[p]
    {
      hide Queued, Readable, Ordered, RedBlack, InReach, DistinctPids;
      ghost var ps := Active();
      ValidHolds();
      PidsWithin(procs, ps + {proc});
      if proc != idle {
        ghost var w := Join(rq.cls, rq.keys, ps, proc);
        OrderedSame(rq.keys, w, InOrder(rq.tree), proc);
        rq.keys := w;
      }
      proc.state := Runnable;
      proc.waitState := 0;
      assert Active() == if proc == idle then ps else ps + {proc};
    }

    /** wakeup_proc. */
    method Wakeup(proc: Proc)
      requires Valid() && proc in procs && proc.state != Zombie
      modifies rq`tree, rq`procNum, rq`keys, rq.root, Nodes(rq.tree), proc`state, proc`waitState, proc`timeSlice
      ensures proc.state == Runnable && Active() == old(Active()) + (if proc == idle then {} else {proc})
      ensures Holds(Active() - {current})
      ensures Valid() <==> old(proc.state == Runnable || Joins(proc))
      ensures old(proc.state) != Runnable ==> proc.waitState == 0
      ensures old(proc.state) != Runnable ==>
                proc.timeSlice == if proc == current then old(proc.timeSlice) else Refilled(proc, old(proc.timeSlice))
      ensures old(proc.state) == Runnable ==>
                proc.waitState == old(proc.waitState) && proc.timeSlice == old(proc.timeSlice)
                    && rq.tree == old(rq.tree)
      ensures forall p :: p in old(Active()) ==> p in rq.keys && p in old(rq.keys) && rq.keys[p] == old(rq.keys)[p]
      ensures forall n :: n in Nodes(rq.tree) ==> n in old(Nodes(rq.tree)) || fresh(n)
    {
      hide Queued, Readable, Ordered, InReach, DistinctPids, Queue.Valid, Queue.Linked, Active, Nodes, InOrder, Procs;
      ValidHolds();
      if proc.state != Runnable {
        ghost var ps, v := Active(), rq.keys;
        Rouse(proc);
        if proc != current {
          Place(proc, ps - {current});
        }
        WokenValid(ps, v, proc);
      } else {
        ActiveHas(proc);
      }
    }

    /** The next process to run has the priority that its stride cannot be moved on with. */
    ghost predicate Stops()
      reads this, procs`state, procs`stridePrior, rq`keys
    {
      rq.cls == Stride && exists p :: p in procs && Least(rq.keys, Active(), p) && p.stridePrior == 20
    }

    /** The process that came first by the keys v runs, idle if there was none, and its stride has moved on. */
    ghost predicate RunsLeast(v: Keys)
      reads this, procs`state, procs`stridePrior, rq`keys
    {
      if Active() == {} then current == idle && rq.keys == v
      else
        && Least(v, Active(), current)
        && if rq.cls == Stride then current.stridePrior != 20 && rq.keys == Advance(v, current) else rq.keys == v
    }

    lemma HeadStops()
      requires Queued(Active())
      ensures rq.Traps() <==> Stops()
      ensures InOrder(rq.tree) != [] ==> Least(rq.keys, Active(), InOrder(rq.tree)[0].proc)
      ensures InOrder(rq.tree) == [] <==> Active() == {}
    {
      var ns := InOrder(rq.tree);
      if ns != [] {
        HeadIsLeast(rq.keys, ns);
        assert ns[0].proc in Active();
      } else {
        assert Procs(ns) == {};
      }
    }

    /** The picking half of schedule(). */
    method TakeNext() returns (ok: bool, next: Proc?)
      requires Queued(Active())
      modifies rq`tree, rq`keys, rq`procNum, rq.root, Nodes(rq.tree), procs`stride
      ensures Active() == old(Active()) && Nodes(rq.tree) <= old(Nodes(rq.tree)) && (ok <==> !old(Stops()))
      ensures next == null <==> Active() == {}
      ensures next == null || !ok ==> Queued(Active()) && rq.keys == old(rq.keys)
      ensures next != null ==> next in procs && Least(old(rq.keys), Active(), next)
      ensures next != null && ok ==> Queued(Active() - {next}) && (rq.cls == Stride ==> next.stridePrior != 20)
      ensures next != null && ok ==> rq.keys == if rq.cls == Stride then Advance(old(rq.keys), next) else old(rq.keys)
    {
      ghost var v, ns := rq.keys, InOrder(rq.tree);
      HeadStops();
      ok, next := rq.TakeNext();
      assert Active() == old(Active());
      if ok && next != null {
        HeadIsLeast(v, ns);
        if rq.cls == Stride {
          AdvanceKeepsSpread(v, Active(), next);
        }
        assert Spread(rq.cls, rq.keys, Active());
        assert Held(rq.cls, rq.keys, Active());
      }
    }

    /** The first half of schedule(): a running process that is still runnable goes back into the queue. */
    method Requeue()
      requires Valid()
      modifies rq`tree, rq`procNum, rq.root, Nodes(rq.tree), current`needResched, current`timeSlice
      ensures Queued(Active()) && Active() == old(Active()) && !current.needResched
      ensures current.timeSlice == if current.state == Runnable then Refilled(current, old(current.timeSlice))
                else old(current.timeSlice)
      ensures forall n :: n in Nodes(rq.tree) ==> n in old(Nodes(rq.tree)) || fresh(n)
    {
      ValidHolds();
      current.needResched := false;
      ghost var q := Active() - {current};
      if current.state == Runnable {
        Place(current, q);
      }
      assert Active() == q + if current.state == Runnable && current != idle then {current} else {};
    }

    /** The last part of schedule(), with proc_run's change of the running process. */
    method SwitchTo(next: Proc)
      requires next in procs && Queued(Active() - {next})
      modifies this`current, next`runs
      ensures Valid() && current == next && next.runs == old(next.runs) + 1 && Active() == old(Active())
    {
      next.runs := next.runs + 1;
      if next != current {
        current := next;
      }
      assert Active() == old(Active());
    }

    /** The second half of schedule(). */
    method Dispatch() returns (ok: bool)
      requires Queued(Active())
      modifies this`current, rq`tree, rq`keys, rq`procNum, rq.root, Nodes(rq.tree), procs`stride, procs`runs
      ensures Active() == old(Active()) && Nodes(rq.tree) <= old(Nodes(rq.tree)) && (ok <==> !old(Stops()))
      ensures if ok then Valid() else Queued(Active()) && rq.keys == old(rq.keys) && current == old(current)
      ensures ok ==> RunsLeast(old(rq.keys))
      ensures ok ==> current in procs && var c := current; c.runs == old(c.runs) + 1
      ensures forall p :: p in procs && (p != current || !ok) ==> p.runs == old(p.runs)
    {
      hide Queued, Least, Advance, Stops;
      IdleListed(Active());
      var next;
      ok, next := TakeNext();
      if !ok {
        return;
      }
      if next == null {
        next := idle;
      }
      assert Active() == {} ==> Active() - {next} == Active();
      SwitchTo(next);
    }

    /** schedule: the runnable process with the least key runs next, or idle if there is none. It traps when the
        stride of that process cannot be moved on. */
    method Schedule() returns (ok: bool)
      requires Valid()
      modifies this`current, rq`tree, rq`keys, rq`procNum, rq.root, Nodes(rq.tree)
      modifies procs`stride, procs`needResched, procs`timeSlice, procs`runs
      ensures Active() == old(Active()) && (ok <==> !old(Stops()))
      ensures forall n :: n in Nodes(rq.tree) ==> n in old(Nodes(rq.tree)) || fresh(n)
      ensures if ok then Valid() else Queued(Active()) && rq.keys == old(rq.keys) && current == old(current)
      ensures ok ==> RunsLeast(old(rq.keys))
      ensures ok ==> current in procs && var c := current; c.runs == old(c.runs) + 1
      ensures forall p :: p in procs && (p != current || !ok) ==> p.runs == old(p.runs)
      ensures var c := old(current);
              !c.needResched
                  && (c.timeSlice == if c.state == Runnable then Refilled(c, old(c.timeSlice)) else old(c.timeSlice))
      ensures forall p :: p in procs && p != old(current) ==>
                p.needResched == old(p.needResched) && p.timeSlice == old(p.timeSlice)
    {
      hide Queued, RunsLeast, Active, Stops, Nodes, InOrder, Procs;
      ValidHolds();
      Requeue();
      ok := Dispatch();
    }

    /** cfs_proc_tick, up to the time slice: the running process is charged for a tick. False when the assertion on
        its priority fails. */
    method Charge() returns (ok: bool)
      requires Valid() && rq.cls == Cfs && current != idle
      modifies rq`keys, current`vruntime
      ensures Valid() && Active() == old(Active()) && (ok <==> current.cfsPrior != 0)
      ensures current.vruntime == if ok then (old(current.vruntime) + current.cfsPrior) % WORD
                else old(current.vruntime)
      ensures rq.keys == if ok then old(rq.keys)[current := current.vruntime] else old(rq.keys)
    {
      if current.cfsPrior == 0 {
        return false;
      }
      current.vruntime := (current.vruntime + current.cfsPrior) % WORD;
      rq.keys := rq.keys[current := current.vruntime];
      assert Active() == old(Active());
      ok := true;
    }

    /** sched_class_proc_tick on the running process. Its key may change, since it is not in the tree. */
    method Tick() returns (ok: bool)
      requires Valid()
      modifies rq`keys, current`vruntime, current`timeSlice, current`needResched
      ensures Valid() && Active() == old(Active())
      ensures (ok <==> rq.cls == Stride || current == idle || current.cfsPrior != 0)
      ensures rq.keys == if ok && rq.cls == Cfs && current != idle then old(rq.keys)[current := current.vruntime]
                else old(rq.keys)
      ensures current == idle || !ok ==>
                && current.needResched == (current == idle || old(current.needResched))
                && current.vruntime == old(current.vruntime) && current.timeSlice == old(current.timeSlice)
      ensures current != idle && ok ==>
                && current.vruntime ==
                      (if rq.cls == Cfs then (old(current.vruntime) + current.cfsPrior) % WORD
                      else old(current.vruntime))
                && current.timeSlice ==
                      (if old(current.timeSlice) > 0 then old(current.timeSlice) - 1 else old(current.timeSlice))
                && current.needResched == (old(current.needResched) || current.timeSlice == 0)
    {
      ok := true;
      if current == idle {
        current.needResched := true;
        return;
      }
      if rq.cls == Cfs {
        ok := Charge();
        if !ok {
          return;
        }
      }
      if current.timeSlice > 0 {
        current.timeSlice := current.timeSlice - 1;
      }
      if current.timeSlice == 0 {
        current.needResched := true;
      }
      assert Active() == old(Active());
    }

    /** The running process stops being runnable: wait_current_set, do_wait, do_sleep and do_exit. */
    method Block(state: State, waitState: bv32)
      requires Valid() && state != Runnable && current != idle
      modifies current`state, current`waitState
      ensures Valid() && Active() == old(Active()) - {current} && current.state == state
      ensures current.waitState == waitState
    {
      current.state := state;
      current.waitState := waitState;
      assert Active() == old(Active()) - {current};
    }

    /** sys_nice: any value becomes the priority of both classes. */
    method Nice(proc: Proc, prior: Word)
      requires Valid() && proc in procs
      modifies proc`stridePrior, proc`cfsPrior
      ensures Valid() && Active() == old(Active()) && proc.stridePrior == prior && proc.cfsPrior == prior
    {
      proc.cfsPrior := prior;
      proc.stridePrior := prior;
      assert Active() == old(Active());
    }

    /** do_fork lists a new process, not yet runnable, under a pid of its own. */
    method Admit(proc: Proc)
      requires Valid() && proc !in procs && proc.state == Uninit && forall p :: p in procs ==> p.pid != proc.pid
      modifies this`procs
      ensures Valid() && procs == old(procs) + {proc} && Active() == old(Active())
    {
      procs := procs + {proc};
      assert Active() == old(Active());
    }
  }
}
