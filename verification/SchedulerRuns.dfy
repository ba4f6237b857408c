/** Whole runs of the scheduler, from sched_init on: processes are made, woken, put to sleep, reniced and end, ticks
    come and schedule is called, in any order. */
module SchedulerRuns {
  import opened Process
  import opened RbShape
  import opened RbTree
  import opened RunQueue
  import S = Scheduler

  /** Processes are named by their pids. */
  datatype Event = Fork | Wake(pid: nat) | Clock | Resched | Sleep | Exit | Renice(pid: nat, prior: Word)

  /** The processes in the order of their pids; the first is idle. */
  ghost predicate Listed(s: S.Scheduler, table: seq<Proc>)
    reads s`procs
  {
    && table != [] && table[0] == s.idle && (forall i :: 0 <= i < |table| ==> table[i] in s.procs && table[i].pid == i)
    && forall p :: p in s.procs ==> exists i :: 0 <= i < |table| && table[i] == p
  }

  lemma Members(s: S.Scheduler, table: seq<Proc>)
    requires s.Valid() && Listed(s, table)
    ensures table != [] && s.current in s.procs && s.idle in s.procs
    ensures forall i :: 0 <= i < |table| ==> table[i] in s.procs && (table[i] == s.idle <==> i == 0)
  {
  }

  /** No priority of either class fails. */
  ghost predicate Workable(ps: set<Proc>)
    reads ps
  {
    forall p :: p in ps ==> p.stridePrior != 20 && p.cfsPrior != 0
  }

  ghost predicate Sane(e: Event) {
    e.Renice? ==> e.prior != 20 && e.prior != 0
  }

  lemma WorkableGoesOn(s: S.Scheduler, table: seq<Proc>, e: Event)
    requires s.Valid() && Listed(s, table) && Workable(s.procs) && Fails(s, table, e)
    ensures e.Wake? && e.pid < |table| && (s.rq.cls == Stride || table[e.pid].state == Zombie)
  {
  }

  /** A process competes for the processor. */
  predicate Competes(s: S.Scheduler, table: seq<Proc>, i: nat)
    requires i < |table|
    reads table
  {
    table[i].state == Runnable && table[i] != s.idle
  }

  /** The wrapped comparison tells a process apart from all that compete. */
  predicate Placeable(s: S.Scheduler, table: seq<Proc>, pid: nat)
    requires pid < |table|
    reads table
  {
    var x := table[pid].stride;
    s.rq.cls == Cfs || pid == 0 ||
    forall i, j |
      0 <= i < |table| && 0 <= j < |table| && Competes(s, table, i) && Competes(s, table, j)
      :: Before32(x, table[i].stride) && Before32(table[j].stride, x) ==> Before32(table[j].stride, table[i].stride)
  }

  lemma PlaceableJoins(s: S.Scheduler, table: seq<Proc>, pid: nat)
    requires Listed(s, table) && pid < |table|
    ensures Placeable(s, table, pid) <==> s.Joins(table[pid])
  {
    var x := table[pid].stride;
    if Placeable(s, table, pid) && s.rq.cls == Stride && pid != 0 {
      forall p, q | p in s.Active() && q in s.Active() && Before32(x, p.stride) && Before32(q.stride, x)
        ensures Before32(q.stride, p.stride)
      {
        var i :| 0 <= i < |table| && table[i] == p;
        var j :| 0 <= j < |table| && table[j] == q;
        assert Competes(s, table, i) && Competes(s, table, j);
      }
    }
  }

  /** The kernel stops at an event, such as the waking of a zombie, or the event wakes a process that the wrapped
      comparison cannot place. */
  ghost predicate Fails(s: S.Scheduler, table: seq<Proc>, e: Event)
    reads s, s.procs, s.rq, table
  {
    match e
    case Wake(pid) => pid < |table| &&
        (table[pid].state == Zombie || (table[pid].state != Runnable && !Placeable(s, table, pid)))
    case Clock => s.rq.cls == Cfs && s.current != s.idle && s.current in s.procs && s.current.cfsPrior == 0
    case Resched => s.Stops()
    case _ => false
  }

  ghost function States(table: seq<Proc>): (r: seq<State>)
    reads table`state
    ensures |r| == |table| && forall i :: 0 <= i < |table| ==> r[i] == table[i].state
  {
    if table == [] then [] else [table[0].state] + States(table[1..])
  }

  /** What an event makes of the states of the processes while cur is running. */
  function Becomes(states: seq<State>, cur: int, e: Event): seq<State> {
    match e
    case Fork => states + [Uninit]
    case Wake(pid) => if pid < |states| then states[pid := Runnable] else states
    case Sleep => if 0 < cur < |states| then states[cur := Sleeping] else states
    case Exit => if 0 < cur < |states| then states[cur := Zombie] else states
    case _ => states
  }

  /** Only one process has changed. */
  lemma OneChanged(before: seq<State>, after: seq<State>, i: nat, x: State)
    requires |after| == |before| && i < |after| && after[i] == x
    requires forall j :: 0 <= j < |after| && j != i ==> after[j] == before[j]
    ensures after == before[i := x]
  {
  }

  lemma OneMore(before: seq<State>, after: seq<State>, x: State)
    requires |after| == |before| + 1 && after[|before|] == x
    requires forall j :: 0 <= j < |before| ==> after[j] == before[j]
    ensures after == before + [x]
  {
  }

  lemma Current(s: S.Scheduler, table: seq<Proc>)
    requires s.Valid() && Listed(s, table)
    ensures 0 <= s.current.pid < |table| && table[s.current.pid] == s.current
    ensures s.current.pid == 0 <==> s.current == s.idle
    ensures forall i, j :: 0 <= i < j < |table| ==> table[i] != table[j]
  {
    var i :| 0 <= i < |table| && table[i] == s.current;
  }

  /** wakeup_proc of a process by its pid. */
  method WakePid(s: S.Scheduler, table: seq<Proc>, pid: nat) returns (ok: bool)
    requires s.Valid() && Listed(s, table)
    modifies s.rq, s.rq.root, Nodes(s.rq.tree), s.procs`state, s.procs`waitState, s.procs`timeSlice
    ensures ok <==> !old(Fails(s, table, Wake(pid)))
    ensures ok ==> s.Valid() && s.Active() == old(s.Active()) + if 0 < pid < |table| then {table[pid]} else {}
    ensures ok ==> States(table) == Becomes(old(States(table)), 0, Wake(pid))
    ensures pid < |table| && old(table[pid].state) == Zombie ==> table[pid].state == Zombie
    ensures forall n :: n in Nodes(s.rq.tree) ==> n in old(Nodes(s.rq.tree)) || fresh(n)
  {
    hide S.Scheduler.Queued, S.Scheduler.Active, S.Scheduler.Joins, Placeable, Listed, States;
    Members(s, table);
    Current(s, table);
    ok := true;
    if pid < |table| {
      if table[pid].state == Zombie {
        return false;
      }
      PlaceableJoins(s, table, pid);
      ok := table[pid].state == Runnable || Placeable(s, table, pid);
      ghost var before := States(table);
      s.Wakeup(table[pid]);
      OneChanged(before, States(table), pid, Runnable);
    }
  }

  /** alloc_proc and the listing of the new process. */
  method ForkOne(s: S.Scheduler, table: seq<Proc>) returns (table': seq<Proc>)
    requires s.Valid() && Listed(s, table)
    modifies s`procs
    ensures s.Valid() && Listed(s, table') && s.Active() == old(s.Active())
    ensures |table'| == |table| + 1 && table'[..|table|] == table
    ensures States(table') == old(States(table)) + [Uninit]
    ensures forall p :: p in s.procs ==> p in old(s.procs) || fresh(p)
    ensures old(Workable(s.procs)) ==> Workable(s.procs)
  {
    hide S.Scheduler.Active, InOrder, Procs, States;
    ghost var before := States(table);
    assert allocated(Nodes(s.rq.tree)) && allocated(Procs(InOrder(s.rq.tree)));
    var p := new Proc(|table|);
    assert forall q :: q in s.procs ==> q.pid < |table|;
    s.Admit(p);
    table' := table + [p];
    OneMore(before, States(table'), Uninit);
    forall q | q in s.procs ensures exists i :: 0 <= i < |table'| && table'[i] == q {
      if q == p {
        assert table'[|table|] == q;
      } else {
        var i :| 0 <= i < |table| && table[i] == q;
        assert table'[i] == q;
      }
    }
  }

  /** The running process goes to sleep or ends; idle does neither. */
  method StopCurrent(s: S.Scheduler, table: seq<Proc>, state: State)
    requires s.Valid() && Listed(s, table) && state != Runnable
    modifies s.current`state, s.current`waitState
    ensures s.Valid() && Listed(s, table)
    ensures var cur := s.current.pid;
            States(table) == if 0 < cur < |table| then old(States(table))[cur := state] else old(States(table))
  {
    hide S.Scheduler.Queued, Listed, S.Scheduler.Active, States;
    Members(s, table);
    Current(s, table);
    ghost var before := States(table);
    if s.current != s.idle {
      s.Block(state, 0);
      OneChanged(before, States(table), s.current.pid, state);
    }
  }

  /** One event. What cannot happen to a process in its state is passed over. */
  method Step(s: S.Scheduler, table: seq<Proc>, e: Event) returns (ok: bool, table': seq<Proc>)
    requires s.Valid() && Listed(s, table)
    modifies s, s.rq, s.rq.root, Nodes(s.rq.tree), s.procs
    ensures ok <==> !old(Fails(s, table, e))
    ensures ok ==> s.Valid() && Listed(s, table')
    ensures forall n :: n in Nodes(s.rq.tree) ==> n in old(Nodes(s.rq.tree)) || fresh(n)
    ensures forall p :: p in s.procs ==> p in old(s.procs) || fresh(p)
    ensures old(Workable(s.procs)) && Sane(e) ==> Workable(s.procs)
    ensures |table'| == |table| + (if e.Fork? then 1 else 0) && table'[..|table|] == table
    ensures ok ==> States(table') == Becomes(old(States(table)), old(s.current.pid), e)
    ensures if e.Resched? then ok ==> s.RunsLeast(old(s.rq.keys)) else s.current == old(s.current)
    ensures e.Renice? && e.pid < |table| ==> table[e.pid].stridePrior == table[e.pid].cfsPrior == e.prior
    ensures e.Wake? && e.pid < |table| && old(table[e.pid].state) == Zombie ==> table[e.pid].state == Zombie
  {
    hide S.Scheduler.Queued, Listed, S.Scheduler.Active, S.Scheduler.Stops, S.Scheduler.RunsLeast, States, Placeable,
      Nodes, InOrder, Procs;
    Members(s, table);
    Current(s, table);
    ok, table' := true, table;
    match e
    case Fork =>
      table' := ForkOne(s, table);
    case Wake(pid) =>
      ok := WakePid(s, table, pid);
    case Clock =>
      ok := s.Tick();
    case Resched =>
      ok := s.Schedule();
    case Sleep =>
      StopCurrent(s, table, Sleeping);
    case Exit =>
      StopCurrent(s, table, Zombie);
    case Renice(pid, prior) =>
      if pid < |table| {
        s.Nice(table[pid], prior);
      }
  }

  function Forks(events: seq<Event>): nat {
    if events == [] then 0 else Forks(events[..|events| - 1]) + if events[|events| - 1].Fork? then 1 else 0
  }

  lemma ForksNext(events: seq<Event>, n: nat)
    requires n < |events|
    ensures Forks(events[..n + 1]) == Forks(events[..n]) + if events[n].Fork? then 1 else 0
  {
    assert events[..n + 1][..n] == events[..n];
  }

  lemma IdleAlone(s: S.Scheduler)
    requires s.procs == {s.idle} && s.idle.pid == 0
    ensures Listed(s, [s.idle]) && Forks([]) == 0
  {
    assert [s.idle][0] == s.idle;
  }

  /** A run from sched_init on, up to the first event that fails. */
  method Run(cls: Class, events: seq<Event>) returns (s: S.Scheduler, table: seq<Proc>, done: nat)
    ensures done <= |events| && (done == |events| ==> s.Valid() && Listed(s, table) && |table| == 1 + Forks(events))
    ensures (forall e :: e in events ==> Sane(e)) && done < |events| ==>
              var e := events[done];
              e.Wake? && e.pid < |table| && (cls == Stride || table[e.pid].state == Zombie)
  {
    hide S.Scheduler.Queued, S.Scheduler.Active, S.Scheduler.Stops, S.Scheduler.RunsLeast, States, Becomes, Fails,
      Listed, Forks, InOrder, Procs;
    var idle := new Proc(0);
    idle.state := Runnable;
    s := new S.Scheduler(idle, cls);
    table := [idle];
    IdleAlone(s);
    done := 0;
    var ok := true;
    while done < |events|
      invariant done <= |events| && s.Valid() && Listed(s, table) && s.rq.cls == cls
      invariant |table| == 1 + Forks(events[..done])
      invariant fresh(s) && fresh(s.rq) && fresh(s.rq.root) && fresh(Nodes(s.rq.tree)) && fresh(s.procs)
      invariant (forall e :: e in events ==> Sane(e)) ==> Workable(s.procs)
    {
      if (forall e :: e in events ==> Sane(e)) && Fails(s, table, events[done]) {
        WorkableGoesOn(s, table, events[done]);
      }
      ok, table := Step(s, table, events[done]);
      if !ok {
        return;
      }
      ForksNext(events, done);
      done := done + 1;
    }
    assert events[..done] == events;
  }
}
