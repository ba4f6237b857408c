/** kern/sync/sem.c: semaphores that hand a wakeup to the first waiter. */
module Semaphores {

  type Pid = nat

  /** A semaphore: its value and the processes asleep on it, first come first. */
  datatype Sem = Sem(value: int, queue: seq<Pid>) {

    /** down by p, up to the point where p goes on or goes to sleep. */
    function Down(p: Pid): Sem {
      if value > 0 then Sem(value - 1, queue) else Sem(value, queue + [p])
    }

    predicate Blocks() {
      value <= 0
    }

    /** up: the first waiter is woken and the value is left alone, or else the value grows. */
    function Up(): Sem {
      if queue == [] then Sem(value + 1, queue) else Sem(value, queue[1..])
    }

    /** Nobody waits while there is something to take. */
    ghost predicate Tidy() {
      value >= 0 && (value > 0 ==> queue == [])
    }
  }

  class Semaphore {
    var value: int
    var queue: seq<Pid>

    /** sem_init. */
    constructor (value: int)
      ensures State() == Sem(value, [])
    {
      this.value, queue := value, [];
    }

    ghost function State(): Sem
      reads this
    {
      Sem(value, queue)
    }

    /** What the semaphore could still let through, less what waits for it. */
    ghost function Net(): int
      reads this
    {
      value - |queue|
    }

    /** __up: one more can pass, and if anybody waits it is the one who has waited longest; that process goes on as if
        it had found the value positive. */
    method Up() returns (woken: seq<Pid>)
      modifies this
      ensures Net() == old(Net()) + 1 && woken + queue == old(queue) && |woken| == (if old(queue) == [] then 0 else 1)
      ensures old(State().Tidy()) ==> State().Tidy()
      ensures State() == old(State()).Up()
    {
      if queue == [] {
        value := value + 1;
        return [];
      }
      woken := [queue[0]];
      queue := queue[1..];
    }

    /** __down by p, up to schedule(): one fewer can pass, and if none could p waits behind all others. */
    method Down(p: Pid) returns (blocked: bool)
      modifies this
      ensures Net() == old(Net()) - 1 && queue == old(queue) + (if blocked then [p] else [])
      ensures old(State().Tidy()) ==> State().Tidy() && (blocked <==> old(Net()) <= 0)
      ensures State() == old(State()).Down(p)
    {
      if value > 0 {
        value := value - 1;
        return false;
      }
      queue := queue + [p];
      blocked := true;
    }

    /** try_down: passes just when nobody would have to wait, and never waits. */
    method TryDown() returns (ok: bool)
      modifies this
      ensures Net() == old(Net()) - (if ok then 1 else 0) && queue == old(queue)
      ensures old(State().Tidy()) ==> State().Tidy() && (ok <==> old(Net()) > 0)
    {
      ok := false;
      if value > 0 {
        value := value - 1;
        ok := true;
      }
    }

    /** Any number of calls: processes get through in the order in which they asked, and none is lost. */
    method Serve(calls: seq<Call>) returns (passed: seq<Pid>)
      requires State().Tidy()
      modifies this
      ensures State().Tidy() && passed + queue == old(queue) + Askers(calls)
      ensures |passed| + value == old(value) + Ups(calls)
    {
      ghost var s := State();
      passed := [];
      var k := 0;
      RunNone(s, calls);
      while k < |calls|
        invariant k <= |calls| && Run(s, calls[..k]) == (State(), passed)
      {
        RunOn(s, calls[..k], calls[k]);
        assert calls[..k] + [calls[k]] == calls[..k + 1];
        ghost var t := State();
        match calls[k] {
        case DownBy(p) =>
          var blocked := Down(p);
          passed := passed + if blocked then [] else [p];
        case UpBy =>
          var woken := Up();
          assert woken == Passed(t, UpBy);
          passed := passed + woken;
        }
        k := k + 1;
      }
      assert calls[..k] == calls;
      FirstComeFirstServed(s, calls);
    }
  }

  datatype Call = DownBy(p: Pid) | UpBy

  /** The processes that a call lets through. */
  ghost function Passed(s: Sem, c: Call): seq<Pid> {
    match c
    case DownBy(p) => if s.Blocks() then [] else [p]
    case UpBy => if s.queue == [] then [] else [s.queue[0]]
  }

  ghost function After(s: Sem, c: Call): Sem {
    match c
    case DownBy(p) => s.Down(p)
    case UpBy => s.Up()
  }

  ghost function Run(s: Sem, calls: seq<Call>): (Sem, seq<Pid>)
    decreases |calls|
  {
    if calls == [] then (s, [])
    else
      var (t, passed) := Run(After(s, calls[0]), calls[1..]);
      (t, Passed(s, calls[0]) + passed)
  }

  lemma RunNone(s: Sem, calls: seq<Call>)
    ensures Run(s, calls[..0]) == (s, [])
  {
  }

  lemma {:induction false} RunOn(s: Sem, calls: seq<Call>, c: Call)
    ensures var (t, passed) := Run(s, calls); Run(s, calls + [c]) == (After(t, c), passed + Passed(t, c))
    decreases |calls|
  {
    var all := calls + [c];
    if calls == [] {
      assert all[0] == c && all[1..] == [];
      assert Run(After(s, c), all[1..]) == (After(s, c), []);
      assert Passed(s, c) + [] == [] + Passed(s, c);
    } else {
      assert all[0] == calls[0] && all[1..] == calls[1..] + [c];
      var u := After(s, calls[0]);
      RunOn(u, calls[1..], c);
      var (t, passed) := Run(u, calls[1..]);
      assert Passed(s, calls[0]) + (passed + Passed(t, c)) == (Passed(s, calls[0]) + passed) + Passed(t, c);
    }
  }

  ghost function Askers(calls: seq<Call>): seq<Pid> {
    if calls == [] then [] else (if calls[0].DownBy? then [calls[0].p] else []) + Askers(calls[1..])
  }

  ghost function Ups(calls: seq<Call>): nat {
    if calls == [] then 0 else (if calls[0].UpBy? then 1 else 0) + Ups(calls[1..])
  }

  /** In every run processes get through in the order in which they asked, none is lost, and as many get through as the
      initial value and the calls of up allow. */
  lemma {:induction false} FirstComeFirstServed(s: Sem, calls: seq<Call>)
    requires s.Tidy()
    ensures var (t, passed) := Run(s, calls);
            && t.Tidy() && passed + t.queue == s.queue + Askers(calls) && |passed| + t.value == s.value + Ups(calls)
    decreases |calls|
  {
    if calls != [] {
      var c, u := calls[0], After(s, calls[0]);
      FirstComeFirstServed(u, calls[1..]);
      var (t, passed) := Run(u, calls[1..]);
      OneCall(s, c);
      var x, a := Passed(s, c), if c.DownBy? then [c.p] else [];
      Regroup(x, passed, t.queue, u.queue, Askers(calls[1..]), s.queue, a);
    }
  }

  lemma Regroup(x: seq<Pid>, passed: seq<Pid>, left: seq<Pid>, mid: seq<Pid>, later: seq<Pid>, queue: seq<Pid>,
                a: seq<Pid>)
    requires x + mid == queue + a && passed + left == mid + later
    ensures (x + passed) + left == queue + (a + later)
  {
    assert (x + passed) + left == x + (passed + left);
    assert x + (mid + later) == (x + mid) + later;
    assert (queue + a) + later == queue + (a + later);
  }

  lemma OneCall(s: Sem, c: Call)
    requires s.Tidy()
    ensures After(s, c).Tidy() && Passed(s, c) + After(s, c).queue == s.queue + (if c.DownBy? then [c.p] else [])
    ensures |Passed(s, c)| + After(s, c).value == s.value + if c.UpBy? then 1 else 0
  {
  }
}

/** kern/sync/monitor.c: a Hoare monitor built from semaphores, used by any number of processes that call
    cond_signal and cond_wait on any of its condition variables, in any order and interleaved in any way.

    A process has a program counter: the semaphore operation it is about to perform, or is asleep in. The
    theorem is that mutex, next and the semaphores of the condition variables are one split binary semaphore:
    there is exactly one token, held by one process or parked in one semaphore, and never parked where no
    process is about to take it.
 */
module Monitor {
  import opened Semaphores

  datatype PC =
    | Outside
    | Entering                  // about to down(mutex)
    | EnterAsleep
    | Inside                    // running a routine of the monitor
    | SignalUp(cv: nat)         // cond_signal: next_count counted, about to up(cv.sem)
    | SignalDown(cv: nat)       // about to down(next)
    | SignalAsleep(cv: nat)
    | SignalBack(cv: nat)       // has the token again, about to uncount
    | WaitUp(cv: nat)           // cond_wait: count counted, about to give the token away
    | WaitDown(cv: nat)         // about to down(cv.sem)
    | WaitAsleep(cv: nat)
    | WaitBack(cv: nat)         // has the token again, about to uncount

  datatype Cond = Cond(count: int, sem: Sem)

  datatype Mon = Mon(mutex: Sem, next: Sem, nextCount: int, cv: seq<Cond>, pc: seq<PC>)

  /** What a process may do next. Which operation a process inside the monitor chooses is up to it. */
  datatype Op =
    | Call | DownMutex | Signal(cv: nat) | UpCond | DownNext | EndSignal | Wait(cv: nat) | GiveUp | DownCond | EndWait
    | Leave

  /** monitor_init for n processes and k condition variables. */
  function Init(n: nat, k: nat): Mon {
    Mon(Sem(1, []), Sem(0, []), 0, seq(k, i => Cond(0, Sem(0, []))), seq(n, i => Outside))
  }

  // ---------- steps ----------

  /** The process woken by an up goes on with the token: it is past its down. */
  function Woken(pc: PC): PC {
    match pc
    case EnterAsleep => Inside
    case SignalAsleep(c) => SignalBack(c)
    case WaitAsleep(c) => WaitBack(c)
    case _ => pc
  }

  function Wake(pc: seq<PC>, s: Sem): seq<PC> {
    if s.queue == [] || s.queue[0] >= |pc| then pc else pc[s.queue[0] := Woken(pc[s.queue[0]])]
  }

  /** The end of every routine and of cond_wait: a signaller that waits goes first. */
  function PassOn(m: Mon): Mon {
    if m.nextCount > 0
    then m.(next := m.next.Up(), pc := Wake(m.pc, m.next))
    else m.(mutex := m.mutex.Up(), pc := Wake(m.pc, m.mutex))
  }

  ghost predicate Enabled(m: Mon, p: Pid, op: Op) {
    && p < |m.pc|
    && match op
       case Call => m.pc[p] == Outside
       case DownMutex => m.pc[p] == Entering
       case Signal(c) => m.pc[p] == Inside && c < |m.cv|
       case UpCond => m.pc[p].SignalUp? && m.pc[p].cv < |m.cv|
       case DownNext => m.pc[p].SignalDown?
       case EndSignal => m.pc[p].SignalBack?
       case Wait(c) => m.pc[p] == Inside && c < |m.cv|
       case GiveUp => m.pc[p].WaitUp?
       case DownCond => m.pc[p].WaitDown? && m.pc[p].cv < |m.cv|
       case EndWait => m.pc[p].WaitBack? && m.pc[p].cv < |m.cv|
       case Leave => m.pc[p] == Inside
  }

  ghost function Next(m: Mon, p: Pid, op: Op): Mon
    requires Enabled(m, p, op)
  {
    match op
    case Call => m.(pc := m.pc[p := Entering])
    case DownMutex => m.(mutex := m.mutex.Down(p), pc := m.pc[p := if m.mutex.Blocks() then EnterAsleep else Inside])
    case Signal(c) =>
      if m.cv[c].count > 0 then m.(nextCount := m.nextCount + 1, pc := m.pc[p := SignalUp(c)]) else m
    case UpCond =>
      var c := m.pc[p].cv;
      m.(cv := m.cv[c := m.cv[c].(sem := m.cv[c].sem.Up())], pc := Wake(m.pc[p := SignalDown(c)], m.cv[c].sem))
    case DownNext =>
      var c := m.pc[p].cv;
      m.(next := m.next.Down(p), pc := m.pc[p := if m.next.Blocks() then SignalAsleep(c) else SignalBack(c)])
    case EndSignal => m.(nextCount := m.nextCount - 1, pc := m.pc[p := Inside])
    case Wait(c) => m.(cv := m.cv[c := m.cv[c].(count := m.cv[c].count + 1)], pc := m.pc[p := WaitUp(c)])
    case GiveUp => PassOn(m.(pc := m.pc[p := WaitDown(m.pc[p].cv)]))
    case DownCond =>
      var c := m.pc[p].cv;
      m.(cv := m.cv[c := m.cv[c].(sem := m.cv[c].sem.Down(p))],
          pc := m.pc[p := if m.cv[c].sem.Blocks() then WaitAsleep(c) else WaitBack(c)])
    case EndWait =>
      var c := m.pc[p].cv;
      m.(cv := m.cv[c := m.cv[c].(count := m.cv[c].count - 1)], pc := m.pc[p := Inside])
    case Leave => PassOn(m.(pc := m.pc[p := Outside]))
  }

  // ---------- the invariant ----------

  /** Where the token is. */
  datatype Token = InMutex | InNext | InCond(cv: nat) | With(p: Pid)

  /** A process that may touch what the monitor protects. */
  predicate Holds(pc: PC) {
    pc.Inside? || pc.SignalUp? || pc.SignalBack? || pc.WaitUp? || pc.WaitBack?
  }

  predicate Signalling(pc: PC) {
    pc.SignalUp? || pc.SignalDown? || pc.SignalAsleep? || pc.SignalBack?
  }

  predicate WaitingOn(pc: PC, c: nat) {
    (pc.WaitUp? || pc.WaitDown? || pc.WaitAsleep? || pc.WaitBack?) && pc.cv == c
  }

  ghost function Signallers(pc: seq<PC>): set<Pid> {
    set p: Pid | p < |pc| && Signalling(pc[p])
  }

  ghost function Waiters(pc: seq<PC>, c: nat): set<Pid> {
    set p: Pid | p < |pc| && WaitingOn(pc[p], c)
  }

  /** The semaphore a process is asleep on. */
  datatype Place = OnMutex | OnNext | OnCond(cv: nat)

  predicate AsleepOn(pc: PC, at: Place) {
    match at
    case OnMutex => pc.EnterAsleep?
    case OnNext => pc.SignalAsleep?
    case OnCond(c) => pc == WaitAsleep(c)
  }

  /** The queue of a semaphore is exactly the processes asleep on it, and its value is one when it has the token. */
  ghost predicate Good(s: Sem, pc: seq<PC>, at: Place, token: bool) {
    && (forall i, j :: 0 <= i < j < |s.queue| ==> s.queue[i] != s.queue[j])
    && (forall p :: p in s.queue ==> p < |pc| && AsleepOn(pc[p], at))
    && (forall p: Pid :: p < |pc| && AsleepOn(pc[p], at) ==> p in s.queue)
    && s.value == (if token then 1 else 0) && (token ==> s.queue == [])
  }

  ghost predicate InRange(pc: PC, k: nat) {
    pc.Outside? || pc.Entering? || pc.EnterAsleep? || pc.Inside? || pc.cv < k
  }

  /** A parked token is one that some process is about to take; and a free monitor has no signaller left behind. */
  ghost predicate Takeable(m: Mon, t: Token) {
    match t
    case InMutex => m.nextCount == 0
    case InNext => exists p: Pid :: p < |m.pc| && m.pc[p].SignalDown?
    case InCond(c) => c < |m.cv| && exists p: Pid :: p < |m.pc| && m.pc[p] == WaitDown(c)
    case With(p) => p < |m.pc|
  }

  ghost predicate Conds(cv: seq<Cond>, pc: seq<PC>, t: Token) {
    forall c: nat :: c < |cv| ==> Good(cv[c].sem, pc, OnCond(c), t == InCond(c))
  }

  ghost predicate Counts(m: Mon) {
    && m.nextCount == |Signallers(m.pc)|
    && forall c: nat :: c < |m.cv| ==> m.cv[c].count == |Waiters(m.pc, c)|
  }

  /** At most one process may touch what the monitor protects: the one with the token. */
  ghost predicate Holders(pc: seq<PC>, k: nat, t: Token) {
    forall p: Pid :: p < |pc| ==> (Holds(pc[p]) <==> t == With(p)) && InRange(pc[p], k)
  }

  /** A process about to signal has somebody to signal to. */
  ghost predicate Aimed(m: Mon) {
    forall p: Pid :: p < |m.pc| && m.pc[p].SignalUp? && m.pc[p].cv < |m.cv| ==> m.cv[m.pc[p].cv].count > 0
  }

  ghost predicate Inv(m: Mon, t: Token) {
    && Good(m.mutex, m.pc, OnMutex, t == InMutex)
    && Good(m.next, m.pc, OnNext, t == InNext)
    && Conds(m.cv, m.pc, t)
    && Counts(m) && Holders(m.pc, |m.cv|, t) && Takeable(m, t) && Aimed(m)
  }

  // ---------- one program counter changes ----------

  lemma SignallersUpdate(pc: seq<PC>, p: Pid, x: PC)
    requires p < |pc|
    ensures |Signallers(pc[p := x])| ==
              |Signallers(pc)| + (if Signalling(x) then 1 else 0) - (if Signalling(pc[p]) then 1 else 0)
  {
    var s := Signallers(pc);
    assert p in s <==> Signalling(pc[p]);
    assert Signallers(pc[p := x]) == if Signalling(x) then s + {p} else s - {p};
  }

  lemma WaitersUpdate(pc: seq<PC>, p: Pid, x: PC, c: nat)
    requires p < |pc|
    ensures |Waiters(pc[p := x], c)| ==
              |Waiters(pc, c)| + (if WaitingOn(x, c) then 1 else 0) - (if WaitingOn(pc[p], c) then 1 else 0)
  {
    var s := Waiters(pc, c);
    assert p in s <==> WaitingOn(pc[p], c);
    assert Waiters(pc[p := x], c) == if WaitingOn(x, c) then s + {p} else s - {p};
  }

  /** The counts follow when the two counters move with the program counter. */
  lemma CountsUpdate(m: Mon, p: Pid, x: PC, m': Mon)
    requires Counts(m) && p < |m.pc| && m'.pc == m.pc[p := x] && |m'.cv| == |m.cv|
    requires m'.nextCount == m.nextCount + (if Signalling(x) then 1 else 0) - (if Signalling(m.pc[p]) then 1 else 0)
    requires forall c: nat :: c < |m.cv| ==>
      m'.cv[c].count == m.cv[c].count + (if WaitingOn(x, c) then 1 else 0) - (if WaitingOn(m.pc[p], c) then 1 else 0)
    ensures Counts(m')
  {
    SignallersUpdate(m.pc, p, x);
    forall c: nat | c < |m.cv| ensures m'.cv[c].count == |Waiters(m'.pc, c)| {
      WaitersUpdate(m.pc, p, x, c);
    }
  }

  lemma GoodSame(s: Sem, pc: seq<PC>, at: Place, token: bool, p: Pid, x: PC)
    requires Good(s, pc, at, token) && p < |pc| && AsleepOn(pc[p], at) == AsleepOn(x, at)
    ensures Good(s, pc[p := x], at, token)
  {
  }

  lemma CondsSame(cv: seq<Cond>, pc: seq<PC>, t: Token, p: Pid, x: PC)
    requires Conds(cv, pc, t) && p < |pc| && pc[p].WaitAsleep? == x.WaitAsleep? && (x.WaitAsleep? ==> x == pc[p])
    ensures Conds(cv, pc[p := x], t)
  {
    forall c: nat | c < |cv| ensures Good(cv[c].sem, pc[p := x], OnCond(c), t == InCond(c)) {
      GoodSame(cv[c].sem, pc, OnCond(c), t == InCond(c), p, x);
    }
  }

  lemma GoodAsleep(s: Sem, pc: seq<PC>, at: Place, p: Pid, x: PC)
    requires Good(s, pc, at, false) && p < |pc| && !AsleepOn(pc[p], at) && AsleepOn(x, at)
    ensures Good(s.Down(p), pc[p := x], at, false)
  {
    var q := s.queue;
    assert forall r :: r in q + [p] <==> r in q || r == p;
  }

  lemma GoodTaken(s: Sem, pc: seq<PC>, at: Place, p: Pid, x: PC)
    requires Good(s, pc, at, true) && p < |pc| && !AsleepOn(pc[p], at) && !AsleepOn(x, at)
    ensures Good(s.Down(p), pc[p := x], at, false)
  {
  }

  lemma GoodParked(s: Sem, pc: seq<PC>, at: Place)
    requires Good(s, pc, at, false) && s.queue == []
    ensures Good(s.Up(), pc, at, true)
  {
  }

  lemma GoodWoken(s: Sem, pc: seq<PC>, at: Place, x: PC)
    requires Good(s, pc, at, false) && s.queue != [] && s.queue[0] < |pc| && !AsleepOn(x, at)
    ensures Good(s.Up(), pc[s.queue[0] := x], at, false)
  {
    var q := s.queue;
    assert forall r :: r in q <==> r == q[0] || r in q[1..];
    assert q[0] !in q[1..];
  }

  // ---------- every step ----------

  lemma InitInv(n: nat, k: nat)
    ensures Inv(Init(n, k), InMutex)
  {
    var m := Init(n, k);
    assert Signallers(m.pc) == {};
    forall c: nat ensures Waiters(m.pc, c) == {} {
    }
  }

  /** A step that changes only the program counter of p, and not where anyone sleeps. */
  lemma QuietStep(m: Mon, p: Pid, x: PC, m': Mon, t: Token)
    requires Inv(m, t) && p < |m.pc| && InRange(x, |m.cv|) && Holds(x) == Holds(m.pc[p])
    requires !x.EnterAsleep? && !x.SignalAsleep? && !x.WaitAsleep?
    requires !m.pc[p].EnterAsleep? && !m.pc[p].SignalAsleep? && !m.pc[p].WaitAsleep? && !m.pc[p].SignalDown?
    requires !m.pc[p].WaitDown?
    requires m'.pc == m.pc[p := x] && |m'.cv| == |m.cv| && m'.mutex == m.mutex && m'.next == m.next && Counts(m')
    requires forall c: nat :: c < |m.cv| ==> m'.cv[c].sem == m.cv[c].sem
    requires t == InMutex ==> m'.nextCount == 0
    requires Aimed(m')
    ensures Inv(m', t)
  {
    GoodSame(m.mutex, m.pc, OnMutex, t == InMutex, p, x);
    GoodSame(m.next, m.pc, OnNext, t == InNext, p, x);
    CondsSame(m.cv, m.pc, t, p, x);
    if t == InNext {
      var q: Pid :| q < |m.pc| && m.pc[q].SignalDown?;
      assert m'.pc[q].SignalDown?;
    } else if t.InCond? {
      var q: Pid :| q < |m.pc| && m.pc[q] == WaitDown(t.cv);
      assert m'.pc[q] == WaitDown(t.cv);
    }
  }

  lemma CallInv(m: Mon, p: Pid, t: Token)
    requires Inv(m, t) && Enabled(m, p, Call)
    ensures Inv(Next(m, p, Call), t)
  {
    CountsUpdate(m, p, Entering, Next(m, p, Call));
    QuietStep(m, p, Entering, Next(m, p, Call), t);
  }

  /** A down either takes the token parked in its semaphore or puts p to sleep. */
  lemma DownStep(m: Mon, p: Pid, x: PC, m': Mon, t: Token, took: bool)
    requires Inv(m, t) && p < |m.pc| && m'.pc == m.pc[p := x] && InRange(x, |m.cv|)
    requires m.pc[p].Entering? || m.pc[p].SignalDown? || m.pc[p].WaitDown?
    requires m'.nextCount == m.nextCount && |m'.cv| == |m.cv|
    requires forall c: nat :: c < |m.cv| ==> m'.cv[c].count == m.cv[c].count
    requires if took then Holds(x) && !x.SignalUp? && !t.With? else !Holds(x)
    requires !took ==> !(t == InNext && m.pc[p].SignalDown?) && !(t.InCond? && m.pc[p] == WaitDown(t.cv))
    ensures Holders(m'.pc, |m'.cv|, if took then With(p) else t) && Takeable(m', if took then With(p) else t)
    ensures Aimed(m')
  {
    if !took && t == InNext {
      var q: Pid :| q < |m.pc| && m.pc[q].SignalDown?;
      assert m'.pc[q].SignalDown?;
    } else if !took && t.InCond? {
      var q: Pid :| q < |m.pc| && m.pc[q] == WaitDown(t.cv);
      assert m'.pc[q] == WaitDown(t.cv);
    }
  }

  lemma DownMutexInv(m: Mon, p: Pid, t: Token)
    requires Inv(m, t) && Enabled(m, p, DownMutex)
    ensures Inv(Next(m, p, DownMutex), if t == InMutex then With(p) else t)
  {
    var m' := Next(m, p, DownMutex);
    var x := m'.pc[p];
    CountsUpdate(m, p, x, m');
    DownStep(m, p, x, m', t, t == InMutex);
    GoodSame(m.next, m.pc, OnNext, t == InNext, p, x);
    CondsSame(m.cv, m.pc, t, p, x);
    if t == InMutex {
      GoodTaken(m.mutex, m.pc, OnMutex, p, x);
    } else {
      GoodAsleep(m.mutex, m.pc, OnMutex, p, x);
    }
  }

  lemma SignalInv(m: Mon, p: Pid, c: nat, t: Token)
    requires Inv(m, t) && Enabled(m, p, Signal(c))
    ensures Inv(Next(m, p, Signal(c)), t)
  {
    if m.cv[c].count > 0 {
      CountsUpdate(m, p, SignalUp(c), Next(m, p, Signal(c)));
      QuietStep(m, p, SignalUp(c), Next(m, p, Signal(c)), t);
    }
  }

  lemma EndSignalInv(m: Mon, p: Pid, t: Token)
    requires Inv(m, t) && Enabled(m, p, EndSignal)
    ensures Inv(Next(m, p, EndSignal), t)
  {
    CountsUpdate(m, p, Inside, Next(m, p, EndSignal));
    QuietStep(m, p, Inside, Next(m, p, EndSignal), t);
  }

  lemma WaitInv(m: Mon, p: Pid, c: nat, t: Token)
    requires Inv(m, t) && Enabled(m, p, Wait(c))
    ensures Inv(Next(m, p, Wait(c)), t)
  {
    CountsUpdate(m, p, WaitUp(c), Next(m, p, Wait(c)));
    QuietStep(m, p, WaitUp(c), Next(m, p, Wait(c)), t);
  }

  lemma EndWaitInv(m: Mon, p: Pid, t: Token)
    requires Inv(m, t) && Enabled(m, p, EndWait)
    ensures Inv(Next(m, p, EndWait), t)
  {
    CountsUpdate(m, p, Inside, Next(m, p, EndWait));
    QuietStep(m, p, Inside, Next(m, p, EndWait), t);
  }

  lemma DownNextInv(m: Mon, p: Pid, t: Token)
    requires Inv(m, t) && Enabled(m, p, DownNext)
    ensures Inv(Next(m, p, DownNext), if t == InNext then With(p) else t)
  {
    var m' := Next(m, p, DownNext);
    var x := m'.pc[p];
    CountsUpdate(m, p, x, m');
    DownStep(m, p, x, m', t, t == InNext);
    GoodSame(m.mutex, m.pc, OnMutex, t == InMutex, p, x);
    CondsSame(m.cv, m.pc, t, p, x);
    if t == InNext {
      GoodTaken(m.next, m.pc, OnNext, p, x);
    } else {
      GoodAsleep(m.next, m.pc, OnNext, p, x);
    }
  }

  lemma DownCondInv(m: Mon, p: Pid, t: Token)
    requires Inv(m, t) && Enabled(m, p, DownCond)
    ensures Inv(Next(m, p, DownCond), if t == InCond(m.pc[p].cv) then With(p) else t)
  {
    var c := m.pc[p].cv;
    var m' := Next(m, p, DownCond);
    var x := m'.pc[p];
    var t' := if t == InCond(c) then With(p) else t;
    CountsUpdate(m, p, x, m');
    DownStep(m, p, x, m', t, t == InCond(c));
    GoodSame(m.mutex, m.pc, OnMutex, t == InMutex, p, x);
    GoodSame(m.next, m.pc, OnNext, t == InNext, p, x);
    forall d: nat | d < |m.cv| ensures Good(m'.cv[d].sem, m'.pc, OnCond(d), t' == InCond(d)) {
      if d != c {
        GoodSame(m.cv[d].sem, m.pc, OnCond(d), t == InCond(d), p, x);
      } else if t == InCond(c) {
        GoodTaken(m.cv[c].sem, m.pc, OnCond(c), p, x);
      } else {
        GoodAsleep(m.cv[c].sem, m.pc, OnCond(c), p, x);
      }
    }
  }

  // ---------- giving the token away ----------

  /** No process and no semaphore has the token: it is on its way. */
  ghost predicate Loose(m: Mon) {
    && Good(m.mutex, m.pc, OnMutex, false) && Good(m.next, m.pc, OnNext, false)
    && (forall c: nat :: c < |m.cv| ==> Good(m.cv[c].sem, m.pc, OnCond(c), false))
    && Counts(m) && (forall p: Pid :: p < |m.pc| ==> !Holds(m.pc[p]) && InRange(m.pc[p], |m.cv|))
  }

  lemma Drop(m: Mon, p: Pid, x: PC, t: Token)
    requires Inv(m, t) && p < |m.pc| && Holds(m.pc[p]) && InRange(x, |m.cv|) && !Holds(x)
    requires !x.EnterAsleep? && !x.SignalAsleep? && !x.WaitAsleep?
    requires Counts(m.(pc := m.pc[p := x]))
    ensures Loose(m.(pc := m.pc[p := x]))
  {
    GoodSame(m.mutex, m.pc, OnMutex, false, p, x);
    GoodSame(m.next, m.pc, OnNext, false, p, x);
    CondsSame(m.cv, m.pc, t, p, x);
  }

  ghost function Where(s: Sem, parked: Token): Token {
    if s.queue == [] then parked else With(s.queue[0])
  }

  lemma FreeMutex(m: Mon)
    requires Loose(m) && m.nextCount == 0
    ensures Inv(m.(mutex := m.mutex.Up(), pc := Wake(m.pc, m.mutex)), Where(m.mutex, InMutex))
  {
    var m' := m.(mutex := m.mutex.Up(), pc := Wake(m.pc, m.mutex));
    if m.mutex.queue == [] {
      GoodParked(m.mutex, m.pc, OnMutex);
    } else {
      var q := m.mutex.queue[0];
      assert q in m.mutex.queue;
      GoodWoken(m.mutex, m.pc, OnMutex, Inside);
      GoodSame(m.next, m.pc, OnNext, false, q, Inside);
      CondsSame(m.cv, m.pc, InMutex, q, Inside);
      CountsUpdate(m, q, Inside, m');
    }
  }

  lemma SomeSignaller(m: Mon)
    requires Loose(m) && m.nextCount > 0 && m.next.queue == []
    ensures exists p: Pid :: p < |m.pc| && m.pc[p].SignalDown?
  {
    var p :| p in Signallers(m.pc);
    assert m.pc[p].SignalDown?;
  }

  lemma FreeNext(m: Mon)
    requires Loose(m) && m.nextCount > 0
    ensures Inv(m.(next := m.next.Up(), pc := Wake(m.pc, m.next)), Where(m.next, InNext))
  {
    var m' := m.(next := m.next.Up(), pc := Wake(m.pc, m.next));
    if m.next.queue == [] {
      GoodParked(m.next, m.pc, OnNext);
      SomeSignaller(m);
    } else {
      var q := m.next.queue[0];
      assert q in m.next.queue;
      var x := SignalBack(m.pc[q].cv);
      GoodWoken(m.next, m.pc, OnNext, x);
      GoodSame(m.mutex, m.pc, OnMutex, false, q, x);
      CondsSame(m.cv, m.pc, InNext, q, x);
      CountsUpdate(m, q, x, m');
    }
  }

  lemma PassOnInv(m: Mon)
    requires Loose(m)
    ensures Inv(PassOn(m), if m.nextCount > 0 then Where(m.next, InNext) else Where(m.mutex, InMutex))
  {
    if m.nextCount > 0 { FreeNext(m); } else { FreeMutex(m); }
  }

  lemma SomeWaiter(m: Mon, c: nat)
    requires Loose(m) && c < |m.cv| && m.cv[c].count > 0 && m.cv[c].sem.queue == []
    ensures exists p: Pid :: p < |m.pc| && m.pc[p] == WaitDown(c)
  {
    var p :| p in Waiters(m.pc, c);
    assert m.pc[p] == WaitDown(c);
  }

  lemma FreeCond(m: Mon, c: nat)
    requires Loose(m) && c < |m.cv| && m.cv[c].count > 0
    ensures Inv(m.(cv := m.cv[c := m.cv[c].(sem := m.cv[c].sem.Up())], pc := Wake(m.pc, m.cv[c].sem)),
              Where(m.cv[c].sem, InCond(c)))
  {
    var s := m.cv[c].sem;
    var m' := m.(cv := m.cv[c := m.cv[c].(sem := s.Up())], pc := Wake(m.pc, s));
    var t' := Where(s, InCond(c));
    if s.queue == [] {
      GoodParked(s, m.pc, OnCond(c));
      SomeWaiter(m, c);
      CountsUpdate(m, 0, m.pc[0], m');
    } else {
      var q := s.queue[0];
      assert q in s.queue;
      var x := WaitBack(c);
      GoodWoken(s, m.pc, OnCond(c), x);
      GoodSame(m.mutex, m.pc, OnMutex, false, q, x);
      GoodSame(m.next, m.pc, OnNext, false, q, x);
      CountsUpdate(m, q, x, m');
      forall d: nat | d < |m.cv| && d != c ensures Good(m'.cv[d].sem, m'.pc, OnCond(d), false) {
        GoodSame(m.cv[d].sem, m.pc, OnCond(d), false, q, x);
      }
    }
  }

  // ---------- all steps and all runs ----------

  /** Where the token goes. */
  ghost function TokenNext(m: Mon, p: Pid, op: Op, t: Token): Token
    requires Enabled(m, p, op)
  {
    match op
    case DownMutex => if t == InMutex then With(p) else t
    case DownNext => if t == InNext then With(p) else t
    case DownCond => if t == InCond(m.pc[p].cv) then With(p) else t
    case UpCond => Where(m.cv[m.pc[p].cv].sem, InCond(m.pc[p].cv))
    case GiveUp => if m.nextCount > 0 then Where(m.next, InNext) else Where(m.mutex, InMutex)
    case Leave => if m.nextCount > 0 then Where(m.next, InNext) else Where(m.mutex, InMutex)
    case _ => t
  }

  lemma ReleaseInv(m: Mon, p: Pid, op: Op, t: Token)
    requires Inv(m, t) && Enabled(m, p, op) && (op.Leave? || op.GiveUp? || op.UpCond?)
    ensures Inv(Next(m, p, op), TokenNext(m, p, op, t))
  {
    var x := if op.Leave? then Outside else if op.GiveUp? then WaitDown(m.pc[p].cv) else SignalDown(m.pc[p].cv);
    var m1 := m.(pc := m.pc[p := x]);
    CountsUpdate(m, p, x, m1);
    Drop(m, p, x, t);
    if op.UpCond? {
      FreeCond(m1, m.pc[p].cv);
    } else {
      PassOnInv(m1);
    }
  }

  /** Every step of every process keeps the invariant. */
  lemma StepInv(m: Mon, p: Pid, op: Op, t: Token)
    requires Inv(m, t) && Enabled(m, p, op)
    ensures Inv(Next(m, p, op), TokenNext(m, p, op, t))
  {
    match op
    case Call => CallInv(m, p, t);
    case DownMutex => DownMutexInv(m, p, t);
    case Signal(c) => SignalInv(m, p, c, t);
    case DownNext => DownNextInv(m, p, t);
    case EndSignal => EndSignalInv(m, p, t);
    case Wait(c) => WaitInv(m, p, c, t);
    case DownCond => DownCondInv(m, p, t);
    case EndWait => EndWaitInv(m, p, t);
    case _ => ReleaseInv(m, p, op, t);
  }

  /** A run: any processes taking any enabled steps, in any order. */
  ghost predicate Run(m: Mon, steps: seq<(Pid, Op)>, m': Mon)
    decreases |steps|
  {
    if steps == [] then m' == m
    else Enabled(m, steps[0].0, steps[0].1) && Run(Next(m, steps[0].0, steps[0].1), steps[1..], m')
  }

  lemma {:induction false} RunInv(m: Mon, t: Token, steps: seq<(Pid, Op)>, m': Mon) returns (t': Token)
    requires Inv(m, t) && Run(m, steps, m')
    ensures Inv(m', t')
    decreases |steps|
  {
    t' := t;
    if steps != [] {
      var (p, op) := steps[0];
      StepInv(m, p, op, t);
      t' := RunInv(Next(m, p, op), TokenNext(m, p, op, t), steps[1..], m');
    }
  }

  ghost function Holding(pc: seq<PC>): set<Pid> {
    set p: Pid | p < |pc| && Holds(pc[p])
  }

  ghost function Values(cv: seq<Cond>): int {
    if cv == [] then 0 else cv[0].sem.value + Values(cv[1..])
  }

  lemma {:induction false} OneValue(cv: seq<Cond>, at: int)
    requires forall c :: 0 <= c < |cv| ==> cv[c].sem.value == if c == at then 1 else 0
    ensures Values(cv) == if 0 <= at < |cv| then 1 else 0
  {
    if cv != [] {
      assert forall c :: 0 <= c < |cv[1..]| ==> cv[1..][c] == cv[c + 1];
      OneValue(cv[1..], at - 1);
    }
  }

  /** The split binary semaphore: after any run, the values of all the semaphores and the processes inside add up to
      one. */
  lemma OneToken(n: nat, k: nat, steps: seq<(Pid, Op)>, m: Mon)
    requires Run(Init(n, k), steps, m)
    ensures m.mutex.value + m.next.value + Values(m.cv) + |Holding(m.pc)| == 1
    ensures m.mutex.value >= 0 && m.next.value >= 0 && forall c :: 0 <= c < |m.cv| ==> m.cv[c].sem.value >= 0
  {
    InitInv(n, k);
    var t := RunInv(Init(n, k), InMutex, steps, m);
    OneValue(m.cv, if t.InCond? then t.cv else -1);
    if t.With? {
      assert Holding(m.pc) == {t.p};
    } else {
      assert Holding(m.pc) == {};
    }
  }

  /** A process that is only waiting for a condition, or not using the monitor. */
  predicate AtRest(pc: PC) {
    pc.Outside? || pc.WaitAsleep?
  }

  /** The token is never stranded: unless all are at rest, some process can go on. */
  lemma NeverStuck(n: nat, k: nat, steps: seq<(Pid, Op)>, m: Mon, p: Pid)
    requires Run(Init(n, k), steps, m) && p < |m.pc| && !AtRest(m.pc[p])
    ensures exists q: Pid, op :: op != Call && Enabled(m, q, op)
  {
    InitInv(n, k);
    var t := RunInv(Init(n, k), InMutex, steps, m);
    if m.pc[p].EnterAsleep? || m.pc[p].SignalAsleep? {
      assert p in Signallers(m.pc) <==> Signalling(m.pc[p]);
      TokenMoves(m, t);
    } else {
      CanGo(m, p);
    }
  }

  lemma CanGo(m: Mon, p: Pid)
    requires p < |m.pc| && InRange(m.pc[p], |m.cv|) && !AtRest(m.pc[p]) && !m.pc[p].EnterAsleep?
    requires !m.pc[p].SignalAsleep?
    ensures exists op :: op != Call && Enabled(m, p, op)
  {
    var op := match m.pc[p]
      case Entering => DownMutex
      case Inside => Leave
      case SignalUp(_) => UpCond
      case SignalDown(_) => DownNext
      case SignalBack(_) => EndSignal
      case WaitUp(_) => GiveUp
      case WaitDown(_) => DownCond
      case _ => EndWait;
    assert Enabled(m, p, op);
  }

  lemma TokenMoves(m: Mon, t: Token)
    requires Inv(m, t) && t != InMutex
    ensures exists q: Pid, op :: op != Call && Enabled(m, q, op)
  {
    var q: Pid :| q < |m.pc|
        && (t == With(q) || (t == InNext && m.pc[q].SignalDown?) || (t.InCond? && m.pc[q] == WaitDown(t.cv)));
    CanGo(m, q);
  }
}
