/** The timer list of kern/schedule/sched.c, as a specification: a queue of timers with the ticks each has left,
    those due first in front. */
module TimerSpec {
  import opened Process


  /** timer_t: ticks after the timer in front of it, and the process to wake. */
  class Timer {
    var expires: int
    const proc: Proc

    /** timer_init. */
    constructor (proc: Proc, expires: int)
      ensures this.proc == proc && this.expires == expires
    {
      this.proc := proc;
      this.expires := expires;
    }
  }

  datatype Entry = Entry(timer: Timer, due: int)

  type Queue = seq<Entry>

  ghost predicate Ordered(q: Queue) {
    && (forall i :: 0 <= i < |q| ==> q[i].due > 0)
    && (forall i, j :: 0 <= i < j < |q| ==> q[i].due <= q[j].due)
    && (forall i, j :: 0 <= i < j < |q| ==> q[i].timer != q[j].timer)
  }

  ghost predicate Pending(q: Queue, t: Timer) {
    exists i :: 0 <= i < |q| && q[i].timer == t
  }

  /** A timer goes behind all that are due no later. */
  ghost function Add(q: Queue, e: Entry): Queue {
    if q == [] || e.due < q[0].due then [e] + q else [q[0]] + Add(q[1..], e)
  }

  ghost function Del(q: Queue, t: Timer): Queue {
    if q == [] then [] else if q[0].timer == t then q[1..] else [q[0]] + Del(q[1..], t)
  }

  /** A tick brings every timer one nearer; those that reach zero fire, in order. */
  ghost function Fired(q: Queue): seq<Timer> {
    if q == [] || q[0].due > 1 then [] else [q[0].timer] + Fired(q[1..])
  }

  ghost function Tick(q: Queue): Queue {
    if q == [] then [] else if q[0].due <= 1 then Tick(q[1..]) else [Entry(q[0].timer, q[0].due - 1)] + Tick(q[1..])
  }

  // ---------- where the operations act ----------

  lemma {:induction false} AddAt(q: Queue, e: Entry, i: nat)
    requires i <= |q| && (forall k :: 0 <= k < i ==> q[k].due <= e.due) && (i < |q| ==> e.due < q[i].due)
    ensures Add(q, e) == q[..i] + [e] + q[i..]
  {
    if i > 0 {
      AddAt(q[1..], e, i - 1);
      assert q == [q[0]] + q[1..];
      assert q[1..][..i - 1] == q[1..i] && q[1..][i - 1..] == q[i..];
    }
  }

  lemma {:induction false} DelAt(q: Queue, t: Timer, i: nat)
    requires i < |q| && q[i].timer == t && forall k :: 0 <= k < i ==> q[k].timer != t
    ensures Del(q, t) == q[..i] + q[i + 1..]
  {
    if i > 0 {
      DelAt(q[1..], t, i - 1);
      assert q == [q[0]] + q[1..];
      assert q[1..][..i - 1] == q[1..i] && q[1..][i..] == q[i + 1..];
    }
  }

  lemma {:induction false} DelAbsent(q: Queue, t: Timer)
    requires !Pending(q, t)
    ensures Del(q, t) == q
  {
    if q != [] {
      assert q[0].timer != t;
      assert forall k :: 0 <= k < |q[1..]| ==> q[1..][k] == q[k + 1];
      DelAbsent(q[1..], t);
    }
  }

  ghost function Nearer(q: Queue): Queue {
    seq(|q|, k requires 0 <= k < |q| => Entry(q[k].timer, q[k].due - 1))
  }

  ghost function Timers(q: Queue): seq<Timer> {
    seq(|q|, k requires 0 <= k < |q| => q[k].timer)
  }

  /** The timers that fire are those in front that have one tick left; the others stay. */
  lemma {:induction false} TickAt(q: Queue, i: nat)
    requires i <= |q| && (forall k :: 0 <= k < i ==> q[k].due <= 1) && (forall k :: i <= k < |q| ==> q[k].due > 1)
    ensures Fired(q) == Timers(q[..i]) && Tick(q) == Nearer(q[i..])
  {
    if q != [] {
      assert forall k :: 0 <= k < |q| - 1 ==> q[1..][k] == q[k + 1];
      TickAt(q[1..], if i > 0 then i - 1 else 0);
      if i > 0 {
        assert q[1..][..i - 1] == q[1..i] && q[1..][i - 1..] == q[i..];
        assert Timers(q[..i]) == [q[0].timer] + Timers(q[1..i]);
      } else {
        assert Nearer(q) == [Entry(q[0].timer, q[0].due - 1)] + Nearer(q[1..]);
      }
    }
  }

  // ---------- runs ----------

  datatype Op = AddOp(timer: Timer, ticks: int) | DelOp(timer: Timer) | TickOp

  ghost predicate Legal(q: Queue, op: Op) {
    op.AddOp? ==> op.ticks > 0 && !Pending(q, op.timer)
  }

  ghost function Exec(q: Queue, op: Op): Queue {
    match op
    case AddOp(t, n) => Add(q, Entry(t, n))
    case DelOp(t) => Del(q, t)
    case TickOp => Tick(q)
  }

  /** The queue after a run, in which nobody touches timer t. */
  ghost predicate Run(q: Queue, ops: seq<Op>, q': Queue, t: Timer)
    decreases |ops|
  {
    if ops == [] then q' == q
    else Legal(q, ops[0]) && (ops[0].TickOp? || ops[0].timer != t) && Run(Exec(q, ops[0]), ops[1..], q', t)
  }

  ghost function Ticks(ops: seq<Op>): nat {
    if ops == [] then 0 else (if ops[0].TickOp? then 1 else 0) + Ticks(ops[1..])
  }

  lemma {:induction false} FirstLater(q: Queue, d: int) returns (i: nat)
    requires forall i, j :: 0 <= i < j < |q| ==> q[i].due <= q[j].due
    ensures i <= |q| && (forall k :: 0 <= k < i ==> q[k].due <= d) && (forall k :: i <= k < |q| ==> q[k].due > d)
  {
    i := 0;
    while i < |q| && q[i].due <= d
      invariant i <= |q| && forall k :: 0 <= k < i ==> q[k].due <= d
    {
      i := i + 1;
    }
  }

  lemma InsertOrdered(q: Queue, i: nat, e: Entry)
    requires Ordered(q) && i <= |q| && e.due > 0
    requires (forall k :: 0 <= k < i ==> q[k].due <= e.due) && (forall k :: i <= k < |q| ==> q[k].due > e.due)
    requires forall k :: 0 <= k < |q| ==> q[k].timer != e.timer
    ensures Ordered(q[..i] + [e] + q[i..])
  {
    var r := q[..i] + [e] + q[i..];
    forall k: nat | k < |r| ensures r[k] == if k < i then q[k] else if k == i then e else q[k - 1] {
    }
  }

  lemma InsertHas(q: Queue, i: nat, e: Entry, at: nat)
    requires i <= |q| && at < |q|
    ensures q[at] in q[..i] + [e] + q[i..]
  {
    var r := q[..i] + [e] + q[i..];
    assert r[if at < i then at else at + 1] == q[at];
  }

  lemma AddKeeps(q: Queue, t: Timer, n: int, e: Entry)
    requires Ordered(q) && n > 0 && !Pending(q, t) && e in q
    ensures Ordered(Add(q, Entry(t, n))) && e in Add(q, Entry(t, n))
  {
    var i := FirstLater(q, n);
    AddAt(q, Entry(t, n), i);
    InsertOrdered(q, i, Entry(t, n));
    var at :| 0 <= at < |q| && q[at] == e;
    InsertHas(q, i, Entry(t, n), at);
  }

  lemma RemoveOrdered(q: Queue, i: nat)
    requires Ordered(q) && i < |q|
    ensures Ordered(q[..i] + q[i + 1..])
  {
  }

  lemma RemoveHas(q: Queue, i: nat, at: nat)
    requires i < |q| && at < |q| && at != i
    ensures q[at] in q[..i] + q[i + 1..]
  {
    var r := q[..i] + q[i + 1..];
    assert r[if at < i then at else at - 1] == q[at];
  }

  lemma DelKeeps(q: Queue, t: Timer, e: Entry)
    requires Ordered(q) && e in q && e.timer != t
    ensures Ordered(Del(q, t)) && e in Del(q, t)
  {
    if Pending(q, t) {
      var i :| 0 <= i < |q| && q[i].timer == t;
      DelAt(q, t, i);
      RemoveOrdered(q, i);
      var at :| 0 <= at < |q| && q[at] == e;
      RemoveHas(q, i, at);
    } else {
      DelAbsent(q, t);
    }
  }

  lemma TickOrdered(q: Queue)
    requires Ordered(q)
    ensures Ordered(Tick(q))
  {
    hide Tick, Fired;
    var i := TickParts(q);
  }

  lemma TickKeeps(q: Queue, e: Entry)
    requires Ordered(q) && e in q && e.due > 1
    ensures Ordered(Tick(q)) && Entry(e.timer, e.due - 1) in Tick(q)
  {
    hide Tick, Fired, Ordered;
    TickOrdered(q);
    var i := TickParts(q);
    var at :| 0 <= at < |q| && q[at] == e;
    assert Tick(q)[at - i] == Entry(e.timer, e.due - 1);
  }

  /** One step keeps the queue ordered and every other timer on time. */
  lemma ExecKeeps(q: Queue, op: Op, e: Entry)
    requires Ordered(q) && Legal(q, op) && e in q
    requires if op.TickOp? then e.due > 1 else op.timer != e.timer
    ensures Ordered(Exec(q, op)) && After(op, e) in Exec(q, op)
  {
    match op
    case AddOp(t, n) => AddKeeps(q, t, n, e);
    case DelOp(t) => DelKeeps(q, t, e);
    case TickOp => TickKeeps(q, e);
  }

  ghost function After(op: Op, e: Entry): Entry {
    if op.TickOp? then Entry(e.timer, e.due - 1) else e
  }

  /** A timer with d ticks left stays pending through any run of fewer than d ticks in which it is not deleted. */
  lemma {:induction false} StaysPending(q: Queue, ops: seq<Op>, q': Queue, e: Entry)
    requires Ordered(q) && e in q && Run(q, ops, q', e.timer) && Ticks(ops) < e.due
    ensures Ordered(q') && Entry(e.timer, e.due - Ticks(ops)) in q'
    decreases |ops|
  {
    hide Ordered, Legal, Exec;
    if ops == [] {
      assert q' == q && Entry(e.timer, e.due - Ticks(ops)) == e;
    } else {
      ExecKeeps(q, ops[0], e);
      StaysPending(Exec(q, ops[0]), ops[1..], q', After(ops[0], e));
    }
  }

  /** What a tick takes and what it leaves, element by element. */
  lemma TickParts(q: Queue) returns (i: nat)
    requires Ordered(q)
    ensures i == |Fired(q)| <= |q| && |Tick(q)| == |q| - i
    ensures forall k :: 0 <= k < i ==> Fired(q)[k] == q[k].timer && q[k].due == 1
    ensures forall k :: i <= k < |q| ==> Tick(q)[k - i] == Entry(q[k].timer, q[k].due - 1) && q[k].due > 1
    ensures forall k :: 0 <= k < |q| - i ==> Tick(q)[k] == Entry(q[i + k].timer, q[i + k].due - 1)
  {
    hide Tick, Fired;
    i := FirstLater(q, 1);
    TickAt(q, i);
  }

  /** A tick fires exactly the timers with one tick left. */
  lemma FiresWhenDue(q: Queue, e: Entry)
    requires Ordered(q) && e in q
    ensures e.timer in Fired(q) <==> e.due == 1
    ensures Pending(Tick(q), e.timer) <==> e.due > 1
  {
    hide Tick, Fired;
    var i := TickParts(q);
    var at :| 0 <= at < |q| && q[at] == e;
    if at < i {
      assert Fired(q)[at] == e.timer;
    } else {
      assert Tick(q)[at - i].timer == e.timer;
    }
  }

  lemma AddedIn(q: Queue, t: Timer, n: int)
    requires Ordered(q) && n > 0 && !Pending(q, t)
    ensures Ordered(Add(q, Entry(t, n))) && Entry(t, n) in Add(q, Entry(t, n))
  {
    var i := FirstLater(q, n);
    AddAt(q, Entry(t, n), i);
    InsertOrdered(q, i, Entry(t, n));
    assert (q[..i] + [Entry(t, n)] + q[i..])[i] == Entry(t, n);
  }

  /** A timer added with n ticks fires at exactly the n-th tick after, unless it is deleted before. */
  lemma FiresOnTime(q: Queue, t: Timer, n: int, ops: seq<Op>, q': Queue)
    requires Ordered(q) && Legal(q, AddOp(t, n)) && Run(Add(q, Entry(t, n)), ops, q', t) && Ticks(ops) < n
    ensures Ordered(q') && Entry(t, n - Ticks(ops)) in q'
    ensures t in Fired(q') <==> Ticks(ops) == n - 1
  {
    AddedIn(q, t, n);
    StaysPending(Add(q, Entry(t, n)), ops, q', Entry(t, n));
    FiresWhenDue(q', Entry(t, n - Ticks(ops)));
  }

  // ---------- equal deadlines ----------

  ghost predicate Before(q: Queue, a: Timer, b: Timer) {
    exists i, j :: 0 <= i < j < |q| && q[i].timer == a && q[j].timer == b
  }

  /** A new timer comes behind every timer that is due at the same time or earlier. */
  lemma AddedBehind(q: Queue, e: Entry, t: Timer, n: int)
    requires Ordered(q) && e in q && e.due <= n
    ensures Before(Add(q, Entry(t, n)), e.timer, t)
  {
    var i := FirstLater(q, n);
    AddAt(q, Entry(t, n), i);
    var at :| 0 <= at < |q| && q[at] == e;
    var r := Add(q, Entry(t, n));
    assert r[at].timer == e.timer && r[i].timer == t;
  }

  lemma InsertBefore(q: Queue, k: nat, e: Entry, i: nat, j: nat)
    requires k <= |q| && i < j < |q|
    ensures Before(q[..k] + [e] + q[k..], q[i].timer, q[j].timer)
  {
    var r := q[..k] + [e] + q[k..];
    var i', j' := if i < k then i else i + 1, if j < k then j else j + 1;
    assert r[i'] == q[i] && r[j'] == q[j];
  }

  lemma RemoveBefore(q: Queue, k: nat, i: nat, j: nat)
    requires k < |q| && i < j < |q| && k != i && k != j
    ensures Before(q[..k] + q[k + 1..], q[i].timer, q[j].timer)
  {
    var r := q[..k] + q[k + 1..];
    var i', j' := if i < k then i else i - 1, if j < k then j else j - 1;
    assert r[i'] == q[i] && r[j'] == q[j];
  }

  lemma InOrderByDue(q: Queue)
    requires Ordered(q)
    ensures forall i, j :: 0 <= i < j < |q| ==> q[i].due <= q[j].due
  {
  }

  lemma OneOfEach(q: Queue, k: nat)
    requires Ordered(q) && k < |q|
    ensures forall i :: 0 <= i < k ==> q[i].timer != q[k].timer
  {
  }

  /** Timers never overtake each other. */
  lemma OrderKept(q: Queue, op: Op, a: Timer, b: Timer)
    requires Ordered(q) && Legal(q, op) && Before(q, a, b) && !op.TickOp? && op.timer != a && op.timer != b
    ensures Before(Exec(q, op), a, b)
  {
    hide Add, Del, Ordered;
    var i, j :| 0 <= i < j < |q| && q[i].timer == a && q[j].timer == b;
    if op.AddOp? {
      InOrderByDue(q);
      var k := FirstLater(q, op.ticks);
      AddAt(q, Entry(op.timer, op.ticks), k);
      InsertBefore(q, k, Entry(op.timer, op.ticks), i, j);
    } else if Pending(q, op.timer) {
      var k :| 0 <= k < |q| && q[k].timer == op.timer;
      OneOfEach(q, k);
      DelAt(q, op.timer, k);
      RemoveBefore(q, k, i, j);
    } else {
      DelAbsent(q, op.timer);
    }
  }

  /** Of two pending timers the first one fires no later than the second, and before it in the same tick. */
  lemma NoOvertaking(q: Queue, a: Timer, b: Timer)
    requires Ordered(q) && Before(q, a, b)
    ensures if a in Fired(q) then b in Fired(q) ==>
              exists i, j :: 0 <= i < j < |Fired(q)| && Fired(q)[i] == a && Fired(q)[j] == b
            else b !in Fired(q) && Before(Tick(q), a, b)
  {
    var i, j :| 0 <= i < j < |q| && q[i].timer == a && q[j].timer == b;
    hide Tick, Fired;
    var k := TickParts(q);
    if i >= k {
      assert Tick(q)[i - k].timer == a && Tick(q)[j - k].timer == b;
    } else {
      assert Fired(q)[i] == a;
      assert j < k ==> Fired(q)[j] == b;
    }
  }
}

/** The timer list of kern/schedule/sched.c: every entry holds only the ticks after the entry in front of it. The
    methods are the kernel's code, and do on those differences what TimerSpec does on the ticks left. */
module Timers {
  import opened TimerSpec

  // ---------- differences and sums ----------

  ghost function Sum(d: seq<int>, k: nat): int
    requires k <= |d|
  {
    if k == 0 then 0 else Sum(d, k - 1) + d[k - 1]
  }

  lemma {:induction false} SumCut(d: seq<int>, e: seq<int>, k: nat)
    requires k <= |d| && k <= |e| && forall i :: 0 <= i < k ==> d[i] == e[i]
    ensures Sum(d, k) == Sum(e, k)
  {
    if k > 0 { SumCut(d, e, k - 1); }
  }

  /** The sums after position i depend on what comes before only through its sum. */
  lemma {:induction false} SumShift(d: seq<int>, i: nat, e: seq<int>, j: nat, k: nat)
    requires i + k <= |d| && j + k <= |e| && forall m :: i <= m < i + k ==> d[m] == e[m - i + j]
    ensures Sum(d, i + k) - Sum(d, i) == Sum(e, j + k) - Sum(e, j)
  {
    if k > 0 {
      SumShift(d, i, e, j, k - 1);
      assert d[i + k - 1] == e[j + k - 1];
    }
  }

  lemma {:induction false} SumMono(d: seq<int>, i: nat, k: nat)
    requires i <= k <= |d| && forall m :: 0 <= m < |d| ==> d[m] >= 0
    ensures Sum(d, i) <= Sum(d, k)
    decreases k
  {
    if i < k { SumMono(d, i, k - 1); }
  }

  /** The queue that a list of timers with given differences stands for. */
  ghost function View(ts: seq<Timer>, d: seq<int>): (q: Queue)
    requires |d| == |ts|
    ensures |q| == |ts|
  {
    seq(|ts|, i requires 0 <= i < |ts| => Entry(ts[i], Sum(d, i + 1)))
  }

  lemma ViewAt(ts: seq<Timer>, d: seq<int>, k: nat)
    requires k < |ts| == |d|
    ensures View(ts, d)[k] == Entry(ts[k], Sum(d, k + 1))
  {
  }

  ghost predicate GoodDeltas(ts: seq<Timer>, d: seq<int>) {
    && |d| == |ts| && (forall i :: 0 <= i < |d| ==> d[i] >= 0) && (d != [] ==> d[0] > 0)
    && Distinct(ts)
  }

  ghost predicate Distinct(ts: seq<Timer>) {
    forall i, j :: 0 <= i < j < |ts| ==> ts[i] != ts[j]
  }

  lemma GoodIsOrdered(ts: seq<Timer>, d: seq<int>)
    requires GoodDeltas(ts, d)
    ensures Ordered(View(ts, d))
  {
    forall i: nat, j: nat | 1 <= i <= j <= |d| ensures 0 < Sum(d, i) <= Sum(d, j) {
      SumMono(d, 1, i);
      SumMono(d, i, j);
    }
  }

  /** Putting a timer in front of entry i, with r ticks after its predecessor, and taking r off entry i. */
  ghost function InsertDelta(d: seq<int>, i: nat, r: int): (e: seq<int>)
    requires i <= |d|
    ensures |e| == |d| + 1
  {
    d[..i] + [r] + (if i < |d| then [d[i] - r] + d[i + 1..] else [])
  }

  lemma InsertSums(d: seq<int>, i: nat, r: int, k: nat)
    requires i <= |d| && k <= |d|
    ensures k <= i ==> Sum(InsertDelta(d, i, r), k) == Sum(d, k)
    ensures k == i ==> Sum(InsertDelta(d, i, r), k + 1) == Sum(d, k) + r
    ensures k > i ==> Sum(InsertDelta(d, i, r), k + 1) == Sum(d, k)
  {
    var e := InsertDelta(d, i, r);
    SumCut(d, e, if k <= i then k else i);
    if k > i {
      assert Sum(e, i + 2) == Sum(e, i) + e[i] + e[i + 1];
      assert Sum(d, i + 1) == Sum(d, i) + d[i];
      SumShift(d, i + 1, e, i + 2, k - (i + 1));
    }
  }

  lemma InsertDeltaView(ts: seq<Timer>, d: seq<int>, i: nat, r: int, t: Timer)
    requires |d| == |ts| && i <= |d|
    ensures View(ts[..i] + [t] + ts[i..], InsertDelta(d, i, r)) ==
              View(ts, d)[..i] + [Entry(t, Sum(d, i) + r)] + View(ts, d)[i..]
  {
    hide Sum, InsertDelta, View;
    var us, e, q := ts[..i] + [t] + ts[i..], InsertDelta(d, i, r), View(ts, d);
    var lhs, rhs := View(us, e), q[..i] + [Entry(t, Sum(d, i) + r)] + q[i..];
    forall k: nat | k < |lhs| ensures lhs[k] == rhs[k] {
      ViewAt(us, e, k);
      InsertSums(d, i, r, if k < i then k + 1 else k);
      InsertedAt(ts, q, t, Entry(t, Sum(d, i) + r), i, k);
      if k != i { ViewAt(ts, d, if k < i then k else k - 1); }
    }
  }

  lemma InsertedAt(ts: seq<Timer>, q: Queue, t: Timer, x: Entry, i: nat, k: nat)
    requires i <= |ts| == |q| && k <= |ts|
    ensures (ts[..i] + [t] + ts[i..])[k] == if k < i then ts[k] else if k == i then t else ts[k - 1]
    ensures (q[..i] + [x] + q[i..])[k] == if k < i then q[k] else if k == i then x else q[k - 1]
  {
  }

  /** Taking out entry i and giving its ticks to its successor. */
  ghost function RemoveDelta(d: seq<int>, i: nat): (e: seq<int>)
    requires i < |d|
    ensures |e| == |d| - 1
  {
    d[..i] + (if i + 1 < |d| then [d[i + 1] + d[i]] + d[i + 2..] else [])
  }

  lemma RemoveSums(d: seq<int>, i: nat, k: nat)
    requires i < |d| && k <= |d| && k != i + 1
    ensures Sum(RemoveDelta(d, i), if k <= i then k else k - 1) == Sum(d, k)
  {
    var e := RemoveDelta(d, i);
    SumCut(d, e, if k <= i then k else i);
    if k > i {
      assert Sum(d, i + 2) == Sum(d, i) + d[i] + d[i + 1];
      assert Sum(e, i + 1) == Sum(e, i) + e[i];
      SumShift(d, i + 2, e, i + 1, k - (i + 2));
    }
  }

  lemma RemoveDeltaView(ts: seq<Timer>, d: seq<int>, i: nat)
    requires |d| == |ts| && i < |d|
    ensures View(ts[..i] + ts[i + 1..], RemoveDelta(d, i)) == View(ts, d)[..i] + View(ts, d)[i + 1..]
  {
    hide Sum, RemoveDelta, View;
    var us, e, q := ts[..i] + ts[i + 1..], RemoveDelta(d, i), View(ts, d);
    var lhs, rhs := View(us, e), q[..i] + q[i + 1..];
    forall k: nat | k < |lhs| ensures lhs[k] == rhs[k] {
      ViewAt(us, e, k);
      ViewAt(ts, d, if k < i then k else k + 1);
      RemoveSums(d, i, if k < i then k + 1 else k + 2);
    }
  }

  /** After the first difference has dropped by one, dropping i leading zeros is a tick that fires i timers. */
  lemma TickSums(d: seq<int>, e: seq<int>, k: nat)
    requires d != [] && e == d[0 := d[0] - 1] && 1 <= k <= |d|
    ensures Sum(d, k) == Sum(e, k) + 1
  {
    assert Sum(d, 1) == Sum(d, 0) + d[0] && Sum(e, 1) == Sum(e, 0) + e[0];
    SumShift(d, 1, e, 1, k - 1);
  }

  lemma DueNow(d: seq<int>, e: seq<int>, i: nat, k: nat)
    requires d != [] && i <= |d| && k < |d| && e == d[0 := d[0] - 1]
    requires (forall m :: 0 <= m < |d| ==> e[m] >= 0) && (forall m :: 0 <= m < i ==> e[m] == 0)
    requires (i < |d| ==> e[i] > 0)
    ensures if k < i then Sum(d, k + 1) <= 1 else Sum(d, k + 1) > 1
  {
    TickSums(d, e, k + 1);
    if k < i {
      Zeros(e, k + 1);
    } else {
      Zeros(e, i);
      SumMono(e, i + 1, k + 1);
      assert Sum(e, i + 1) == Sum(e, i) + e[i];
    }
  }

  lemma TickDeltaView(ts: seq<Timer>, d: seq<int>, e: seq<int>, i: nat)
    requires GoodDeltas(ts, d) && d != [] && i <= |d| && e == d[0 := d[0] - 1]
    requires (forall k :: 0 <= k < i ==> e[k] == 0) && (i < |d| ==> e[i] > 0)
    ensures Fired(View(ts, d)) == ts[..i] && Tick(View(ts, d)) == View(ts[i..], e[i..])
  {
    hide Sum, Tick, Fired;
    var q, f := View(ts, d), e[i..];
    forall k: nat | k < |d| ensures if k < i then q[k].due <= 1 else q[k].due > 1 {
      DueNow(d, e, i, k);
    }
    TickAt(q, i);
    assert Fired(q) == ts[..i];
    var lhs, rhs := Nearer(q[i..]), View(ts[i..], f);
    forall k: nat | k < |lhs| ensures lhs[k] == rhs[k] {
      TickSums(d, e, i + k + 1);
      SumShift(e, i, f, 0, k + 1);
      Zeros(e, i);
      Zeros(f, 0);
    }
  }

  /** Taking out a head with no ticks left. */
  lemma DropHead(ts: seq<Timer>, d: seq<int>, n: nat)
    requires n < |ts| == |d|
    ensures ts[n..][..0] + ts[n..][1..] == ts[n + 1..] && ts[..n] + [ts[n..][0]] == ts[..n + 1]
    ensures d[n] == 0 ==> RemoveDelta(d[n..], 0) == d[n + 1..]
    ensures Distinct(ts[n..]) ==> Distinct(ts[n + 1..])
  {
    assert ts[n + 1..] == ts[n..][1..];
  }

  lemma {:induction false} Zeros(d: seq<int>, i: nat)
    requires i <= |d| && forall k :: 0 <= k < i ==> d[k] == 0
    ensures Sum(d, i) == 0
  {
    if i > 0 { Zeros(d, i - 1); }
  }

  lemma AddView(ts: seq<Timer>, d: seq<int>, i: nat, r: int, t: Timer, n: int)
    requires GoodDeltas(ts, d) && t !in ts && i <= |d|
    requires 0 <= r == n - Sum(d, i) && (i == 0 ==> r > 0) && (i < |d| ==> r < d[i])
    ensures GoodDeltas(ts[..i] + [t] + ts[i..], InsertDelta(d, i, r))
    ensures View(ts[..i] + [t] + ts[i..], InsertDelta(d, i, r)) == Add(View(ts, d), Entry(t, n))
  {
    hide Add, InsertDelta, Distinct, Sum;
    var q := View(ts, d);
    forall k: nat | k < i ensures q[k].due <= n {
      SumMono(d, k + 1, i);
    }
    if i < |d| { SumNext(d, i); }
    AddAt(q, Entry(t, n), i);
    InsertDeltaView(ts, d, i, r, t);
    InsertDistinct(ts, t, i);
    InsertNatural(d, i, r);
  }

  lemma SumNext(d: seq<int>, k: nat)
    requires k < |d|
    ensures Sum(d, k + 1) == Sum(d, k) + d[k]
  {
  }

  lemma InsertNatural(d: seq<int>, i: nat, r: int)
    requires (forall k :: 0 <= k < |d| ==> d[k] >= 0) && i <= |d| && r >= 0 && (i < |d| ==> r <= d[i])
    ensures forall k :: 0 <= k < |InsertDelta(d, i, r)| ==> InsertDelta(d, i, r)[k] >= 0
    ensures |InsertDelta(d, i, r)| == |d| + 1 && InsertDelta(d, i, r)[0] == if i == 0 then r else d[0]
  {
  }

  lemma InsertDistinct(ts: seq<Timer>, t: Timer, i: nat)
    requires Distinct(ts) && t !in ts && i <= |ts|
    ensures Distinct(ts[..i] + [t] + ts[i..])
  {
  }

  lemma DelView(ts: seq<Timer>, d: seq<int>, i: nat)
    requires GoodDeltas(ts, d) && i < |d|
    ensures GoodDeltas(ts[..i] + ts[i + 1..], RemoveDelta(d, i))
    ensures View(ts[..i] + ts[i + 1..], RemoveDelta(d, i)) == Del(View(ts, d), ts[i])
    ensures Without(ts, ts[i]) == ts[..i] + ts[i + 1..]
  {
    DelAt(View(ts, d), ts[i], i);
    RemoveDeltaView(ts, d, i);
    WithoutAt(ts, ts[i], i);
  }

  lemma DelViewAbsent(ts: seq<Timer>, d: seq<int>, t: Timer)
    requires |d| == |ts| && t !in ts
    ensures Del(View(ts, d), t) == View(ts, d) && Without(ts, t) == ts
  {
    DelAbsent(View(ts, d), t);
    WithoutAbsent(ts, t);
  }

  ghost function Without(ts: seq<Timer>, t: Timer): seq<Timer> {
    if ts == [] then [] else if ts[0] == t then ts[1..] else [ts[0]] + Without(ts[1..], t)
  }

  lemma {:induction false} WithoutAt(ts: seq<Timer>, t: Timer, i: nat)
    requires i < |ts| && ts[i] == t && forall k :: 0 <= k < i ==> ts[k] != t
    ensures Without(ts, t) == ts[..i] + ts[i + 1..]
  {
    if i > 0 {
      WithoutAt(ts[1..], t, i - 1);
      assert ts[1..][..i - 1] == ts[1..i] && ts[1..][i..] == ts[i + 1..];
    }
  }

  lemma {:induction false} WithoutAbsent(ts: seq<Timer>, t: Timer)
    requires t !in ts
    ensures Without(ts, t) == ts
  {
    if ts != [] { WithoutAbsent(ts[1..], t); }
  }

  method IndexOf(ts: seq<Timer>, t: Timer) returns (i: nat)
    requires t in ts
    ensures i < |ts| && ts[i] == t && forall k :: 0 <= k < i ==> ts[k] != t
  {
    i := 0;
    while ts[i] != t
      invariant i < |ts| && t in ts[i..] && forall k :: 0 <= k < i ==> ts[k] != t
      decreases |ts| - i
    {
      i := i + 1;
    }
  }

  class TimerList {
    var list: seq<Timer>
    /** The expires fields along the list. */
    ghost var deltas: seq<int>

    /** list_init(&timer_list). */
    constructor ()
      ensures Valid() && Queue() == []
    {
      list, deltas := [], [];
    }

    ghost predicate Linked()
      reads this, list`expires
    {
      |deltas| == |list| && forall k :: 0 <= k < |list| ==> list[k].expires == deltas[k]
    }

    ghost predicate Valid()
      reads this, list`expires
    {
      Linked() && GoodDeltas(list, deltas)
    }

    /** The pending timers with the ticks each has left. */
    ghost function Queue(): (q: TimerSpec.Queue)
      requires Valid()
      reads this, list`expires
      ensures Ordered(q)
    {
      GoodIsOrdered(list, deltas);
      View(list, deltas)
    }

    /** The loop of add_timer: the place of the new timer, which is left with its ticks after its predecessor. */
    method FindSlot(timer: Timer) returns (i: nat)
      requires Valid() && timer !in list && timer.expires > 0
      modifies timer`expires
      ensures Linked() && i <= |list| && 0 <= timer.expires == old(timer.expires) - Sum(deltas, i)
      ensures i == 0 ==> timer.expires > 0
      ensures i < |list| ==> timer.expires < deltas[i]
    {
      i := 0;
      while i < |list|
        invariant i <= |list| && Linked()
        invariant 0 <= timer.expires == old(timer.expires) - Sum(deltas, i) && (i == 0 ==> timer.expires > 0)
      {
        var next := list[i];
        if timer.expires < next.expires {
          break;
        }
        timer.expires := timer.expires - next.expires;
        i := i + 1;
      }
    }

    /** The end of add_timer: the successor's ticks are counted from the new timer on. */
    method LinkAt(timer: Timer, i: nat)
      requires Linked() && i <= |list| && timer !in list && Distinct(list)
      modifies this, list`expires
      ensures Linked() && timer.expires == old(timer.expires)
      ensures list == old(list)[..i] + [timer] + old(list)[i..] && deltas == InsertDelta(old(deltas), i, timer.expires)
    {
      if i < |list| {
        var next := list[i];
        next.expires := next.expires - timer.expires;
      }
      list, deltas := list[..i] + [timer] + list[i..], InsertDelta(deltas, i, timer.expires);
    }

    /** add_timer. */
    method AddTimer(timer: Timer)
      requires Valid() && timer !in list && timer.expires > 0
      modifies this, timer`expires, list`expires
      ensures Valid() && Queue() == Add(old(Queue()), Entry(timer, old(timer.expires)))
    {
      var i := FindSlot(timer);
      AddView(list, deltas, i, timer.expires, timer, old(timer.expires));
      LinkAt(timer, i);
    }

    /** The body of del_timer for a timer in the list: its successor takes over the ticks it had left. */
    method RemoveAt(i: nat)
      requires Linked() && i < |list| && Distinct(list)
      modifies this, list`expires
      ensures Linked() && list == old(list)[..i] + old(list)[i + 1..] && deltas == RemoveDelta(old(deltas), i)
    {
      var timer := list[i];
      if timer.expires != 0 {
        if i + 1 < |list| {
          var next := list[i + 1];
          next.expires := next.expires + timer.expires;
        }
      }
      list, deltas := list[..i] + list[i + 1..], RemoveDelta(deltas, i);
    }

    /** del_timer: a timer that is not in the list, having fired or never been added, is left alone. */
    method DelTimer(timer: Timer)
      requires Valid()
      modifies this, list`expires
      ensures Valid() && Queue() == Del(old(Queue()), timer) && list == Without(old(list), timer)
    {
      if timer in list {
        var i := IndexOf(list, timer);
        DelView(list, deltas, i);
        RemoveAt(i);
      } else {
        DelViewAbsent(list, deltas, timer);
      }
    }

    /** The loop of run_timer_list, which takes out the timers in front that have no ticks left. */
    method TakeDue() returns (due: seq<Timer>)
      requires Linked() && Distinct(list) && list != []
      modifies this, list`expires
      ensures Linked() && |due| <= |old(list)| && due == old(list)[..|due|] && list == old(list)[|due|..]
      ensures deltas == old(deltas)[|due|..] && (forall k :: 0 <= k < |due| ==> old(deltas)[k] == 0)
      ensures |due| < |old(deltas)| ==> old(deltas)[|due|] != 0
    {
      hide Distinct, Linked;
      ghost var ts, ds := list, deltas;
      FirstExpires();
      var timer := list[0];
      due := [];
      while timer.expires == 0
        invariant Linked() && Distinct(list) && |due| < |ts| == |ds| && due == ts[..|due|] && list == ts[|due|..]
        invariant deltas == ds[|due|..] && timer == list[0] && timer.expires == deltas[0]
        invariant forall k :: 0 <= k < |due| ==> ds[k] == 0
        decreases |list|
      {
        TakeHead(ts, ds, |due|);
        due := due + [timer];
        if list == [] {
          break;
        }
        FirstExpires();
        timer := list[0];
      }
    }

    lemma FirstExpires()
      requires Linked() && list != []
      ensures |deltas| == |list| && list[0].expires == deltas[0]
    {
    }

    /** The head, which has no ticks left, goes. */
    method TakeHead(ghost ts: seq<Timer>, ghost ds: seq<int>, ghost n: nat)
      requires Linked() && Distinct(list) && n < |ts| == |ds| && list == ts[n..] && deltas == ds[n..] && ds[n] == 0
      modifies this, list`expires
      ensures Linked() && Distinct(list) && list == ts[n + 1..] && deltas == ds[n + 1..]
    {
      hide Distinct, RemoveDelta, Linked;
      DropHead(ts, ds, n);
      RemoveAt(0);
    }

    /** run_timer_list: one tick, and the timers whose processes it wakes, in order. */
    method RunTick() returns (fired: seq<Timer>)
      requires Valid()
      modifies this, list`expires
      ensures Valid() && fired == Fired(old(Queue())) && Queue() == Tick(old(Queue()))
    {
      fired := [];
      if list != [] {
        ghost var ts, d, e := list, deltas, deltas[0 := deltas[0] - 1];
        var timer := list[0];
        timer.expires := timer.expires - 1;
        deltas := e;
        fired := TakeDue();
        TickDeltaView(ts, d, e, |fired|);
      }
    }
  }
}
