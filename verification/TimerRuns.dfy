/** Whole runs of the timer list of kern/schedule/sched.c: timers are added and deleted and ticks come, in any order. */
module TimerRuns {
  import opened Process
  import opened TimerSpec
  import opened Timers

  /** A new timer for a process, the deletion of the k-th one made, or a tick. */
  datatype Call = Start(proc: Proc, ticks: int) | Cancel(k: nat) | Clock

  /** A timer that has woken its process, and the tick at which it did. */
  datatype Firing = Firing(timer: Timer, at: nat)

  /** Timers are numbered in the order in which they were added; a is to fire before b. */
  ghost predicate Precedes(deadline: seq<nat>, a: nat, b: nat)
    requires a < |deadline| && b < |deadline|
  {
    deadline[a] < deadline[b] || (deadline[a] == deadline[b] && a < b)
  }

  /** In order of deadlines, and for equal deadlines in the order of adding. */
  ghost predicate InOrder(deadline: seq<nat>, ids: seq<nat>) {
    && (forall i :: 0 <= i < |ids| ==> ids[i] < |deadline|)
    && forall i, j :: 0 <= i < j < |ids| ==> Precedes(deadline, ids[i], ids[j])
  }

  /** The queue at a tick: the timers with these numbers, with the ticks they have left. */
  ghost predicate Tracks(q: Queue, ids: seq<nat>, made: seq<Timer>, deadline: seq<nat>, now: nat) {
    && |q| == |ids| && |made| == |deadline|
    && forall i :: 0 <= i < |ids| ==> ids[i] < |made| && q[i] == Entry(made[ids[i]], deadline[ids[i]] - now)
  }

  ghost predicate AllNew(made: seq<Timer>) {
    forall i, j :: 0 <= i < j < |made| ==> made[i] != made[j]
  }

  /** The timers with the first n of these numbers have fired, each at its deadline, and the others are in the queue. */
  ghost predicate Going(q: Queue, all: seq<nat>, made: seq<Timer>, deadline: seq<nat>, now: nat, log: seq<Firing>) {
    && Ordered(q) && InOrder(deadline, all) && |log| <= |all| && |made| == |deadline|
    && Tracks(q, all[|log|..], made, deadline, now) && Logged(log, all, made, deadline, now)
  }

  ghost predicate Logged(log: seq<Firing>, all: seq<nat>, made: seq<Timer>, deadline: seq<nat>, now: nat) {
    |log| <= |all| && |made| == |deadline| && forall i :: 0 <= i < |log| ==>
      all[i] < |made| && log[i] == Firing(made[all[i]], deadline[all[i]]) && deadline[all[i]] <= now
  }

  // ---------- what each call does ----------

  ghost function Put(all: seq<nat>, c: nat, k: nat): seq<nat>
    requires c <= |all|
  {
    all[..c] + [k] + all[c..]
  }

  /** A number higher than all others goes behind those with deadlines no later. */
  lemma PutInOrder(deadline: seq<nat>, all: seq<nat>, c: nat, d: nat)
    requires InOrder(deadline, all) && c <= |all|
    requires forall k :: 0 <= k < |all| ==> all[k] < |deadline| && (deadline[all[k]] <= d <==> k < c)
    ensures InOrder(deadline + [d], Put(all, c, |deadline|))
  {
    var r, e := Put(all, c, |deadline|), deadline + [d];
    forall k: nat | k < |r| ensures r[k] == if k < c then all[k] else if k == c then |deadline| else all[k - 1] {
    }
    forall i, j | 0 <= i < j < |r| ensures Precedes(e, r[i], r[j]) {
      if i != c && j != c {
        assert Precedes(deadline, all[if i < c then i else i - 1], all[if j < c then j else j - 1]);
      }
    }
  }

  lemma PutAt(all: seq<nat>, n: nat, i: nat, k: nat)
    requires n <= |all| && i <= |all| - n
    ensures Put(all, n + i, k)[n..] == all[n..][..i] + [k] + all[n..][i..] && Put(all, n + i, k)[..n] == all[..n]
  {
  }

  lemma QueueNow(q: Queue, all: seq<nat>, made: seq<Timer>, deadline: seq<nat>, now: nat, log: seq<Firing>)
    requires Going(q, all, made, deadline, now, log)
    ensures forall k :: 0 <= k < |all| ==> all[k] < |deadline| && (deadline[all[k]] <= now <==> k < |log|)
    ensures forall k :: 0 <= k < |q| ==>
              q[k].timer == made[all[|log| + k]] && q[k].due == deadline[all[|log| + k]] - now > 0
  {
    forall k: nat | k < |q|
        ensures q[k] == Entry(made[all[|log| + k]], deadline[all[|log| + k]] - now) && q[k].due > 0 {
      assert all[|log|..][k] == all[|log| + k];
    }
    forall k: nat | |log| <= k < |all| ensures deadline[all[k]] > now {
      assert q[k - |log|].due > 0;
    }
  }

  /** Where the new timer goes. */
  lemma SlotOf(q: Queue, all: seq<nat>, made: seq<Timer>, deadline: seq<nat>, now: nat, log: seq<Firing>, n: nat)
    returns (i: nat)
    requires Going(q, all, made, deadline, now, log)
    ensures i <= |q| == |all| - |log|
    ensures (forall k :: 0 <= k < i ==> q[k].due <= n) && (i < |q| ==> n < q[i].due)
    ensures forall k :: 0 <= k < |all| ==> all[k] < |deadline| && (deadline[all[k]] <= now + n <==> k < |log| + i)
  {
    hide InOrder, Going;
    QueueNow(q, all, made, deadline, now, log);
    assert Ordered(q) && |q| == |all| - |log| by { Lengths(q, all, made, deadline, now, log); }
    i := FirstLater(q, n);
    forall k: nat | k < |all| ensures deadline[all[k]] <= now + n <==> k < |log| + i {
      if k >= |log| {
        assert q[k - |log|].due == deadline[all[k]] - now;
      }
    }
  }

  lemma Lengths(q: Queue, all: seq<nat>, made: seq<Timer>, deadline: seq<nat>, now: nat, log: seq<Firing>)
    requires Going(q, all, made, deadline, now, log)
    ensures Ordered(q) && |q| == |all| - |log|
  {
  }

  /** The new timer takes its place behind all that are due no later. */
  lemma Started(q: Queue, all: seq<nat>, made: seq<Timer>, deadline: seq<nat>, now: nat, log: seq<Firing>, t: Timer,
                n: nat)
    returns (c: nat)
    requires Going(q, all, made, deadline, now, log) && n > 0 && !Pending(q, t)
    ensures |log| <= c <= |all|
    ensures Going(Add(q, Entry(t, n)), Put(all, c, |made|), made + [t], deadline + [now + n], now, log)
  {
    hide Add, InOrder, Ordered, Tracks, Put, Pending, Logged;
    var i := SlotOf(q, all, made, deadline, now, log, n);
    AddAt(q, Entry(t, n), i);
    AddedIn(q, t, n);
    c := |log| + i;
    PutInOrder(deadline, all, c, now + n);
    PutAt(all, |log|, i, |made|);
    PutTracks(q, all[|log|..], made, deadline, now, i, t, n);
    PutLogged(log, all, made, deadline, now, c, t, n);
  }

  lemma PutLogged(log: seq<Firing>, all: seq<nat>, made: seq<Timer>, deadline: seq<nat>, now: nat, c: nat, t: Timer,
                  n: nat)
    requires Logged(log, all, made, deadline, now) && |log| <= c <= |all|
    ensures Logged(log, Put(all, c, |made|), made + [t], deadline + [now + n], now)
    ensures |Put(all, c, |made|)| == |all| + 1
  {
    var r := Put(all, c, |made|);
    assert forall k :: 0 <= k < |log| ==> r[k] == all[k];
  }

  lemma PutTracks(q: Queue, ids: seq<nat>, made: seq<Timer>, deadline: seq<nat>, now: nat, i: nat, t: Timer, n: nat)
    requires Tracks(q, ids, made, deadline, now) && i <= |q|
    ensures Tracks(q[..i] + [Entry(t, n)] + q[i..], ids[..i] + [|made|] + ids[i..], made + [t], deadline + [now + n],
                   now)
  {
  }

  ghost function Drop(all: seq<nat>, c: nat): seq<nat>
    requires c < |all|
  {
    all[..c] + all[c + 1..]
  }

  lemma DropInOrder(deadline: seq<nat>, all: seq<nat>, c: nat)
    requires InOrder(deadline, all) && c < |all|
    ensures InOrder(deadline, Drop(all, c)) && forall k :: k in Drop(all, c) <==> k in all && k != all[c]
  {
    var r := Drop(all, c);
    forall i: nat | i < |r| ensures r[i] == all[if i < c then i else i + 1] && r[i] != all[c] {
      var j := if i < c then i else i + 1;
      assert j < c ==> Precedes(deadline, all[j], all[c]);
      assert c < j ==> Precedes(deadline, all[c], all[j]);
    }
    forall k | k in all && k != all[c] ensures k in r {
      var j :| 0 <= j < |all| && all[j] == k;
      assert r[if j < c then j else j - 1] == k;
    }
  }

  lemma DropTracks(q: Queue, all: seq<nat>, made: seq<Timer>, deadline: seq<nat>, now: nat, log: seq<Firing>, j: nat)
    requires Logged(log, all, made, deadline, now) && Tracks(q, all[|log|..], made, deadline, now) && j < |q|
    ensures Tracks(q[..j] + q[j + 1..], Drop(all, |log| + j)[|log|..], made, deadline, now)
    ensures Logged(log, Drop(all, |log| + j), made, deadline, now)
  {
    var r := Drop(all, |log| + j);
    assert r[|log|..] == all[|log|..][..j] + all[|log|..][j + 1..];
    assert forall k :: 0 <= k < |log| ==> r[k] == all[k];
  }

  /** Timer k leaves the queue if it waits there. */
  lemma Cancelled(q: Queue, all: seq<nat>, made: seq<Timer>, deadline: seq<nat>, now: nat, log: seq<Firing>, k: nat)
    returns (all': seq<nat>)
    requires Going(q, all, made, deadline, now, log) && k < |made| && AllNew(made)
    ensures Going(Del(q, made[k]), all', made, deadline, now, log)
    ensures forall x :: x in all' <==> x in all && !(x == k && deadline[k] > now)
  {
    hide Del, InOrder, Ordered, Tracks, Drop, Logged;
    QueueNow(q, all, made, deadline, now, log);
    Lengths(q, all, made, deadline, now, log);
    all' := all;
    if Pending(q, made[k]) {
      var j :| 0 <= j < |q| && q[j].timer == made[k];
      assert all[|log| + j] == k by { SameNumber(made, all[|log| + j], k); }
      OneOfEach(q, j);
      DelAt(q, made[k], j);
      RemoveOrdered(q, j);
      DropInOrder(deadline, all, |log| + j);
      DropTracks(q, all, made, deadline, now, log, j);
      all' := Drop(all, |log| + j);
      DropLength(all, |log| + j);
    } else {
      DelAbsent(q, made[k]);
      forall x | x in all ensures !(x == k && deadline[k] > now) {
        var c :| 0 <= c < |all| && all[c] == x;
        if c >= |log| {
          assert q[c - |log|].timer == made[x];
        }
      }
    }
  }

  lemma DropLength(all: seq<nat>, c: nat)
    requires c < |all|
    ensures |Drop(all, c)| == |all| - 1
  {
  }

  lemma SameNumber(made: seq<Timer>, i: nat, j: nat)
    requires AllNew(made) && i < |made| && j < |made| && made[i] == made[j]
    ensures i == j
  {
  }

  ghost function Firings(fired: seq<Timer>, at: nat): seq<Firing> {
    seq(|fired|, i requires 0 <= i < |fired| => Firing(fired[i], at))
  }

  /** A tick: those that are due fire, in order. */
  lemma Ticked(q: Queue, all: seq<nat>, made: seq<Timer>, deadline: seq<nat>, now: nat, log: seq<Firing>)
    requires Going(q, all, made, deadline, now, log)
    ensures Going(Tick(q), all, made, deadline, now + 1, log + Firings(Fired(q), now + 1))
  {
    hide Tick, Fired, InOrder, Ordered;
    QueueNow(q, all, made, deadline, now, log);
    Lengths(q, all, made, deadline, now, log);
    TickOrdered(q);
    var m := TickParts(q);
    var n := |log|;
    var log' := log + Firings(Fired(q), now + 1);
    forall i | 0 <= i < |log'|
        ensures log'[i] == Firing(made[all[i]], deadline[all[i]]) && deadline[all[i]] <= now + 1 {
      if i >= n {
        assert q[i - n].timer == made[all[n + (i - n)]];
      }
    }
    forall i | 0 <= i < |Tick(q)|
        ensures Tick(q)[i] == Entry(made[all[n + m..][i]], deadline[all[n + m..][i]] - (now + 1)) {
      assert q[m + i].timer == made[all[n + (m + i)]];
      assert all[n + m..][i] == all[n + (m + i)];
    }
  }

  // ---------- runs ----------

  /** The ticks in a run. */
  function Now(calls: seq<Call>): nat {
    if calls == [] then 0 else Now(calls[..|calls| - 1]) + if calls[|calls| - 1].Clock? then 1 else 0
  }

  /** The deadlines of the timers in the order of adding. */
  ghost function Due(calls: seq<Call>): seq<nat> {
    if calls == [] then [] else
      var before, last := calls[..|calls| - 1], calls[|calls| - 1];
      if last.Start? && last.ticks > 0 then Due(before) + [Now(before) + last.ticks] else Due(before)
  }

  /** The processes that wait for them. */
  ghost function Whose(calls: seq<Call>): seq<Proc> {
    if calls == [] then [] else
      var before, last := calls[..|calls| - 1], calls[|calls| - 1];
      if last.Start? && last.ticks > 0 then Whose(before) + [last.proc] else Whose(before)
  }

  ghost predicate ForThem(made: seq<Timer>, calls: seq<Call>) {
    |made| == |Whose(calls)| && forall k :: 0 <= k < |made| ==> made[k].proc == Whose(calls)[k]
  }

  /** The timers that were deleted before their deadlines. */
  ghost function Gone(calls: seq<Call>): set<nat> {
    if calls == [] then {} else
      var before, last := calls[..|calls| - 1], calls[|calls| - 1];
      if last.Cancel? && last.k < |Due(before)| && Due(before)[last.k] > Now(before) then Gone(before) + {last.k}
      else Gone(before)
  }

  /** These are the timers that have fired or wait. */
  ghost predicate Those(all: seq<nat>, calls: seq<Call>) {
    forall k :: k in all <==> 0 <= k < |Due(calls)| && k !in Gone(calls)
  }

  /** One more call. */
  lemma Next(calls: seq<Call>, m: nat)
    requires m < |calls|
    ensures var before, last := calls[..m], calls[m];
            && Now(calls[..m + 1]) == Now(before) + (if last.Clock? then 1 else 0)
            && Due(calls[..m + 1]) ==
                 (if last.Start? && last.ticks > 0 then Due(before) + [Now(before) + last.ticks] else Due(before))
            && Whose(calls[..m + 1]) ==
                 (if last.Start? && last.ticks > 0 then Whose(before) + [last.proc] else Whose(before))
            && Gone(calls[..m + 1]) ==
                 if last.Cancel? && last.k < |Due(before)| && Due(before)[last.k] > Now(before)
                 then Gone(before) + {last.k} else Gone(before)
  {
    assert calls[..m + 1][..m] == calls[..m] && calls[..m + 1][m] == calls[m];
  }

  /** The state of the list after the calls. */
  ghost predicate After(l: TimerList, calls: seq<Call>, all: seq<nat>, made: seq<Timer>, now: nat, log: seq<Firing>)
    reads l, l.list
  {
    && l.Valid() && AllNew(made) && Going(l.Queue(), all, made, Due(calls), now, log) && Those(all, calls)
    && now == Now(calls) && ForThem(made, calls) && (forall i :: 0 <= i < |l.list| ==> l.list[i] in made)
  }

  lemma OnlyMade(l: TimerList, q: Queue, all: seq<nat>, made: seq<Timer>, deadline: seq<nat>, now: nat,
                 log: seq<Firing>)
    requires l.Valid() && Going(q, all, made, deadline, now, log) && q == l.Queue()
    ensures forall i :: 0 <= i < |l.list| ==> l.list[i] in made
  {
    hide Ordered, InOrder;
    QueueNow(q, all, made, deadline, now, log);
    Lengths(q, all, made, deadline, now, log);
    forall i | 0 <= i < |l.list| ensures l.list[i] in made {
      assert q[i].timer == l.list[i];
    }
  }

  lemma {:induction false} GoneMade(calls: seq<Call>)
    ensures forall k :: k in Gone(calls) ==> 0 <= k < |Due(calls)|
  {
    if calls != [] { GoneMade(calls[..|calls| - 1]); }
  }

  lemma PutThose(all: seq<nat>, c: nat, calls: seq<Call>, m: nat)
    requires m < |calls| && Those(all, calls[..m]) && c <= |all| && calls[m].Start? && calls[m].ticks > 0
    ensures Those(Put(all, c, |Due(calls[..m])|), calls[..m + 1])
  {
    Next(calls, m);
    GoneMade(calls[..m]);
    var n := |Due(calls[..m])|;
    var r := Put(all, c, n);
    forall k: nat ensures k in r <==> k in all || k == n {
      if k in all {
        var j :| 0 <= j < |all| && all[j] == k;
        assert r[if j < c then j else j + 1] == k;
      }
      assert r[c] == n;
    }
  }

  lemma SizeMade(l: TimerList, calls: seq<Call>, all: seq<nat>, made: seq<Timer>, now: nat, log: seq<Firing>)
    requires After(l, calls, all, made, now, log)
    ensures |made| == |Due(calls)| && l.Valid() && forall t :: Pending(l.Queue(), t) <==> t in l.list
  {
    hide Ordered, InOrder, Tracks, Logged;
    forall t ensures Pending(l.Queue(), t) <==> t in l.list {
      if t in l.list {
        var i :| 0 <= i < |l.list| && l.list[i] == t;
        assert l.Queue()[i].timer == t;
      }
      if Pending(l.Queue(), t) {
        var i :| 0 <= i < |l.Queue()| && l.Queue()[i].timer == t;
        assert l.list[i] == t;
      }
    }
  }

  /** A process starts to wait for a number of ticks. */
  method StartOne(l: TimerList, proc: Proc, ticks: int, made: seq<Timer>, ghost calls: seq<Call>, ghost m: nat,
                  ghost all: seq<nat>, ghost now: nat, ghost log: seq<Firing>)
    returns (t: Timer, ghost all': seq<nat>)
    requires m < |calls| && calls[m] == Start(proc, ticks) && After(l, calls[..m], all, made, now, log) && ticks > 0
    modifies l, l.list
    ensures fresh(t) && After(l, calls[..m + 1], all', made + [t], now, log)
  {
    hide Ordered, InOrder, Going, Those, TimerList.Valid, Due, Whose, Now, Add;
    SizeMade(l, calls[..m], all, made, now, log);
    ghost var q := l.Queue();
    assert allocated(l.list) && allocated(made);
    t := new Timer(proc, ticks);
    assert !Pending(q, t);
    l.AddTimer(t);
    ghost var c := Started(q, all, made, Due(calls[..m]), now, log, t, ticks);
    all' := Put(all, c, |made|);
    PutThose(all, c, calls, m);
    Next(calls, m);
    OnlyMade(l, l.Queue(), all', made + [t], Due(calls[..m + 1]), now, log);
  }

  lemma CancelThose(all: seq<nat>, all': seq<nat>, calls: seq<Call>, m: nat)
    requires m < |calls| && Those(all, calls[..m]) && calls[m].Cancel? && calls[m].k < |Due(calls[..m])|
    requires var k, d := calls[m].k, Due(calls[..m]);
             forall x :: x in all' <==> x in all && !(x == k && d[k] > Now(calls[..m]))
    ensures Those(all', calls[..m + 1])
  {
    hide Now, Due, Whose, Gone;
    Next(calls, m);
  }

  /** The k-th timer is deleted. */
  method CancelOne(l: TimerList, k: nat, made: seq<Timer>, ghost calls: seq<Call>, ghost m: nat, ghost all: seq<nat>,
                   ghost now: nat, ghost log: seq<Firing>)
    returns (ghost all': seq<nat>)
    requires m < |calls| && calls[m] == Cancel(k) && After(l, calls[..m], all, made, now, log) && k < |made|
    modifies l, l.list
    ensures After(l, calls[..m + 1], all', made, now, log)
  {
    hide Ordered, InOrder, Going, Those, TimerList.Valid, Due, Whose, Now, Gone, Del;
    SizeMade(l, calls[..m], all, made, now, log);
    ghost var q := l.Queue();
    all' := Cancelled(q, all, made, Due(calls[..m]), now, log, k);
    CancelThose(all, all', calls, m);
    Next(calls, m);
    l.DelTimer(made[k]);
    OnlyMade(l, l.Queue(), all', made, Due(calls[..m + 1]), now, log);
  }

  lemma ClockThose(all: seq<nat>, calls: seq<Call>, m: nat)
    requires m < |calls| && Those(all, calls[..m])
    requires calls[m].Clock? || (calls[m].Start? && calls[m].ticks <= 0)
             || (calls[m].Cancel? && calls[m].k >= |Due(calls[..m])|)
    ensures Those(all, calls[..m + 1]) && Due(calls[..m + 1]) == Due(calls[..m])
  {
    hide Now, Due, Whose, Gone;
    Next(calls, m);
  }

  /** A tick. */
  method ClockOne(l: TimerList, made: seq<Timer>, ghost calls: seq<Call>, ghost m: nat, ghost all: seq<nat>, now: nat,
                  log: seq<Firing>)
    returns (log': seq<Firing>)
    requires m < |calls| && calls[m].Clock? && After(l, calls[..m], all, made, now, log)
    modifies l, l.list
    ensures After(l, calls[..m + 1], all, made, now + 1, log')
  {
    hide Ordered, InOrder, Going, Those, TimerList.Valid, Due, Whose, Now, Gone, Tick, Fired;
    SizeMade(l, calls[..m], all, made, now, log);
    ghost var q := l.Queue();
    Ticked(q, all, made, Due(calls[..m]), now, log);
    ClockThose(all, calls, m);
    Next(calls, m);
    var fired := l.RunTick();
    log' := log + seq(|fired|, i requires 0 <= i < |fired| => Firing(fired[i], now + 1));
    assert log' == log + Firings(fired, now + 1);
    OnlyMade(l, l.Queue(), all, made, Due(calls[..m + 1]), now + 1, log');
  }

  /** A call that changes nothing: a timer without ticks fails an assertion, and one that was never made cannot be
      deleted. */
  lemma Passed(l: TimerList, calls: seq<Call>, m: nat, all: seq<nat>, made: seq<Timer>, now: nat, log: seq<Firing>)
    requires m < |calls| && After(l, calls[..m], all, made, now, log)
    requires (calls[m].Start? && calls[m].ticks <= 0) || (calls[m].Cancel? && calls[m].k >= |made|)
    ensures After(l, calls[..m + 1], all, made, now, log)
  {
    hide Ordered, InOrder, Going, Those, TimerList.Valid, Due, Whose, Now, Gone;
    SizeMade(l, calls[..m], all, made, now, log);
    ClockThose(all, calls, m);
    Next(calls, m);
  }

  /** Exactly the timers whose deadlines have come and that were not deleted before have fired, each at its deadline and
      for the process that asked for it, in the order of deadlines and for equal deadlines in the order of adding. */
  ghost predicate OnTimeInOrder(log: seq<Firing>, order: seq<nat>, made: seq<Timer>, calls: seq<Call>) {
    var due := Due(calls);
    && |made| == |due| && InOrder(due, order) && |log| == |order|
    && (forall k :: k in order <==> 0 <= k < |due| && k !in Gone(calls) && due[k] <= Now(calls))
    && |Whose(calls)| == |due|
    && forall i :: 0 <= i < |log| ==>
      && order[i] < |due| && log[i] == Firing(made[order[i]], due[order[i]])
      && log[i].timer.proc == Whose(calls)[order[i]]
  }

  lemma AllOnTime(l: TimerList, calls: seq<Call>, all: seq<nat>, made: seq<Timer>, now: nat, log: seq<Firing>)
    requires After(l, calls, all, made, now, log)
    ensures |log| <= |all| && OnTimeInOrder(log, all[..|log|], made, calls)
  {
    hide Ordered, Due, Whose, Now, Gone, TimerList.Valid;
    var due := Due(calls);
    QueueNow(l.Queue(), all, made, due, now, log);
    var order := all[..|log|];
    forall k | 0 <= k < |due| && k !in Gone(calls) && due[k] <= now ensures k in order {
      assert k in all;
      var i :| 0 <= i < |all| && all[i] == k;
      assert order[i] == k;
    }
    forall k | k in order ensures 0 <= k < |due| && k !in Gone(calls) && due[k] <= now {
      var i :| 0 <= i < |order| && order[i] == k;
      assert all[i] == k && k in all;
    }
  }

  /** Whatever is called, timers fire on time and in order. */
  method Serve(calls: seq<Call>) returns (l: TimerList, made: seq<Timer>, log: seq<Firing>, ghost order: seq<nat>)
    ensures l.Valid() && OnTimeInOrder(log, order, made, calls)
  {
    hide Ordered, InOrder, Going, Those, TimerList.Valid, Due, Whose, Now, Gone, OnTimeInOrder;
    l := new TimerList();
    made, log := [], [];
    ghost var all: seq<nat> := [];
    var now := 0;
    Begins(l, calls);
    for m := 0 to |calls|
      invariant After(l, calls[..m], all, made, now, log) && fresh(l) && forall i :: 0 <= i < |made| ==> fresh(made[i])
    {
      match calls[m]
      case Start(proc, ticks) =>
        if ticks > 0 {
          var t;
          t, all := StartOne(l, proc, ticks, made, calls, m, all, now, log);
          made := made + [t];
        } else {
          Passed(l, calls, m, all, made, now, log);
        }
      case Cancel(k) =>
        if k < |made| {
          all := CancelOne(l, k, made, calls, m, all, now, log);
        } else {
          Passed(l, calls, m, all, made, now, log);
        }
      case Clock =>
        log := ClockOne(l, made, calls, m, all, now, log);
        now := now + 1;
    }
    assert calls[..|calls|] == calls;
    AllOnTime(l, calls, all, made, now, log);
    order := all[..|log|];
  }

  lemma Begins(l: TimerList, calls: seq<Call>)
    requires l.Valid() && l.Queue() == []
    ensures After(l, calls[..0], [], [], 0, [])
  {
    hide TimerList.Valid, Ordered;
    assert calls[..0] == [];
    Nothing();
    NoCalls();
    Empty(l);
  }

  lemma Nothing()
    ensures Ordered([]) && Going([], [], [], [], 0, [])
  {
  }

  lemma NoCalls()
    ensures Now([]) == 0 && Due([]) == [] && Whose([]) == [] && Gone([]) == {}
  {
  }

  lemma Empty(l: TimerList)
    requires l.Valid() && l.Queue() == []
    ensures l.list == []
  {
    assert |l.Queue()| == |l.list|;
  }
}
