/** Sums of natural numbers. */
module Sums {
  ghost function Sum(r: seq<nat>): nat {
    if r == [] then 0 else r[0] + Sum(r[1..])
  }

  lemma {:induction false} SumBound(r: seq<nat>, most: nat)
    requires forall k :: 0 <= k < |r| ==> r[k] <= most
    ensures Sum(r) <= most * |r|
  {
    if r != [] {
      SumBound(r[1..], most);
      assert most * |r| == most * |r[1..]| + most;
    }
  }

  /** A sequence that is nowhere greater, and less at i if there is such a place. */
  lemma {:induction false} SumLess(r: seq<nat>, q: seq<nat>, i: nat)
    requires |q| == |r| && (i < |r| ==> q[i] < r[i])
    requires forall k :: 0 <= k < |r| ==> q[k] <= r[k]
    ensures Sum(q) <= Sum(r) - if i < |r| then 1 else 0
  {
    if r != [] {
      SumLess(r[1..], q[1..], if i == 0 then |r| else i - 1);
    }
  }
}

/** The semaphore philosophers get somewhere: as long as no new meal is begun every step brings the end nearer, and
    whoever is hungry eats. */
module SemaphoreMeals {
  import opened Semaphores
  import opened Sums
  import opened Table
  import opened P = SemaphorePhilosophers

  /** How far a philosopher is from thinking again. */
  ghost function Rank(pc: PC): nat {
    match pc
    case TakeDown => 20
    case TakeAsleep => 19
    case TakeSet => 18
    case TakeTest => 17
    case TakeGrant => 16
    case TakeUp => 15
    case TakeRelease => 14
    case WaitDown => 13
    case WaitAsleep => 12
    case Eats => 11
    case PutDown => 10
    case PutAsleep => 9
    case PutSet => 8
    case PutTest(side) => if side == L then 7 else 4
    case PutGrant(side) => if side == L then 6 else 3
    case PutUp(side) => if side == L then 5 else 2
    case PutRelease => 1
    case Thinks => 0
  }

  ghost function Ranks(c: State): seq<nat> {
    seq(|c.pc|, k requires 0 <= k < |c.pc| => Rank(c.pc[k]))
  }

  lemma Within(c: State)
    ensures Sum(Ranks(c)) <= 20 * |c.pc|
  {
    SumBound(Ranks(c), 20);
  }

  /** What an up of s does to a philosopher: nothing, or it wakes. */
  lemma WakeAt(pc: seq<PC>, s: Sem, k: nat)
    requires k < |pc|
    ensures |Wake(pc, s)| == |pc|
    ensures Wake(pc, s)[k] == if s.queue != [] && s.queue[0] == k then Woken(pc[k]) else pc[k]
  {
  }

  lemma WokenNearer(pc: PC)
    ensures Rank(Woken(pc)) <= Rank(pc) && (Rank(pc) > 11 ==> Rank(Woken(pc)) >= 11)
  {
  }

  /** Nobody who is awake is in a queue. */
  lemma NotQueued(c: State, free: bool, h: nat, i: nat, j: nat)
    requires SInv(c, free, h) && CanStep(c, i) && j < |c.st|
    ensures i !in c.mutex.queue && i !in c.s[j].queue
  {
    assert Local(c, free, h, j) && Local(c, free, h, i);
  }

  /** What a step does to philosopher k: its own takes it on, another's wakes it or leaves it where it is. */
  ghost predicate Forward(p: PC, q: PC, own: bool) {
    && (if !own then Rank(q) <= Rank(p) else if p == Thinks then Rank(q) == 20 else Rank(q) < Rank(p))
    && (Rank(p) > 11 ==> Rank(q) >= 11)
  }

  lemma UpForward(c: State, i: nat, s: Sem, x: PC, k: nat)
    requires i < |c.pc| && k < |c.pc| && i !in s.queue && Forward(c.pc[i], x, true)
    ensures |Wake(c.pc[i := x], s)| == |c.pc| && Forward(c.pc[k], Wake(c.pc[i := x], s)[k], k == i)
  {
    WakeAt(c.pc[i := x], s, k);
    WokenNearer(c.pc[k]);
  }

  lemma OwnForward(c: State, i: nat)
    requires CanStep(c, i) && !c.pc[i].TakeUp? && !c.pc[i].PutUp? && !c.pc[i].TakeRelease? && !c.pc[i].PutRelease?
    ensures |Step(c, i).pc| == |c.pc| && Forward(c.pc[i], Step(c, i).pc[i], true)
    ensures Step(c, i).pc == c.pc[i := Step(c, i).pc[i]]
  {
    hide MayEat;
  }

  lemma StepForward(c: State, free: bool, h: nat, i: nat, k: nat)
    requires SInv(c, free, h) && CanStep(c, i) && k < |c.pc|
    ensures |Step(c, i).pc| == |c.pc| && Forward(c.pc[k], Step(c, i).pc[k], k == i)
  {
    hide Wake, SInv, MayEat;
    var pc := c.pc[i];
    if pc == TakeRelease || pc == PutRelease {
      NotQueued(c, free, h, i, i);
      UpForward(c, i, c.mutex, if pc == TakeRelease then WaitDown else Thinks, k);
    } else if pc == TakeUp || pc.PutUp? {
      var j := if pc == TakeUp then i else Beside(i, pc.side, |c.st|);
      NotQueued(c, free, h, i, j);
      UpForward(c, i, c.s[j], if pc == TakeUp then TakeRelease else AfterTest(pc.side), k);
    } else {
      OwnForward(c, i);
    }
  }

  // ---------- runs that begin no meal ----------

  /** A run in which nobody who is thinking takes a step. */
  ghost predicate Winding(c: State, who: seq<nat>, c': State)
    decreases |who|
  {
    if who == [] then c' == c
    else CanStep(c, who[0]) && c.pc[who[0]] != Thinks && Winding(Step(c, who[0]), who[1..], c')
  }

  lemma {:induction false} WindingIsRun(c: State, who: seq<nat>, c': State)
    requires Winding(c, who, c')
    ensures P.Run(c, who, c')
    decreases |who|
  {
    hide Step;
    if who != [] {
      WindingIsRun(Step(c, who[0]), who[1..], c');
    }
  }

  lemma StepShortens(c: State, free: bool, h: nat, i: nat)
    requires SInv(c, free, h) && CanStep(c, i) && c.pc[i] != Thinks
    ensures Sum(Ranks(Step(c, i))) < Sum(Ranks(c))
  {
    hide SInv, Step, Rank, Sum;
    StepForward(c, free, h, i, i);
    forall k: nat | k < |c.pc| ensures Rank(Step(c, i).pc[k]) <= Rank(c.pc[k]) {
      StepForward(c, free, h, i, k);
    }
    SumLess(Ranks(c), Ranks(Step(c, i)), i);
  }

  /** Every step of such a run uses up some of the work, so it comes to an end. */
  lemma {:induction false} WindingEnds(c: State, free: bool, h: nat, who: seq<nat>, c': State)
    returns (free': bool, h': nat)
    requires SInv(c, free, h) && Winding(c, who, c')
    ensures SInv(c', free', h') && |c'.pc| == |c.pc|
    ensures Sum(Ranks(c')) + |who| <= Sum(Ranks(c))
    decreases |who|
  {
    hide SInv, Step, Rank, Sum;
    free', h' := free, h;
    if who != [] {
      StepShortens(c, free, h, who[0]);
      free', h' := StepSInv(c, free, h, who[0]);
      StepForward(c, free, h, who[0], who[0]);
      free', h' := WindingEnds(Step(c, who[0]), free', h', who[1..], c');
    }
  }

  ghost predicate AllThink(c: State) {
    forall k :: 0 <= k < |c.pc| ==> c.pc[k] == Thinks
  }

  /** And it can always go on until everybody is thinking. */
  lemma {:induction false} Unwind(c: State, free: bool, h: nat) returns (who: seq<nat>, c': State)
    requires SInv(c, free, h)
    ensures Winding(c, who, c') && AllThink(c')
    decreases Sum(Ranks(c))
  {
    hide SInv, Step, Rank, Sum;
    if AllThink(c) {
      who, c' := [], c;
    } else {
      var j: nat :| j < |c.pc| && c.pc[j] != Thinks;
      assert |c.st| == |c.pc| by { Sizes(c, free, h); }
      var i := SomeoneAwake(c, free, h, j);
      StepShortens(c, free, h, i);
      var free', h' := StepSInv(c, free, h, i);
      who, c' := Unwind(Step(c, i), free', h');
      who := [i] + who;
    }
  }

  lemma Sizes(c: State, free: bool, h: nat)
    requires SInv(c, free, h)
    ensures |c.st| == |c.pc|
  {
  }

  /** Nobody gets from hungry to putting the forks back without a meal. */
  lemma {:induction false} PassesTheMeal(c: State, free: bool, h: nat, who: seq<nat>, c': State, i: nat)
    returns (k: nat, mid: State)
    requires SInv(c, free, h) && Winding(c, who, c') && i < |c.pc|
    requires Rank(c.pc[i]) >= 11 && AllThink(c')
    ensures k <= |who| && Winding(c, who[..k], mid) && i < |mid.pc| && mid.pc[i] == Eats
    decreases |who|
  {
    hide SInv, Step;
    if c.pc[i] == Eats {
      k, mid := 0, c;
    } else {
      StepForward(c, free, h, who[0], i);
      var free', h' := StepSInv(c, free, h, who[0]);
      k, mid := PassesTheMeal(Step(c, who[0]), free', h', who[1..], c', i);
      assert who[..k + 1][1..] == who[1..][..k];
      k := k + 1;
    }
  }

  // ---------- what every philosopher can count on ----------

  lemma {:induction false} RunsJoin(a: State, first: seq<nat>, b: State, second: seq<nat>, c: State)
    requires P.Run(a, first, b) && P.Run(b, second, c)
    ensures P.Run(a, first + second, c)
    decreases |first|
  {
    hide Step;
    if first == [] {
      assert first + second == second;
    } else {
      RunsJoin(Step(a, first[0]), first[1..], b, second, c);
      assert (first + second)[1..] == first[1..] + second;
    }
  }

  /** After every run, the meals that have been begun are over within 20 steps a philosopher, whoever takes them; and
      as long as one is not over somebody who has begun one can take a step. */
  lemma MealsEnd(n: nat, who: seq<nat>, c: State, more: seq<nat>, c': State)
    requires n >= 2 && P.Run(Init(n), who, c) && Winding(c, more, c')
    ensures |more| <= 20 * n
    ensures AllThink(c') || exists i: nat :: CanStep(c', i) && c'.pc[i] != Thinks
  {
    hide SInv, Step, Rank, Sum;
    InitSInv(n);
    var free, h := RunSInv(Init(n), true, 0, who, c);
    Sizes(c, free, h);
    Within(c);
    free, h := WindingEnds(c, free, h, more, c');
    if !AllThink(c') {
      var j: nat :| j < |c'.pc| && c'.pc[j] != Thinks;
      Sizes(c', free, h);
      var i := SomeoneAwake(c', free, h, j);
    }
  }

  /** From every state that a run reaches, the run can go on until everybody is thinking. */
  lemma CanReturn(n: nat, who: seq<nat>, c: State) returns (more: seq<nat>, c': State)
    requires n >= 2 && P.Run(Init(n), who, c)
    ensures Winding(c, more, c') && AllThink(c') && P.Run(Init(n), who + more, c')
  {
    InitSInv(n);
    var free, h := RunSInv(Init(n), true, 0, who, c);
    more, c' := Unwind(c, free, h);
    WindingIsRun(c, more, c');
    RunsJoin(Init(n), who, c, more, c');
  }

  /** Whoever is on the way to a meal gets it without anybody else beginning one. */
  lemma HungryEats(c: State, free: bool, h: nat, i: nat) returns (more: seq<nat>, c': State)
    requires SInv(c, free, h) && i < |c.pc| && Rank(c.pc[i]) >= 11
    ensures Winding(c, more, c') && i < |c'.pc| && c'.pc[i] == Eats
  {
    hide SInv, Step, Rank;
    var all, end := Unwind(c, free, h);
    var k;
    k, c' := PassesTheMeal(c, free, h, all, end, i);
    more := all[..k];
  }

  /** Within phi_take_forks_sema. */
  predicate Asked(pc: PC) {
    || pc == TakeDown || pc == TakeAsleep || pc == TakeSet || pc == TakeTest || pc == TakeGrant || pc == TakeUp
    || pc == TakeRelease || pc == WaitDown || pc == WaitAsleep
  }

  lemma EatAgain(c: State, free: bool, h: nat, i: nat) returns (more: seq<nat>, c': State)
    requires SInv(c, free, h) && i < |c.pc|
    ensures P.Run(c, more, c') && i < |c'.pc| && c'.pc[i] == Eats
  {
    hide SInv, Rank, P.Run;
    var back, end := Unwind(c, free, h);
    WindingIsRun(c, back, end);
    var free', h' := WindingEnds(c, free, h, back, end);
    Sizes(end, free', h');
    AllThinkAwake(end, free', h', i);
    var next := Step(end, i);
    StepForward(end, free', h', i, i);
    free', h' := StepSInv(end, free', h', i);
    var on;
    on, c' := HungryEats(next, free', h', i);
    WindingIsRun(next, on, c');
    OneStep(end, i, on, c');
    RunsJoin(c, back, end, [i] + on, c');
    more := back + ([i] + on);
  }

  lemma AllThinkAwake(c: State, free: bool, h: nat, i: nat)
    requires SInv(c, free, h) && AllThink(c) && i < |c.pc|
    ensures CanStep(c, i)
  {
  }

  lemma OneStep(c: State, i: nat, more: seq<nat>, c': State)
    requires CanStep(c, i) && P.Run(Step(c, i), more, c')
    ensures P.Run(c, [i] + more, c')
  {
    hide Step;
    assert ([i] + more)[1..] == more;
  }

  /** From every state that a run reaches, every philosopher can still come to eat; one that has called
      phi_take_forks_sema and not yet returned from it does so although nobody begins a new meal. */
  lemma CanEat(n: nat, who: seq<nat>, c: State, i: nat) returns (more: seq<nat>, c': State)
    requires n >= 2 && P.Run(Init(n), who, c) && i < n
    ensures P.Run(c, more, c') && |c'.pc| > i && |c.pc| == n && c'.pc[i] == Eats
    ensures Asked(c.pc[i]) ==> Winding(c, more, c')
  {
    hide SInv, Step, P.Run;
    InitSInv(n);
    var free, h := RunSInv(Init(n), true, 0, who, c);
    Sizes(c, free, h);
    if Asked(c.pc[i]) {
      more, c' := HungryEats(c, free, h, i);
      WindingIsRun(c, more, c');
    } else {
      more, c' := EatAgain(c, free, h, i);
    }
  }

  // ---------- what nobody can count on ----------

  /** The steps that i takes alone, one after the other. */
  lemma {:induction false} Alone(i: nat, cs: seq<State>)
    requires cs != [] && forall k :: 0 <= k < |cs| - 1 ==> CanStep(cs[k], i) && cs[k + 1] == Step(cs[k], i)
    ensures P.Run(cs[0], seq(|cs| - 1, k => i), cs[|cs| - 1])
    decreases |cs|
  {
    hide Step;
    var who := seq(|cs| - 1, k => i);
    if |cs| > 1 {
      var rest := cs[1..];
      forall k | 0 <= k < |rest| - 1 ensures CanStep(rest[k], i) && rest[k + 1] == Step(rest[k], i) {
        assert rest[k] == cs[k + 1] && rest[k + 1] == cs[k + 1 + 1];
      }
      Alone(i, rest);
      assert who[1..] == seq(|rest| - 1, k => i);
    }
  }

  /** i is the only one at the mutex and at its own semaphore. */
  ghost predicate Undisturbed(c: State, i: nat, mutex: int, grant: int, pc: PC) {
    WellFormed(c) && i < |c.st| && c.mutex == Sem(mutex, []) && c.s[i] == Sem(grant, []) && c.pc[i] == pc
  }

  lemma AskAlone(c: State, i: nat)
    requires Undisturbed(c, i, 1, 0, Thinks)
    ensures P.Run(c, seq(3, k => i), c.(mutex := Sem(0, []), st := c.st[i := Hungry], pc := c.pc[i := TakeTest]))
  {
    hide P.Run;
    var c1 := Step(c, i);
    var c2 := Step(c1, i);
    var c3 := Step(c2, i);
    assert c3.pc == c.pc[i := TakeTest];
    Alone(i, [c, c1, c2, c3]);
  }

  lemma GrantAlone(c: State, i: nat)
    requires Undisturbed(c, i, 0, 0, TakeTest) && MayEat(c.st, i)
    ensures P.Run(c, seq(3, k => i),
                  c.(s := c.s[i := Sem(1, [])], st := c.st[i := Eating], pc := c.pc[i := TakeRelease]))
  {
    hide P.Run;
    var c1 := Step(c, i);
    var c2 := Step(c1, i);
    var c3 := Step(c2, i);
    assert c3.pc == c.pc[i := TakeRelease];
    Alone(i, [c, c1, c2, c3]);
  }

  lemma PassAlone(c: State, i: nat)
    requires Undisturbed(c, i, 0, 1, TakeRelease)
    ensures P.Run(c, seq(2, k => i),
                  c.(mutex := Sem(1, []), s := c.s[i := Sem(0, [])], pc := c.pc[i := Eats]))
  {
    hide P.Run;
    var c1 := Step(c, i);
    var c2 := Step(c1, i);
    assert c2.pc == c.pc[i := Eats];
    Alone(i, [c, c1, c2]);
  }

  lemma SleepAlone(c: State, i: nat)
    requires Undisturbed(c, i, 0, 0, TakeTest) && !MayEat(c.st, i)
    ensures P.Run(c, seq(3, k => i),
                  c.(mutex := Sem(1, []), s := c.s[i := Sem(0, [i])], pc := c.pc[i := WaitAsleep]))
  {
    hide P.Run;
    var c1 := Step(c, i);
    var c2 := Step(c1, i);
    var c3 := Step(c2, i);
    assert c3.pc == c.pc[i := WaitAsleep] && c3.s[i].queue == [i];
    Alone(i, [c, c1, c2, c3]);
  }

  lemma PutAlone(c: State, i: nat)
    requires Undisturbed(c, i, 1, 0, Eats)
    ensures P.Run(c, seq(3, k => i), c.(mutex := Sem(0, []), st := c.st[i := Thinking], pc := c.pc[i := PutTest(L)]))
  {
    hide P.Run;
    var c1 := Step(c, i);
    var c2 := Step(c1, i);
    var c3 := Step(c2, i);
    assert c3.pc == c.pc[i := PutTest(L)];
    Alone(i, [c, c1, c2, c3]);
  }

  lemma LookAlone(c: State, i: nat)
    requires Undisturbed(c, i, 0, 0, PutTest(L))
    requires !MayEat(c.st, Left(i, |c.st|)) && !MayEat(c.st, Right(i, |c.st|))
    ensures P.Run(c, seq(3, k => i), c.(mutex := Sem(1, []), pc := c.pc[i := Thinks]))
  {
    hide P.Run, MayEat;
    var c1 := Step(c, i);
    var c2 := Step(c1, i);
    var c3 := Step(c2, i);
    assert c3.pc == c.pc[i := Thinks];
    Alone(i, [c, c1, c2, c3]);
  }

  /** i takes the forks, by itself. */
  lemma TakeAlone(c: State, i: nat)
    requires Undisturbed(c, i, 1, 0, Thinks) && MayEat(c.st[i := Hungry], i)
    ensures P.Run(c, seq(8, k => i), c.(st := c.st[i := Eating], pc := c.pc[i := Eats]))
  {
    hide P.Run, MayEat;
    AskAlone(c, i);
    var c1 := c.(mutex := Sem(0, []), st := c.st[i := Hungry], pc := c.pc[i := TakeTest]);
    GrantAlone(c1, i);
    var c2 := c1.(s := c1.s[i := Sem(1, [])], st := c1.st[i := Eating], pc := c1.pc[i := TakeRelease]);
    PassAlone(c2, i);
    var c3 := c2.(mutex := Sem(1, []), s := c2.s[i := Sem(0, [])], pc := c2.pc[i := Eats]);
    assert c3 == c.(st := c.st[i := Eating], pc := c.pc[i := Eats]);
    RunsJoin(c1, seq(3, k => i), c2, seq(2, k => i), c3);
    RunsJoin(c, seq(3, k => i), c1, seq(3, k => i) + seq(2, k => i), c3);
    assert seq(8, k => i) == seq(3, k => i) + (seq(3, k => i) + seq(2, k => i));
  }

  /** i puts the forks back and takes them again, by itself, while neither neighbour may eat. */
  lemma EatAlone(c: State, i: nat)
    requires Undisturbed(c, i, 1, 0, Eats) && c.st[i] == Eating && MayEat(c.st[i := Hungry], i)
    requires !MayEat(c.st[i := Thinking], Left(i, |c.st|)) && !MayEat(c.st[i := Thinking], Right(i, |c.st|))
    ensures P.Run(c, seq(14, k => i), c)
  {
    hide P.Run, MayEat;
    PutAlone(c, i);
    var c1 := c.(mutex := Sem(0, []), st := c.st[i := Thinking], pc := c.pc[i := PutTest(L)]);
    LookAlone(c1, i);
    var c2 := c1.(mutex := Sem(1, []), pc := c1.pc[i := Thinks]);
    assert c2.st[i := Hungry] == c.st[i := Hungry];
    TakeAlone(c2, i);
    assert c == c2.(st := c2.st[i := Eating], pc := c2.pc[i := Eats]);
    RunsJoin(c1, seq(3, k => i), c2, seq(8, k => i), c);
    RunsJoin(c, seq(3, k => i), c1, seq(3, k => i) + seq(8, k => i), c);
    assert seq(14, k => i) == seq(3, k => i) + (seq(3, k => i) + seq(8, k => i));
  }

  /** Philosopher 1 of five waits, between two that eat. */
  ghost function Between(): State {
    Init(5).(s := Init(5).s[1 := Sem(0, [1])], st := [Eating, Hungry, Eating, Thinking, Thinking],
      pc := [Eats, WaitAsleep, Eats, Thinks, Thinks])
  }

  /** There is no more to be had: a philosopher can wait for ever. The run below leads to a state in which 1 waits and 0
      and 2 eat, and from there back to that state, with a new meal of 0 and of 2 and no step of 1. */
  lemma CanStarve() returns (who: seq<nat>, again: seq<nat>)
    ensures P.Run(Init(5), who, Between()) && P.Run(Between(), again, Between())
    ensures 1 !in again && 0 in again && 2 in again
  {
    who := ComesBetween();
    again := seq(14, k => 0) + seq(14, k => 2);
    assert again[0] == 0 && again[14] == 2;
    StaysBetween();
  }

  lemma ComesBetween() returns (who: seq<nat>)
    ensures P.Run(Init(5), who, Between())
  {
    hide P.Run;
    var c := Init(5);
    TakeAlone(c, 0);
    var c1 := c.(st := c.st[0 := Eating], pc := c.pc[0 := Eats]);
    TakeAlone(c1, 2);
    var c2 := c1.(st := c1.st[2 := Eating], pc := c1.pc[2 := Eats]);
    AskAlone(c2, 1);
    var c3 := c2.(mutex := Sem(0, []), st := c2.st[1 := Hungry], pc := c2.pc[1 := TakeTest]);
    SleepAlone(c3, 1);
    var c4 := c3.(mutex := Sem(1, []), s := c3.s[1 := Sem(0, [1])], pc := c3.pc[1 := WaitAsleep]);
    assert c4 == Between();
    RunsJoin(c2, seq(3, k => 1), c3, seq(3, k => 1), c4);
    RunsJoin(c1, seq(8, k => 2), c2, seq(3, k => 1) + seq(3, k => 1), c4);
    who := seq(8, k => 0) + (seq(8, k => 2) + (seq(3, k => 1) + seq(3, k => 1)));
    RunsJoin(c, seq(8, k => 0), c1, seq(8, k => 2) + (seq(3, k => 1) + seq(3, k => 1)), c4);
  }

  lemma StaysBetween()
    ensures P.Run(Between(), seq(14, k => 0) + seq(14, k => 2), Between())
  {
    hide P.Run;
    EatAlone(Between(), 0);
    EatAlone(Between(), 2);
    RunsJoin(Between(), seq(14, k => 0), Between(), seq(14, k => 2), Between());
  }
}

/** So do the philosophers of the monitor. */
module CondvarMeals {
  import opened Semaphores
  import opened Monitor
  import opened Sums
  import opened Table
  import opened P = CondvarPhilosophers

  /** How far a philosopher is from thinking again, by its place in the routine and in the monitor. */
  ghost function Rank(ctl: Ctl, pc: PC): nat {
    match ctl
    case Thinks => 0
    case TakeIn => if pc.Entering? then 31 else if pc.EnterAsleep? then 30 else 29
    case TakeTest => 28
    case TakeGrant => 27
    case TakeSignal => 26
    case TakeDecide => 25
    case TakeWaiting => if pc.WaitUp? then 24 else if pc.WaitDown? then 23 else if pc.WaitAsleep? then 22 else 21
    case TakeLeave => 20
    case Eats => 19
    case PutIn => if pc.Entering? then 18 else if pc.EnterAsleep? then 17 else 16
    case PutTest(side) => SideRank(side) + 7
    case PutGrant(side) => SideRank(side) + 6
    case PutSignal(side) => SideRank(side) + 5
    case PutSignalling(side) => SideRank(side) +
      (if pc.SignalUp? then 4 else if pc.SignalDown? then 3 else if pc.SignalAsleep? then 2 else 1)
    case PutLeave => 1
    case TakeSignalling => 25
  }

  ghost function SideRank(side: Side): nat {
    if side == L then 8 else 1
  }

  ghost function Ranks(s: State): seq<nat>
    requires WellFormed(s)
  {
    seq(|s.st|, k requires 0 <= k < |s.st| => Rank(s.ctl[k], s.m.pc[k]))
  }

  /** What a step does to a philosopher: its own takes it on, another's wakes it or leaves it where it is; and
      nobody passes by the meal. */
  ghost predicate Forward(p: nat, q: nat, own: bool) {
    && (if !own then q <= p else if p == 0 then q == 31 else q < p)
    && (p > 19 ==> q >= 19)
  }

  lemma WokenForward(ctl: Ctl, pc: PC, i: nat, n: nat)
    requires i < n && Fits(ctl, pc, i, n)
    ensures Forward(Rank(ctl, pc), Rank(ctl, Woken(pc)), false)
  {
  }

  ghost predicate Calls(ctl: Ctl) {
    ctl == TakeSignal || ctl == TakeDecide || ctl == TakeLeave || ctl.PutSignal? || ctl == PutLeave
  }

  /** A step by i of the routine that leaves the monitor alone. */
  lemma DataForward(s: State, i: nat)
    requires CanStep(s, i) && s.m.pc[i] == Inside && !Calls(s.ctl[i]) && Fits(s.ctl[i], Inside, i, |s.st|)
    ensures Act(s, i).m == s.m && |Act(s, i).ctl| == |s.ctl|
    ensures Forward(Rank(s.ctl[i], Inside), Rank(Act(s, i).ctl[i], Inside), true)
  {
    hide MayEat;
  }

  /** A step by i of the routine that is the beginning of a call into the monitor. */
  lemma CallForward(s: State, t: Token, i: nat)
    requires PInv(s, t) && CanStep(s, i) && s.m.pc[i] == Inside && Calls(s.ctl[i])
    ensures WellFormed(Act(s, i)) && |Act(s, i).st| == |s.st|
    ensures Forward(Rank(s.ctl[i], s.m.pc[i]), Rank(Act(s, i).ctl[i], Act(s, i).m.pc[i]), true)
  {
    hide MayEat, Remembered, Local, Polite, Counts, Aimed;
    if s.ctl[i] == TakeLeave || s.ctl[i] == PutLeave {
      OwnCounter(s.m, t, i, Leave);
      hide Inv, Next;
    }
  }

  /** A step by i within a call into the monitor, or out of its own business into one. */
  lemma OpForward(s: State, t: Token, i: nat)
    requires PInv(s, t) && CanStep(s, i) && s.m.pc[i] != Inside
    ensures WellFormed(Step(s, i)) && |Step(s, i).st| == |s.st|
    ensures Forward(Rank(s.ctl[i], s.m.pc[i]), Rank(Step(s, i).ctl[i], Step(s, i).m.pc[i]), true)
  {
    hide MayEat, Remembered, Polite, Counts, Aimed, MoodFits;
    assert Local(s, i);
    if s.m.pc[i].SignalUp? || s.m.pc[i].WaitUp? {
      OwnCounter(s.m, t, i, MonitorOp(s.m.pc[i]));
      hide Inv, Next;
    }
  }

  lemma OtherForward(s: State, t: Token, i: nat, k: nat)
    requires PInv(s, t) && CanStep(s, i) && k < |s.st| && k != i && WellFormed(Step(s, i))
    ensures Step(s, i).ctl[k] == s.ctl[k]
    ensures Step(s, i).m.pc[k] == s.m.pc[k] || Step(s, i).m.pc[k] == Woken(s.m.pc[k])
  {
    hide MayEat, Inv, Next, Remembered, Polite, MoodFits;
    var n, pc, ctl := |s.st|, s.m.pc[i], s.ctl[i];
    if pc != Inside {
      OnlyWakes(s.m, t, i, MonitorOp(pc), k);
    } else if ctl == TakeLeave || ctl == PutLeave {
      OnlyWakes(s.m, t, i, Leave, k);
    } else if ctl == TakeSignal {
      OnlyWakes(s.m, t, i, Signal(i), k);
    } else if ctl == TakeDecide && s.st[i] != Eating {
      OnlyWakes(s.m, t, i, Wait(i), k);
    } else if ctl.PutSignal? {
      OnlyWakes(s.m, t, i, Signal(Beside(i, ctl.side, n)), k);
    }
  }

  lemma StepForward(s: State, t: Token, i: nat, k: nat)
    requires PInv(s, t) && CanStep(s, i) && k < |s.st|
    ensures WellFormed(Step(s, i)) && |Step(s, i).st| == |s.st|
    ensures Forward(Rank(s.ctl[k], s.m.pc[k]), Rank(Step(s, i).ctl[k], Step(s, i).m.pc[k]), k == i)
  {
    hide MayEat, Inv, Next, Remembered, Polite, MoodFits, Act, Rank, Forward;
    if s.m.pc[i] != Inside {
      OpForward(s, t, i);
    } else if Calls(s.ctl[i]) {
      CallForward(s, t, i);
    } else {
      assert Local(s, i);
      DataForward(s, i);
      ActKeepsTable(s, i);
    }
    if k != i {
      assert Local(s, k);
      OtherForward(s, t, i, k);
      WokenForward(s.ctl[k], s.m.pc[k], k, |s.st|);
      ForwardSame(Rank(s.ctl[k], s.m.pc[k]));
    }
  }

  lemma ActKeepsTable(s: State, i: nat)
    requires CanStep(s, i) && s.m.pc[i] == Inside
    ensures |Act(s, i).st| == |s.st|
  {
  }

  lemma ForwardSame(p: nat)
    ensures Forward(p, p, false)
  {
  }

  // ---------- runs that begin no meal ----------

  /** A run in which nobody who is thinking takes a step. */
  ghost predicate Winding(s: State, who: seq<nat>, s': State)
    decreases |who|
  {
    if who == [] then s' == s
    else CanStep(s, who[0]) && s.ctl[who[0]] != Thinks && Winding(Step(s, who[0]), who[1..], s')
  }

  lemma {:induction false} WindingIsRun(s: State, who: seq<nat>, s': State)
    requires Winding(s, who, s')
    ensures P.Run(s, who, s')
    decreases |who|
  {
    hide Step;
    if who != [] {
      WindingIsRun(Step(s, who[0]), who[1..], s');
    }
  }

  lemma Placed(s: State, t: Token, i: nat)
    requires PInv(s, t) && i < |s.st|
    ensures s.ctl[i] == Thinks <==> Rank(s.ctl[i], s.m.pc[i]) == 0
    ensures s.ctl[i] == Eats <==> Rank(s.ctl[i], s.m.pc[i]) == 19
    ensures s.ctl[i] == Thinks ==> CanStep(s, i)
  {
    assert Local(s, i);
  }

  lemma StepShortens(s: State, t: Token, i: nat)
    requires PInv(s, t) && CanStep(s, i) && s.ctl[i] != Thinks
    ensures WellFormed(Step(s, i)) && Sum(Ranks(Step(s, i))) < Sum(Ranks(s))
  {
    hide PInv, Step, Rank, Sum;
    StepForward(s, t, i, i);
    Placed(s, t, i);
    forall k: nat | k < |s.st|
      ensures Rank(Step(s, i).ctl[k], Step(s, i).m.pc[k]) <= Rank(s.ctl[k], s.m.pc[k])
    {
      StepForward(s, t, i, k);
    }
    SumLess(Ranks(s), Ranks(Step(s, i)), i);
  }

  /** Every step of such a run uses up some of the work, so it comes to an end. */
  lemma {:induction false} WindingEnds(s: State, t: Token, who: seq<nat>, s': State) returns (t': Token)
    requires PInv(s, t) && Winding(s, who, s')
    ensures PInv(s', t') && |s'.st| == |s.st|
    ensures Sum(Ranks(s')) + |who| <= Sum(Ranks(s))
    decreases |who|
  {
    hide Inv, Polite, Local, Remembered, Step, Rank, Sum;
    t' := t;
    if who != [] {
      StepShortens(s, t, who[0]);
      t' := StepPInv(s, t, who[0]);
      StepForward(s, t, who[0], who[0]);
      t' := WindingEnds(Step(s, who[0]), t', who[1..], s');
    }
  }

  ghost predicate AllThink(s: State) {
    forall k :: 0 <= k < |s.ctl| ==> s.ctl[k] == Thinks
  }

  /** And it can always go on until everybody is thinking. */
  lemma {:induction false} Unwind(s: State, t: Token) returns (who: seq<nat>, s': State)
    requires PInv(s, t)
    ensures Winding(s, who, s') && AllThink(s')
    decreases Sum(Ranks(s))
  {
    hide Inv, Polite, Local, Remembered, Step, Rank, Sum;
    if AllThink(s) {
      who, s' := [], s;
    } else {
      var j: nat :| j < |s.ctl| && s.ctl[j] != Thinks;
      var i := SomeoneAwake(s, t, j);
      StepShortens(s, t, i);
      var t' := StepPInv(s, t, i);
      who, s' := Unwind(Step(s, i), t');
      who := [i] + who;
    }
  }

  /** Nobody gets from hungry to putting the forks back without a meal. */
  lemma {:induction false} PassesTheMeal(s: State, t: Token, who: seq<nat>, s': State, i: nat)
    returns (k: nat, mid: State)
    requires PInv(s, t) && Winding(s, who, s') && i < |s.st|
    requires Rank(s.ctl[i], s.m.pc[i]) >= 19 && AllThink(s')
    ensures k <= |who| && Winding(s, who[..k], mid) && i < |mid.ctl| && mid.ctl[i] == Eats
    decreases |who|
  {
    hide Inv, Polite, Local, Remembered, Step, Rank;
    Placed(s, t, i);
    if s.ctl[i] == Eats {
      k, mid := 0, s;
    } else {
      StepForward(s, t, who[0], i);
      var t' := StepPInv(s, t, who[0]);
      k, mid := PassesTheMeal(Step(s, who[0]), t', who[1..], s', i);
      assert who[..k + 1][1..] == who[1..][..k];
      k := k + 1;
    }
  }

  // ---------- what every philosopher can count on ----------

  lemma {:induction false} RunsJoin(a: State, first: seq<nat>, b: State, second: seq<nat>, c: State)
    requires P.Run(a, first, b) && P.Run(b, second, c)
    ensures P.Run(a, first + second, c)
    decreases |first|
  {
    hide Step;
    if first == [] {
      assert first + second == second;
    } else {
      RunsJoin(Step(a, first[0]), first[1..], b, second, c);
      assert (first + second)[1..] == first[1..] + second;
    }
  }

  lemma Within(s: State)
    requires WellFormed(s)
    ensures Sum(Ranks(s)) <= 31 * |s.st|
  {
    SumBound(Ranks(s), 31);
  }

  /** After every run, the meals that have been begun are over within 31 steps a philosopher, whoever takes them; and
      as long as one is not over somebody who has begun one can take a step. */
  lemma MealsEnd(n: nat, who: seq<nat>, s: State, more: seq<nat>, s': State)
    requires n >= 2 && P.Run(P.Init(n), who, s) && Winding(s, more, s')
    ensures |more| <= 31 * n
    ensures AllThink(s') || exists i: nat :: CanStep(s', i) && s'.ctl[i] != Thinks
  {
    hide Inv, Polite, Local, Remembered, Step, Rank, Sum;
    InitPInv(n);
    var t := RunPInv(P.Init(n), InMutex, who, s);
    RunSize(P.Init(n), who, s);
    Within(s);
    t := WindingEnds(s, t, more, s');
    if !AllThink(s') {
      var j: nat :| j < |s'.ctl| && s'.ctl[j] != Thinks;
      var i := SomeoneAwake(s', t, j);
    }
  }

  /** From every state that a run reaches, the run can go on until everybody is thinking. */
  lemma CanReturn(n: nat, who: seq<nat>, s: State) returns (more: seq<nat>, s': State)
    requires n >= 2 && P.Run(P.Init(n), who, s)
    ensures Winding(s, more, s') && AllThink(s') && P.Run(P.Init(n), who + more, s')
  {
    hide PInv, Step;
    InitPInv(n);
    var t := RunPInv(P.Init(n), InMutex, who, s);
    more, s' := Unwind(s, t);
    WindingIsRun(s, more, s');
    RunsJoin(P.Init(n), who, s, more, s');
  }

  /** Whoever is on the way to a meal gets it without anybody else beginning one. */
  lemma HungryEats(s: State, t: Token, i: nat) returns (more: seq<nat>, s': State)
    requires PInv(s, t) && i < |s.st| && Rank(s.ctl[i], s.m.pc[i]) >= 19
    ensures Winding(s, more, s') && i < |s'.ctl| && s'.ctl[i] == Eats
  {
    hide Inv, Polite, Local, Remembered, Step, Rank;
    var all, end := Unwind(s, t);
    var k;
    k, s' := PassesTheMeal(s, t, all, end, i);
    more := all[..k];
  }

  /** Within phi_take_forks_condvar. */
  predicate Asked(ctl: Ctl) {
    || ctl == TakeIn || ctl == TakeTest || ctl == TakeGrant || ctl == TakeSignal || ctl == TakeDecide
    || ctl == TakeWaiting || ctl == TakeLeave
  }

  lemma EatAgain(s: State, t: Token, i: nat) returns (more: seq<nat>, s': State)
    requires PInv(s, t) && i < |s.st|
    ensures P.Run(s, more, s') && i < |s'.ctl| && s'.ctl[i] == Eats
  {
    hide Inv, Polite, Local, Remembered, Rank, Step, P.Run;
    var back, end := Unwind(s, t);
    WindingIsRun(s, back, end);
    var t' := WindingEnds(s, t, back, end);
    Placed(end, t', i);
    var next := Step(end, i);
    StepForward(end, t', i, i);
    t' := StepPInv(end, t', i);
    var on;
    on, s' := HungryEats(next, t', i);
    WindingIsRun(next, on, s');
    OneStep(end, i, on, s');
    RunsJoin(s, back, end, [i] + on, s');
    more := back + ([i] + on);
  }

  lemma OneStep(s: State, i: nat, more: seq<nat>, s': State)
    requires CanStep(s, i) && P.Run(Step(s, i), more, s')
    ensures P.Run(s, [i] + more, s')
  {
    hide Step;
    assert ([i] + more)[1..] == more;
  }

  /** From every state that a run reaches, every philosopher can still come to eat; one that has called
      phi_take_forks_condvar and not yet returned from it does so although nobody begins a new meal. */
  lemma CanEat(n: nat, who: seq<nat>, s: State, i: nat) returns (more: seq<nat>, s': State)
    requires n >= 2 && P.Run(P.Init(n), who, s) && i < n
    ensures P.Run(s, more, s') && |s'.ctl| > i && |s.ctl| == n && s'.ctl[i] == Eats
    ensures Asked(s.ctl[i]) ==> Winding(s, more, s')
  {
    hide Inv, Polite, Local, Remembered, Step, P.Run;
    InitPInv(n);
    var t := RunPInv(P.Init(n), InMutex, who, s);
    RunSize(P.Init(n), who, s);
    if Asked(s.ctl[i]) {
      more, s' := HungryEats(s, t, i);
      WindingIsRun(s, more, s');
    } else {
      more, s' := EatAgain(s, t, i);
    }
  }
}
