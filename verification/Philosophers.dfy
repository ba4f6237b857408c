/** The table of kern/sync/check_sync.c: who sits next to whom, and who may eat. */
module Table {

  datatype Mood = Thinking | Hungry | Eating

  function Left(i: nat, n: nat): (l: nat)
    requires i < n
    ensures l == if i == 0 then n - 1 else i - 1
  {
    (i - 1 + n) % n
  }

  function Right(i: nat, n: nat): (r: nat)
    requires i < n
    ensures r == if i == n - 1 then 0 else i + 1
  {
    (i + 1) % n
  }

  datatype Side = L | R

  function Beside(i: nat, side: Side, n: nat): (j: nat)
    requires i < n
    ensures j < n
  {
    if side == L then Left(i, n) else Right(i, n)
  }

  /** The test of phi_test_sema and phi_test_condvar. */
  predicate MayEat(st: seq<Mood>, i: nat)
    requires i < |st|
  {
    st[i] == Hungry && st[Left(i, |st|)] != Eating && st[Right(i, |st|)] != Eating
  }

  /** No philosopher eats beside another. */
  ghost predicate Polite(st: seq<Mood>) {
    forall i: nat :: i < |st| && st[i] == Eating ==> st[Left(i, |st|)] != Eating && st[Right(i, |st|)] != Eating
  }

  /** Letting a philosopher eat who may, keeps the table polite. */
  lemma EatPolitely(st: seq<Mood>, i: nat)
    requires |st| >= 2 && i < |st| && Polite(st) && MayEat(st, i)
    ensures Polite(st[i := Eating])
  {
  }
}

/** The condition-variable philosophers: phi_take_forks_condvar and phi_put_forks_condvar on the monitor.

    Every statement of the routines that reads or writes the shared state is a step of its own, and the
    steps of the monitor come in between; any philosopher may take the next step. The number of
    philosophers is any n >= 2.
 */
module CondvarPhilosophers {
  import opened Semaphores
  import opened Monitor
  import opened Table

  /** Where a philosopher is in its routine; calls into the monitor are tracked by the monitor's own counter. */
  datatype Ctl =
    | Thinks | TakeIn | TakeTest | TakeGrant | TakeSignal | TakeSignalling | TakeDecide | TakeWaiting | TakeLeave
    | Eats | PutIn | PutTest(side: Side) | PutGrant(side: Side) | PutSignal(side: Side) | PutSignalling(side: Side)
    | PutLeave

  datatype State = State(m: Mon, st: seq<Mood>, ctl: seq<Ctl>)

  function Init(n: nat): State {
    State(Monitor.Init(n, n), seq(n, i => Thinking), seq(n, i => Thinks))
  }

  function AfterTest(side: Side): Ctl {
    if side == L then PutTest(R) else PutLeave
  }

  ghost predicate WellFormed(s: State) {
    |s.st| == |s.ctl| == |s.m.pc| == |s.m.cv| && |s.st| >= 2
  }

  /** A step inside a routine, by the philosopher that is inside the monitor. */
  ghost function Act(s: State, i: nat): State
    requires WellFormed(s) && i < |s.st| && s.m.pc[i] == Inside
  {
    var n := |s.st|;
    match s.ctl[i]
    case TakeIn => s.(st := s.st[i := Hungry], ctl := s.ctl[i := TakeTest])
    case TakeTest => s.(ctl := s.ctl[i := if MayEat(s.st, i) then TakeGrant else TakeDecide])
    case TakeGrant => s.(st := s.st[i := Eating], ctl := s.ctl[i := TakeSignal])
    case TakeSignal =>
      var m := Next(s.m, i, Signal(i));
      s.(m := m, ctl := s.ctl[i := if m.pc[i] == Inside then TakeDecide else TakeSignalling])
    case TakeDecide =>
      if s.st[i] != Eating then s.(m := Next(s.m, i, Wait(i)), ctl := s.ctl[i := TakeWaiting])
          else s.(ctl := s.ctl[i := TakeLeave])
    case TakeLeave => s.(m := Next(s.m, i, Leave), ctl := s.ctl[i := Eats])
    case PutIn => s.(st := s.st[i := Thinking], ctl := s.ctl[i := PutTest(L)])
    case PutTest(side) =>
      var next := if MayEat(s.st, Beside(i, side, n)) then PutGrant(side) else AfterTest(side);
      s.(ctl := s.ctl[i := next])
    case PutGrant(side) => s.(st := s.st[Beside(i, side, n) := Eating], ctl := s.ctl[i := PutSignal(side)])
    case PutSignal(side) =>
      var m := Next(s.m, i, Signal(Beside(i, side, n)));
      s.(m := m, ctl := s.ctl[i := if m.pc[i] == Inside then AfterTest(side) else PutSignalling(side)])
    case PutLeave => s.(m := Next(s.m, i, Leave), ctl := s.ctl[i := Thinks])
    case _ => s
  }

  /** The operation of the monitor a philosopher is about to perform when it is not inside. */
  function MonitorOp(pc: PC): Op {
    match pc
    case Outside => Call
    case Entering => DownMutex
    case SignalUp(_) => UpCond
    case SignalDown(_) => DownNext
    case SignalBack(_) => EndSignal
    case WaitUp(_) => GiveUp
    case WaitDown(_) => DownCond
    case _ => EndWait
  }

  predicate Awake(pc: PC) {
    !pc.EnterAsleep? && !pc.SignalAsleep? && !pc.WaitAsleep?
  }

  /** Where the routine goes on when an operation of the monitor is over. */
  function Resume(ctl: Ctl, pc: PC): Ctl {
    match pc
    case Outside => if ctl == Thinks then TakeIn else PutIn
    case SignalBack(_) => if ctl.PutSignalling? then AfterTest(ctl.side) else TakeDecide
    case WaitBack(_) => TakeLeave
    case _ => ctl
  }

  ghost function Step(s: State, i: nat): State
    requires WellFormed(s) && i < |s.st| && Awake(s.m.pc[i]) && InRange(s.m.pc[i], |s.m.cv|)
  {
    if s.m.pc[i] == Inside then Act(s, i)
    else s.(m := Next(s.m, i, MonitorOp(s.m.pc[i])), ctl := s.ctl[i := Resume(s.ctl[i], s.m.pc[i])])
  }

  // ---------- the invariant ----------

  /** The program counter of the monitor fits the place in the routine. */
  ghost predicate Fits(ctl: Ctl, pc: PC, i: nat, n: nat)
    requires i < n
  {
    match ctl
    case Thinks => pc == Outside
    case Eats => pc == Outside
    case TakeIn => pc.Entering? || pc.EnterAsleep? || pc.Inside?
    case PutIn => pc.Entering? || pc.EnterAsleep? || pc.Inside?
    case TakeSignalling => false
    case TakeWaiting => WaitingOn(pc, i)
    case PutSignalling(side) => Signalling(pc) && pc.cv == Beside(i, side, n)
    case _ => pc == Inside
  }

  /** So does the philosopher's mood. */
  ghost predicate MoodFits(ctl: Ctl, pc: PC, st: Mood) {
    match ctl
    case Thinks => st == Thinking
    case TakeIn => st == Thinking
    case TakeTest => st == Hungry
    case TakeGrant => st == Hungry
    case TakeSignal => st == Eating
    case TakeDecide => st != Thinking
    case TakeWaiting => st != Thinking && (pc.WaitBack? ==> st == Eating) && (pc.WaitUp? ==> st == Hungry)
    case TakeLeave => st == Eating
    case Eats => st == Eating
    case PutIn => st == Eating
    case _ => st == Thinking
  }

  /** A philosopher that was let eat is about to be signalled. */
  ghost predicate Promises(s: State, i: nat, j: nat)
    requires WellFormed(s) && i < |s.st|
  {
    || (s.ctl[i].PutSignal? && j == Beside(i, s.ctl[i].side, |s.st|))
    || (s.ctl[i].PutSignalling? && j == Beside(i, s.ctl[i].side, |s.st|) && s.m.pc[i].SignalUp?)
  }

  ghost predicate Local(s: State, i: nat)
    requires WellFormed(s) && i < |s.st|
  {
    && Fits(s.ctl[i], s.m.pc[i], i, |s.st|) && MoodFits(s.ctl[i], s.m.pc[i], s.st[i])
    && (s.ctl[i] == TakeGrant ==> MayEat(s.st, i))
    && (s.ctl[i].PutGrant? ==> MayEat(s.st, Beside(i, s.ctl[i].side, |s.st|)))
    && (forall j: nat :: j < |s.st| && Promises(s, i, j) ==> s.st[j] == Eating && s.ctl[j] == TakeWaiting)
  }

  /** Philosopher i has still to test j. */
  ghost predicate WillTest(s: State, i: nat, j: nat)
    requires WellFormed(s) && i < |s.st|
  {
    var n := |s.st|;
    match s.ctl[i]
    case TakeTest => i == j
    case TakeGrant => i == j
    case PutTest(side) => j == Right(i, n) || (side == L && j == Left(i, n))
    case PutGrant(side) => j == Right(i, n) || (side == L && j == Left(i, n))
    case PutSignal(side) => side == L && j == Right(i, n)
    case PutSignalling(side) => side == L && j == Right(i, n)
    case _ => false
  }

  /** Nobody is forgotten: whoever may eat is still to be looked at, and whoever was let eat while waiting is still to
      be woken. */
  ghost predicate Remembered(s: State, t: Token, j: nat)
    requires WellFormed(s) && j < |s.st|
  {
    && (MayEat(s.st, j) ==> exists i: nat :: i < |s.st| && WillTest(s, i, j))
    && (s.ctl[j] == TakeWaiting && s.st[j] == Eating && (s.m.pc[j].WaitDown? || s.m.pc[j].WaitAsleep?) ==>
          t == InCond(j) || exists i: nat :: i < |s.st| && Promises(s, i, j))
  }

  ghost predicate PInv(s: State, t: Token) {
    && WellFormed(s) && Inv(s.m, t) && Polite(s.st)
    && (t.InCond? ==> t.cv < |s.st| && s.st[t.cv] == Eating)
    && (forall i: nat :: i < |s.st| ==> Local(s, i))
    && (forall j: nat :: j < |s.st| ==> Remembered(s, t, j))
  }

  lemma InitPInv(n: nat)
    requires n >= 2
    ensures PInv(Init(n), InMutex)
  {
    InitInv(n, n);
  }

  // ---------- steps of the routines ----------

  /** While i is inside, everybody else is outside, asleep, or about to down a semaphore. */
  ghost predicate Away(s: State, i: nat)
    requires WellFormed(s)
  {
    forall q: nat :: q < |s.st| && q != i ==>
      !Holds(s.m.pc[q]) &&
      (s.ctl[q] == Thinks || s.ctl[q] == Eats || s.ctl[q] == TakeIn || s.ctl[q] == PutIn || s.ctl[q] == TakeWaiting
          || s.ctl[q].PutSignalling?)
  }

  lemma InsideAlone(s: State, t: Token, i: nat)
    requires PInv(s, t) && i < |s.st| && Holds(s.m.pc[i])
    ensures t == With(i) && Away(s, i)
  {
    forall q: nat | q < |s.st| && q != i
      ensures !Holds(s.m.pc[q]) &&
      (s.ctl[q] == Thinks || s.ctl[q] == Eats || s.ctl[q] == TakeIn || s.ctl[q] == PutIn || s.ctl[q] == TakeWaiting
          || s.ctl[q].PutSignalling?)
    {
      assert Local(s, q);
    }
  }

  /** A step that leaves the monitor alone: i changes the mood of x and moves on to c. What it owed others
      it still owes or has done. */
  lemma DataStep(s: State, t: Token, i: nat, x: nat, v: Mood, c: Ctl, s': State)
    requires PInv(s, t) && i < |s.st| && x < |s.st| && s.m.pc[i] == Inside && !s.ctl[i].PutSignal?
    requires !s.ctl[i].PutSignalling?
    requires s' == s.(st := s.st[x := v], ctl := s.ctl[i := c])
    requires Polite(s'.st) && Local(s', i)
    requires x != i ==> v == Eating && s.ctl[x] == TakeWaiting && (s.st[x] == Eating || Promises(s', i, x))
    requires forall j: nat :: j < |s.st| && MayEat(s'.st, j) ==>
               WillTest(s', i, j) || (MayEat(s.st, j) && !WillTest(s, i, j))
    ensures PInv(s', t)
  {
    hide Monitor.Inv, Polite, MoodFits, Promises, WillTest, MayEat;
    InsideAlone(s, t, i);
    forall q: nat | q < |s.st| && q != i ensures Local(s', q) {
      assert Local(s, q);
      DataLocal(s, i, x, v, c, s', q);
    }
    forall j: nat | j < |s.st| ensures Remembered(s', t, j) {
      assert Remembered(s, t, j);
      DataRemembered(s, t, i, x, v, c, s', j);
    }
  }

  lemma DataLocal(s: State, i: nat, x: nat, v: Mood, c: Ctl, s': State, q: nat)
    requires WellFormed(s) && Away(s, i) && i < |s.st| && x < |s.st| && q < |s.st| && q != i && Local(s, q)
    requires s' == s.(st := s.st[x := v], ctl := s.ctl[i := c]) && s.m.pc[i] == Inside
    requires x != i ==> v == Eating && s.ctl[x] == TakeWaiting && (s.st[x] == Eating || Promises(s', i, x))
    ensures Local(s', q)
  {
  }

  lemma DataRemembered(s: State, t: Token, i: nat, x: nat, v: Mood, c: Ctl, s': State, j: nat)
    requires WellFormed(s) && Away(s, i) && i < |s.st| && x < |s.st| && j < |s.st| && Remembered(s, t, j)
    requires s' == s.(st := s.st[x := v], ctl := s.ctl[i := c]) && s.m.pc[i] == Inside
    requires !s.ctl[i].PutSignal? && !s.ctl[i].PutSignalling?
    requires x != i ==> v == Eating && s.ctl[x] == TakeWaiting && (s.st[x] == Eating || Promises(s', i, x))
    requires MayEat(s'.st, j) ==> WillTest(s', i, j) || (MayEat(s.st, j) && !WillTest(s, i, j))
    requires c != TakeWaiting
    ensures Remembered(s', t, j)
  {
    if MayEat(s'.st, j) && !WillTest(s', i, j) {
      var q: nat :| q < |s.st| && WillTest(s, q, j);
      assert WillTest(s', q, j);
    }
  }

  /** Apart from p, a step of the monitor moves at most a sleeper that it wakes; only an up of a condition
      wakes somebody who waits for one. */
  lemma OnlyWakes(m: Mon, t: Token, p: nat, op: Op, q: nat)
    requires Inv(m, t) && Enabled(m, p, op) && q < |m.pc| && q != p
    ensures |Next(m, p, op).pc| == |m.pc| && |Next(m, p, op).cv| == |m.cv|
    ensures Next(m, p, op).pc[q] == m.pc[q] || (!Awake(m.pc[q]) && Next(m, p, op).pc[q] == Woken(m.pc[q]))
    ensures m.pc[q].WaitAsleep? && !op.UpCond? ==> Next(m, p, op).pc[q] == m.pc[q]
  {
  }

  /** A process that gives the token away is not the one that is woken. */
  lemma OwnCounter(m: Mon, t: Token, p: nat, op: Op)
    requires Inv(m, t) && Enabled(m, p, op) && (op.Leave? || op.GiveUp? || op.UpCond?)
    ensures |Next(m, p, op).pc| == |m.pc| && |Next(m, p, op).cv| == |m.cv|
    ensures Next(m, p, op).pc[p] == if op.Leave? then Outside else if op.GiveUp? then WaitDown(m.pc[p].cv)
              else SignalDown(m.pc[p].cv)
  {
  }

  /** The rest of the table does not notice a step of the monitor by i, except a sleeper that wakes. */
  lemma OthersKept(s: State, t: Token, i: nat, op: Op, c: Ctl, s': State, q: nat)
    requires PInv(s, t) && i < |s.st| && Enabled(s.m, i, op)
    requires s' == s.(m := Next(s.m, i, op), ctl := s.ctl[i := c]) && WellFormed(s')
    requires s.ctl[i] == TakeWaiting && c != TakeWaiting ==> Holds(s.m.pc[i])
    requires q < |s.st| && q != i
    requires (op.UpCond? && s'.m.pc[q] != s.m.pc[q] && s.m.pc[q].WaitAsleep? ==> s.st[q] == Eating)
    ensures Local(s', q)
  {
    hide Remembered, Polite, Good, Counts, Takeable, Aimed;
    assert Local(s, q);
    OnlyWakes(s.m, t, i, op, q);
    if Holds(s.m.pc[q]) {
      InsideAlone(s, t, q);
    }
  }

  /** What they owe stays the same too. */
  lemma OthersOwe(s: State, t: Token, i: nat, op: Op, c: Ctl, s': State, q: nat, j: nat)
    requires PInv(s, t) && i < |s.st| && Enabled(s.m, i, op)
    requires s' == s.(m := Next(s.m, i, op), ctl := s.ctl[i := c]) && WellFormed(s') && q < |s.st| && q != i
    requires j < |s.st|
    ensures Promises(s', q, j) <==> Promises(s, q, j)
    ensures WillTest(s', q, j) <==> WillTest(s, q, j)
  {
    OnlyWakes(s.m, t, i, op, q);
  }

  /** What i must see to when it takes a step of the monitor and moves on to c. */
  ghost predicate Allowed(s: State, t: Token, i: nat, op: Op, c: Ctl, s': State, t': Token) {
    && PInv(s, t) && i < |s.st| && Enabled(s.m, i, op)
    && s' == s.(m := Next(s.m, i, op), ctl := s.ctl[i := c]) && t' == TokenNext(s.m, i, op, t) && WellFormed(s')
    && (s.ctl[i] == TakeWaiting && c != TakeWaiting ==> Holds(s.m.pc[i]))
    && (c == TakeWaiting ==> s.ctl[i] == TakeWaiting || s.st[i] == Hungry)
    && (forall j: nat :: j < |s.st| && WillTest(s, i, j) ==> WillTest(s', i, j))
    && (forall j: nat :: j < |s.st| && Promises(s, i, j) ==>
          Promises(s', i, j) || t' == InCond(j) || s'.m.pc[j].WaitBack?)
    && (t.InCond? ==> t' == t || (t.cv < |s.st| && s'.m.pc[t.cv].WaitBack?))
    && (op.UpCond? ==> forall q: nat :: q < |s.st| && q != i && s'.m.pc[q] != s.m.pc[q] && s.m.pc[q].WaitAsleep? ==>
          s.st[q] == Eating)
  }

  lemma RememberedKept(s: State, t: Token, i: nat, op: Op, c: Ctl, s': State, t': Token, j: nat)
    requires Allowed(s, t, i, op, c, s', t') && Local(s', i) && j < |s.st|
    ensures Remembered(s', t', j)
  {
    assert Remembered(s, t, j) && Local(s, i) && Local(s, j);
    if MayEat(s.st, j) {
      var q: nat :| q < |s.st| && WillTest(s, q, j);
      if q != i {
        OthersOwe(s, t, i, op, c, s', q, j);
      }
      assert WillTest(s', q, j);
    }
    if j != i {
      OnlyWakes(s.m, t, i, op, j);
    }
    if s'.ctl[j] == TakeWaiting && s'.st[j] == Eating && (s'.m.pc[j].WaitDown? || s'.m.pc[j].WaitAsleep?)
        && t' != InCond(j) {
      var q: nat :| q < |s.st| && Promises(s, q, j);
      if q != i {
        OthersOwe(s, t, i, op, c, s', q, j);
      }
      assert Promises(s', q, j);
    }
  }

  /** A step of the monitor by i, which moves on to c. */
  lemma MonitorStep(s: State, t: Token, i: nat, op: Op, c: Ctl, s': State, t': Token)
    requires Allowed(s, t, i, op, c, s', t') && Local(s', i)
    requires t'.InCond? ==> t'.cv < |s.st| && s.st[t'.cv] == Eating
    ensures PInv(s', t')
  {
    StepInv(s.m, i, op, t);
    forall q: nat | q < |s.st| ensures Local(s', q) {
      if q != i {
        OthersKept(s, t, i, op, c, s', q);
      }
    }
    forall j: nat | j < |s.st| ensures Remembered(s', t', j) {
      RememberedKept(s, t, i, op, c, s', t', j);
    }
  }

  // ---------- each place of the routines ----------

  /** The steps of phi_take_forks_condvar that only read and write moods. */
  lemma TakeMoodStep(s: State, t: Token, i: nat)
    requires PInv(s, t) && i < |s.st| && s.m.pc[i] == Inside
    requires s.ctl[i] == TakeIn || s.ctl[i] == TakeTest || s.ctl[i] == TakeGrant
    ensures PInv(Act(s, i), t)
  {
    hide Monitor.Inv;
    assert Local(s, i);
    var s' := Act(s, i);
    if s.ctl[i] == TakeGrant {
      EatPolitely(s.st, i);
    }
    DataStep(s, t, i, i, s'.st[i], s'.ctl[i], s');
  }

  /** Those of phi_put_forks_condvar. */
  lemma PutMoodStep(s: State, t: Token, i: nat)
    requires PInv(s, t) && i < |s.st| && s.m.pc[i] == Inside && (s.ctl[i] == PutIn || s.ctl[i].PutTest?)
    ensures PInv(Act(s, i), t)
  {
    hide Monitor.Inv;
    assert Local(s, i);
    var s' := Act(s, i);
    DataStep(s, t, i, i, s'.st[i], s'.ctl[i], s');
  }

  /** A hungry neighbour of the philosopher inside is waiting for its condition. */
  lemma HungryWaits(s: State, t: Token, i: nat, j: nat)
    requires PInv(s, t) && i < |s.st| && j < |s.st| && i != j && Holds(s.m.pc[i]) && s.st[j] == Hungry
    ensures s.ctl[j] == TakeWaiting && WaitingOn(s.m.pc[j], j)
  {
    InsideAlone(s, t, i);
    assert Local(s, j);
  }

  lemma PutGrantStep(s: State, t: Token, i: nat)
    requires PInv(s, t) && i < |s.st| && s.m.pc[i] == Inside && s.ctl[i].PutGrant?
    ensures PInv(Act(s, i), t)
  {
    hide Monitor.Inv;
    assert Local(s, i);
    var j := Beside(i, s.ctl[i].side, |s.st|);
    HungryWaits(s, t, i, j);
    EatPolitely(s.st, j);
    DataStep(s, t, i, j, Eating, PutSignal(s.ctl[i].side), Act(s, i));
  }

  /** Only philosopher c ever waits on condition variable c. */
  lemma OwnCondition(s: State, t: Token, c: nat)
    requires PInv(s, t) && c < |s.st|
    ensures s.m.cv[c].count > 0 <==> WaitingOn(s.m.pc[c], c)
  {
    hide Remembered, Polite, Good, Holders, Takeable, Aimed;
    forall p: nat | p < |s.st| && WaitingOn(s.m.pc[p], c) ensures p == c {
      assert Local(s, p);
    }
    assert Waiters(s.m.pc, c) == if WaitingOn(s.m.pc[c], c) then {c} else {};
  }

  /** Signalling oneself from phi_take_forks_condvar finds nobody. */
  lemma TakeSignalStep(s: State, t: Token, i: nat)
    requires PInv(s, t) && i < |s.st| && s.m.pc[i] == Inside && s.ctl[i] == TakeSignal
    ensures PInv(Act(s, i), t) && Act(s, i).m == s.m
  {
    hide Monitor.Inv;
    assert Local(s, i);
    OwnCondition(s, t, i);
    DataStep(s, t, i, i, s.st[i], TakeDecide, Act(s, i));
  }

  /** Signalling a neighbour from phi_put_forks_condvar always finds it. */
  lemma PutSignalFinds(s: State, t: Token, i: nat)
    requires PInv(s, t) && i < |s.st| && s.m.pc[i] == Inside && s.ctl[i].PutSignal?
    ensures t == With(i) && s.m.cv[Beside(i, s.ctl[i].side, |s.st|)].count > 0
  {
    InsideAlone(s, t, i);
    var j := Beside(i, s.ctl[i].side, |s.st|);
    assert Local(s, i) && Promises(s, i, j);
    assert Local(s, j);
    OwnCondition(s, t, j);
  }

  lemma PutSignalStep(s: State, t: Token, i: nat)
    requires PInv(s, t) && i < |s.st| && s.m.pc[i] == Inside && s.ctl[i].PutSignal?
    ensures PInv(Act(s, i), t)
  {
    hide Remembered, Polite, Good, Counts, Takeable, Aimed;
    PutSignalFinds(s, t, i);
    assert Local(s, i);
    MonitorStep(s, t, i, Signal(Beside(i, s.ctl[i].side, |s.st|)), PutSignalling(s.ctl[i].side), Act(s, i), t);
  }

  lemma DecideStep(s: State, t: Token, i: nat)
    requires PInv(s, t) && i < |s.st| && s.m.pc[i] == Inside && s.ctl[i] == TakeDecide
    ensures PInv(Act(s, i), t)
  {
    hide Remembered, Polite, Good, Counts, Takeable, Aimed;
    assert Local(s, i);
    InsideAlone(s, t, i);
    if s.st[i] != Eating {
      MonitorStep(s, t, i, Wait(i), TakeWaiting, Act(s, i), t);
    } else {
      DataStep(s, t, i, i, s.st[i], TakeLeave, Act(s, i));
    }
  }

  lemma LeaveStep(s: State, t: Token, i: nat)
    requires PInv(s, t) && i < |s.st| && s.m.pc[i] == Inside && (s.ctl[i] == TakeLeave || s.ctl[i] == PutLeave)
    ensures PInv(Act(s, i), TokenNext(s.m, i, Leave, t))
  {
    hide Remembered, Polite, Good, Counts, Takeable, Aimed;
    assert Local(s, i);
    InsideAlone(s, t, i);
    OwnCounter(s.m, t, i, Leave);
    MonitorStep(s, t, i, Leave, Act(s, i).ctl[i], Act(s, i), TokenNext(s.m, i, Leave, t));
  }

  /** Calling a routine of the monitor. */
  lemma EnterStep(s: State, t: Token, i: nat)
    requires PInv(s, t) && i < |s.st| && (s.m.pc[i].Outside? || s.m.pc[i].Entering?)
    ensures PInv(Step(s, i), TokenNext(s.m, i, MonitorOp(s.m.pc[i]), t))
  {
    hide Remembered, Polite, Good, Counts, Takeable, Aimed;
    assert Local(s, i);
    var op := MonitorOp(s.m.pc[i]);
    MonitorStep(s, t, i, op, Step(s, i).ctl[i], Step(s, i), TokenNext(s.m, i, op, t));
  }

  /** The end of cond_signal. */
  lemma EndSignalStep(s: State, t: Token, i: nat)
    requires PInv(s, t) && i < |s.st| && InRange(s.m.pc[i], |s.m.cv|)
    requires (s.m.pc[i].SignalDown? || s.m.pc[i].SignalBack?)
    ensures PInv(Step(s, i), TokenNext(s.m, i, MonitorOp(s.m.pc[i]), t))
  {
    hide Remembered, Polite, Good, Counts, Takeable, Aimed;
    assert Local(s, i);
    var op := MonitorOp(s.m.pc[i]);
    MonitorStep(s, t, i, op, Step(s, i).ctl[i], Step(s, i), TokenNext(s.m, i, op, t));
  }

  /** The end of cond_wait: its caller has been let eat. */
  lemma EndWaitStep(s: State, t: Token, i: nat)
    requires PInv(s, t) && i < |s.st| && InRange(s.m.pc[i], |s.m.cv|) && s.m.pc[i].WaitBack?
    ensures PInv(Step(s, i), t)
  {
    hide Remembered, Polite, Good, Counts, Takeable, Aimed;
    assert Local(s, i);
    InsideAlone(s, t, i);
    MonitorStep(s, t, i, EndWait, TakeLeave, Step(s, i), t);
  }

  lemma DownCondStep(s: State, t: Token, i: nat)
    requires PInv(s, t) && i < |s.st| && s.m.pc[i].WaitDown? && InRange(s.m.pc[i], |s.m.cv|)
    ensures PInv(Step(s, i), TokenNext(s.m, i, DownCond, t))
  {
    hide Polite, Counts, Aimed;
    assert Local(s, i);
    MonitorStep(s, t, i, DownCond, s.ctl[i], Step(s, i), TokenNext(s.m, i, DownCond, t));
  }

  lemma GiveUpStep(s: State, t: Token, i: nat)
    requires PInv(s, t) && i < |s.st| && s.m.pc[i].WaitUp? && InRange(s.m.pc[i], |s.m.cv|)
    ensures PInv(Step(s, i), TokenNext(s.m, i, GiveUp, t))
  {
    hide Remembered, Polite, Good, Counts, Takeable, Aimed;
    assert Local(s, i);
    InsideAlone(s, t, i);
    OwnCounter(s.m, t, i, GiveUp);
    MonitorStep(s, t, i, GiveUp, s.ctl[i], Step(s, i), TokenNext(s.m, i, GiveUp, t));
  }

  /** Only philosopher j can be waiting for what j is promised. */
  lemma WaitsOnOwn(s: State, t: Token, i: nat, j: nat)
    requires PInv(s, t) && i < |s.st| && s.m.pc[i] == SignalUp(j) && j < |s.m.cv|
    ensures Promises(s, i, j) && j < |s.st| && Local(s, j)
    ensures var queue := s.m.cv[j].sem.queue; queue != [] ==> queue[0] == j
  {
    assert Local(s, i);
    assert Promises(s, i, j);
    assert Local(s, j);
    var queue := s.m.cv[j].sem.queue;
    if queue != [] {
      assert queue[0] in queue;
      assert Local(s, queue[0]);
    }
  }

  lemma UpCondStep(s: State, t: Token, i: nat)
    requires PInv(s, t) && i < |s.st| && s.m.pc[i].SignalUp? && InRange(s.m.pc[i], |s.m.cv|)
    ensures PInv(Step(s, i), TokenNext(s.m, i, UpCond, t))
  {
    hide Remembered, Counts;
    assert Local(s, i);
    InsideAlone(s, t, i);
    var j := s.m.pc[i].cv;
    WaitsOnOwn(s, t, i, j);
    OwnCounter(s.m, t, i, UpCond);
    MonitorStep(s, t, i, UpCond, s.ctl[i], Step(s, i), TokenNext(s.m, i, UpCond, t));
  }

  // ---------- all runs ----------

  lemma ActInv(s: State, t: Token, i: nat) returns (t': Token)
    requires PInv(s, t) && i < |s.st| && s.m.pc[i] == Inside
    ensures PInv(Act(s, i), t')
  {
    assert Local(s, i);
    t' := t;
    var c := s.ctl[i];
    if c == TakeIn || c == TakeTest || c == TakeGrant {
      TakeMoodStep(s, t, i);
    } else if c == PutIn || c.PutTest? {
      PutMoodStep(s, t, i);
    } else if c == TakeSignal {
      TakeSignalStep(s, t, i);
    } else if c == TakeDecide {
      DecideStep(s, t, i);
    } else if c.PutGrant? {
      PutGrantStep(s, t, i);
    } else if c.PutSignal? {
      PutSignalStep(s, t, i);
    } else {
      LeaveStep(s, t, i);
      t' := TokenNext(s.m, i, Leave, t);
    }
  }

  lemma StepPInv(s: State, t: Token, i: nat) returns (t': Token)
    requires PInv(s, t) && i < |s.st| && Awake(s.m.pc[i]) && InRange(s.m.pc[i], |s.m.cv|)
    ensures PInv(Step(s, i), t')
  {
    var pc, op := s.m.pc[i], MonitorOp(s.m.pc[i]);
    if pc.Inside? {
      t' := ActInv(s, t, i);
    } else if pc.WaitBack? {
      EndWaitStep(s, t, i);
      t' := t;
    } else {
      t' := TokenNext(s.m, i, op, t);
      if pc.WaitUp? {
        GiveUpStep(s, t, i);
      } else if pc.WaitDown? {
        DownCondStep(s, t, i);
      } else if pc.SignalUp? {
        UpCondStep(s, t, i);
      } else if pc.SignalDown? || pc.SignalBack? {
        EndSignalStep(s, t, i);
      } else {
        EnterStep(s, t, i);
      }
    }
  }

  ghost predicate CanStep(s: State, i: nat) {
    WellFormed(s) && i < |s.st| && Awake(s.m.pc[i]) && InRange(s.m.pc[i], |s.m.cv|)
  }

  /** A run: any philosopher that is not asleep takes the next step. */
  ghost predicate Run(s: State, who: seq<nat>, s': State)
    decreases |who|
  {
    if who == [] then s' == s else CanStep(s, who[0]) && Run(Step(s, who[0]), who[1..], s')
  }

  lemma {:induction false} RunPInv(s: State, t: Token, who: seq<nat>, s': State) returns (t': Token)
    requires PInv(s, t) && Run(s, who, s')
    ensures PInv(s', t')
    decreases |who|
  {
    t' := t;
    if who != [] {
      t' := StepPInv(s, t, who[0]);
      t' := RunPInv(Step(s, who[0]), t', who[1..], s');
    }
  }

  /** After every run: no two neighbours eat; whoever has returned from phi_take_forks_condvar, and has not yet
      begun to put the forks back, is eating with both forks; and at most one philosopher is inside the monitor. */
  lemma Safe(n: nat, who: seq<nat>, s: State, i: nat)
    requires n >= 2 && Run(Init(n), who, s) && i < n
    ensures WellFormed(s) && |s.st| == n && Polite(s.st)
    ensures s.ctl[i] == Eats || s.ctl[i] == PutIn ==>
              s.st[i] == Eating && s.st[Left(i, n)] != Eating && s.st[Right(i, n)] != Eating
    ensures forall j: nat :: j < n && Holds(s.m.pc[i]) && Holds(s.m.pc[j]) ==> i == j
  {
    InitPInv(n);
    var t := RunPInv(Init(n), InMutex, who, s);
    RunSize(Init(n), who, s);
    assert Local(s, i);
  }

  lemma {:induction false} RunSize(s: State, who: seq<nat>, s': State)
    requires Run(s, who, s')
    ensures |s'.st| == |s.st|
    decreases |who|
  {
    if who != [] {
      RunSize(Step(s, who[0]), who[1..], s');
    }
  }

  /** No wakeup is lost: whenever the monitor is free, no hungry philosopher could eat, and none that was let eat
      still waits. */
  lemma NobodyForgotten(n: nat, who: seq<nat>, s: State, j: nat)
    requires n >= 2 && Run(Init(n), who, s) && j < n && s.m.mutex.value == 1
    ensures WellFormed(s) && |s.st| == n && !MayEat(s.st, j)
    ensures s.ctl[j] == TakeWaiting ==> s.st[j] == Hungry && (s.st[Left(j, n)] == Eating || s.st[Right(j, n)] == Eating)
  {
    InitPInv(n);
    var t := RunPInv(Init(n), InMutex, who, s);
    RunSize(Init(n), who, s);
    assert t == InMutex;
    NothingOwed(s, j);
  }

  /** What holds of a philosopher while the monitor is free. */
  lemma NothingOwed(s: State, j: nat)
    requires PInv(s, InMutex) && j < |s.st|
    ensures !MayEat(s.st, j) && (s.ctl[j] == TakeWaiting ==> s.st[j] == Hungry)
    ensures s.m.pc[j].Outside? || s.m.pc[j].Entering?
              || (s.ctl[j] == TakeWaiting && (s.m.pc[j].WaitDown? || s.m.pc[j].WaitAsleep?))
  {
    assert Remembered(s, InMutex, j) && Local(s, j);
    assert j in Signallers(s.m.pc) <==> Signalling(s.m.pc[j]);
    forall i: nat | i < |s.st| ensures !WillTest(s, i, j) && !Promises(s, i, j) {
      assert Local(s, i);
      assert i in Signallers(s.m.pc) <==> Signalling(s.m.pc[i]);
    }
  }

  /** There is no deadlock: after every run some philosopher can take a step. */
  lemma NoDeadlock(n: nat, who: seq<nat>, s: State)
    requires n >= 2 && Run(Init(n), who, s)
    ensures exists i: nat :: CanStep(s, i)
  {
    InitPInv(n);
    var t := RunPInv(Init(n), InMutex, who, s);
    var i := SomeoneAwake(s, t, 0);
    assert CanStep(s, i);
  }

  /** If j is not thinking then somebody who is not thinking is awake. */
  lemma SomeoneAwake(s: State, t: Token, j: nat) returns (i: nat)
    requires PInv(s, t) && j < |s.st|
    ensures CanStep(s, i) && (s.ctl[j] != Thinks ==> s.ctl[i] != Thinks)
  {
    if t == InMutex {
      NothingOwed(s, j);
      i := j;
      if !Awake(s.m.pc[j]) {
        i := Left(j, |s.st|);
        NothingOwed(s, i);
        if !Awake(s.m.pc[i]) || s.st[i] != Eating {
          i := Right(j, |s.st|);
          NothingOwed(s, i);
        }
        assert Local(s, i);
      }
    } else {
      i :| i < |s.m.pc|
          && (t == With(i) || (t == InNext && s.m.pc[i].SignalDown?) || (t.InCond? && s.m.pc[i] == WaitDown(t.cv)));
      assert Local(s, i);
    }
  }
}

/** The semaphore philosophers: phi_take_forks_sema and phi_put_forks_sema. Again every access to the shared
    state is a step of its own, any philosopher that is not asleep may take the next one, and n >= 2.
 */
module SemaphorePhilosophers {
  import opened Semaphores
  import opened Table

  datatype PC =
    | Thinks
    | TakeDown | TakeAsleep                             // down(&mutex)
    | TakeSet | TakeTest | TakeGrant | TakeUp           // HUNGRY, phi_test_sema(i), up(&s[i])
    | TakeRelease                                       // up(&mutex)
    | WaitDown | WaitAsleep                             // down(&s[i])
    | Eats
    | PutDown | PutAsleep
    | PutSet | PutTest(side: Side) | PutGrant(side: Side) | PutUp(side: Side)
    | PutRelease

  datatype State = State(mutex: Sem, s: seq<Sem>, st: seq<Mood>, pc: seq<PC>)

  function Init(n: nat): State {
    State(Sem(1, []), seq(n, i => Sem(0, [])), seq(n, i => Thinking), seq(n, i => Thinks))
  }

  predicate Awake(pc: PC) {
    !pc.TakeAsleep? && !pc.PutAsleep? && !pc.WaitAsleep?
  }

  function Woken(pc: PC): PC {
    match pc
    case TakeAsleep => TakeSet
    case PutAsleep => PutSet
    case WaitAsleep => Eats
    case _ => pc
  }

  function Wake(pc: seq<PC>, s: Sem): seq<PC> {
    if s.queue == [] || s.queue[0] >= |pc| then pc else pc[s.queue[0] := Woken(pc[s.queue[0]])]
  }

  function AfterTest(side: Side): PC {
    if side == L then PutTest(R) else PutRelease
  }

  ghost predicate WellFormed(c: State) {
    |c.s| == |c.st| == |c.pc| && |c.st| >= 2
  }

  ghost predicate CanStep(c: State, i: nat) {
    WellFormed(c) && i < |c.st| && Awake(c.pc[i])
  }

  /** up(&s[j]) by i, which moves on to x. */
  ghost function UpOf(c: State, i: nat, j: nat, x: PC): State
    requires WellFormed(c) && i < |c.st| && j < |c.st|
  {
    c.(s := c.s[j := c.s[j].Up()], pc := Wake(c.pc[i := x], c.s[j]))
  }

  ghost function Step(c: State, i: nat): State
    requires CanStep(c, i)
  {
    var n := |c.st|;
    match c.pc[i]
    case Thinks => c.(pc := c.pc[i := TakeDown])
    case TakeDown => c.(mutex := c.mutex.Down(i), pc := c.pc[i := if c.mutex.Blocks() then TakeAsleep else TakeSet])
    case TakeSet => c.(st := c.st[i := Hungry], pc := c.pc[i := TakeTest])
    case TakeTest => c.(pc := c.pc[i := if MayEat(c.st, i) then TakeGrant else TakeRelease])
    case TakeGrant => c.(st := c.st[i := Eating], pc := c.pc[i := TakeUp])
    case TakeUp => UpOf(c, i, i, TakeRelease)
    case TakeRelease => c.(mutex := c.mutex.Up(), pc := Wake(c.pc[i := WaitDown], c.mutex))
    case WaitDown => c.(s := c.s[i := c.s[i].Down(i)], pc := c.pc[i := if c.s[i].Blocks() then WaitAsleep else Eats])
    case Eats => c.(pc := c.pc[i := PutDown])
    case PutDown => c.(mutex := c.mutex.Down(i), pc := c.pc[i := if c.mutex.Blocks() then PutAsleep else PutSet])
    case PutSet => c.(st := c.st[i := Thinking], pc := c.pc[i := PutTest(L)])
    case PutTest(side) =>
      var next := if MayEat(c.st, Beside(i, side, n)) then PutGrant(side) else AfterTest(side);
      c.(pc := c.pc[i := next])
    case PutGrant(side) => c.(st := c.st[Beside(i, side, n) := Eating], pc := c.pc[i := PutUp(side)])
    case PutUp(side) => UpOf(c, i, Beside(i, side, n), AfterTest(side))
    case PutRelease => c.(mutex := c.mutex.Up(), pc := Wake(c.pc[i := Thinks], c.mutex))
    case _ => c
  }

  // ---------- the invariant ----------

  /** Between down(&mutex) and up(&mutex). */
  predicate Inside(pc: PC) {
    pc.TakeSet? || pc.TakeTest? || pc.TakeGrant? || pc.TakeUp? || pc.TakeRelease? ||
    pc.PutSet? || pc.PutTest? || pc.PutGrant? || pc.PutUp? || pc.PutRelease?
  }

  ghost predicate MutexGood(c: State, free: bool) {
    && (forall i, j :: 0 <= i < j < |c.mutex.queue| ==> c.mutex.queue[i] != c.mutex.queue[j])
    && (forall p :: p in c.mutex.queue ==> p < |c.pc| && (c.pc[p].TakeAsleep? || c.pc[p].PutAsleep?))
    && (forall p: Pid :: p < |c.pc| && (c.pc[p].TakeAsleep? || c.pc[p].PutAsleep?) ==> p in c.mutex.queue)
    && c.mutex.value == (if free then 1 else 0) && (free ==> c.mutex.queue == [])
  }

  ghost predicate OnlyInside(c: State, free: bool, h: nat) {
    forall p: nat :: p < |c.pc| ==> (Inside(c.pc[p]) <==> !free && p == h)
  }

  ghost predicate MoodFits(pc: PC, st: Mood) {
    match pc
    case Thinks => st == Thinking
    case TakeDown => st == Thinking
    case TakeAsleep => st == Thinking
    case TakeSet => st == Thinking
    case TakeTest => st == Hungry
    case TakeGrant => st == Hungry
    case TakeUp => st == Eating
    case TakeRelease => st != Thinking
    case WaitDown => st != Thinking
    case WaitAsleep => st != Thinking
    case Eats => st == Eating
    case PutDown => st == Eating
    case PutAsleep => st == Eating
    case PutSet => st == Eating
    case _ => st == Thinking
  }

  /** The private semaphore of i holds at most one grant, and one exactly when i was let eat and has not taken it. */
  ghost predicate GrantFits(s: Sem, pc: PC, st: Mood, i: nat, promised: bool) {
    && s.queue == (if pc.WaitAsleep? then [i] else [])
    && s.value == (if (pc.TakeRelease? || pc.WaitDown?) && st == Eating && !promised then 1 else 0)
    && (pc.WaitAsleep? && st == Eating ==> promised)
  }

  /** j was let eat by i, which has still to up j's semaphore. */
  ghost predicate Promises(c: State, i: nat, j: nat)
    requires WellFormed(c)
  {
    i < |c.st| && c.pc[i].PutUp? && j == Beside(i, c.pc[i].side, |c.st|)
  }

  ghost predicate Local(c: State, free: bool, h: nat, i: nat)
    requires WellFormed(c) && i < |c.st|
  {
    && MoodFits(c.pc[i], c.st[i])
    && GrantFits(c.s[i], c.pc[i], c.st[i], i, !free && Promises(c, h, i))
    && (c.pc[i] == TakeGrant ==> MayEat(c.st, i))
    && (c.pc[i].PutGrant? ==> MayEat(c.st, Beside(i, c.pc[i].side, |c.st|)))
    && (!free && Promises(c, h, i) ==> c.st[i] == Eating && (c.pc[i].WaitDown? || c.pc[i].WaitAsleep?))
  }

  ghost predicate WillTest(c: State, i: nat, j: nat)
    requires WellFormed(c)
  {
    && i < |c.st|
    && var n := |c.st|;
       match c.pc[i]
       case TakeTest => i == j
       case TakeGrant => i == j
       case PutTest(side) => j == Right(i, n) || (side == L && j == Left(i, n))
       case PutGrant(side) => j == Right(i, n) || (side == L && j == Left(i, n))
       case PutUp(side) => side == L && j == Right(i, n)
       case _ => false
  }

  /** Process h is between down and up of the mutex, or the mutex is free. */
  ghost predicate SInv(c: State, free: bool, h: nat) {
    && WellFormed(c) && h < |c.st| && MutexGood(c, free) && OnlyInside(c, free, h) && Polite(c.st)
    && (forall i: nat :: i < |c.st| ==> Local(c, free, h, i))
    && (forall j: nat :: j < |c.st| && MayEat(c.st, j) ==> !free && WillTest(c, h, j))
  }

  lemma InitSInv(n: nat)
    requires n >= 2
    ensures SInv(Init(n), true, 0)
  {
  }

  // ---------- steps ----------

  /** A step that leaves both kinds of semaphores alone. */
  lemma DataStep(c: State, free: bool, h: nat, i: nat, x: nat, v: Mood, p: PC, c': State)
    requires SInv(c, free, h) && CanStep(c, i) && x < |c.st| && Awake(p) && Inside(p) == Inside(c.pc[i])
    requires c' == c.(st := c.st[x := v], pc := c.pc[i := p])
    requires Polite(c'.st) && Local(c', free, h, i) && !c.pc[i].PutUp?
    requires Inside(p) || (x == i && v == c.st[i])
    requires x != i ==> v == Eating && c.st[x] == Hungry && Promises(c', i, x)
    requires x == i ==> !p.PutUp?
    requires forall j: nat :: j < |c.st| && MayEat(c'.st, j) ==> !free && WillTest(c', h, j)
    ensures SInv(c', free, h)
  {
    assert Local(c, free, h, i);
    forall q: nat | q < |c.st| && q != i ensures Local(c', free, h, q) {
      assert Local(c, free, h, q);
    }
  }

  /** Coming and going outside the critical section. */
  lemma RestStep(c: State, free: bool, h: nat, i: nat)
    requires SInv(c, free, h) && CanStep(c, i) && (c.pc[i] == Thinks || c.pc[i] == Eats)
    ensures SInv(Step(c, i), free, h)
  {
    assert Local(c, free, h, i);
    forall j: nat | j < |c.st| && MayEat(c.st, j) ensures !free && WillTest(Step(c, i), h, j) {
      assert WillTest(c, h, j);
    }
    DataStep(c, free, h, i, i, c.st[i], Step(c, i).pc[i], Step(c, i));
  }

  lemma TakeMoodStep(c: State, free: bool, h: nat, i: nat)
    requires SInv(c, free, h) && CanStep(c, i) && (c.pc[i] == TakeSet || c.pc[i] == TakeTest || c.pc[i] == TakeGrant)
    ensures SInv(Step(c, i), free, h)
  {
    assert Local(c, free, h, i);
    var c' := Step(c, i);
    if c.pc[i] == TakeGrant {
      EatPolitely(c.st, i);
    }
    forall j: nat | j < |c.st| && MayEat(c'.st, j) ensures WillTest(c', i, j) {
      assert MayEat(c.st, j) ==> WillTest(c, h, j);
    }
    DataStep(c, free, h, i, i, c'.st[i], c'.pc[i], c');
  }

  lemma PutMoodStep(c: State, free: bool, h: nat, i: nat)
    requires SInv(c, free, h) && CanStep(c, i) && (c.pc[i] == PutSet || c.pc[i].PutTest?)
    ensures SInv(Step(c, i), free, h)
  {
    assert Local(c, free, h, i);
    var c' := Step(c, i);
    forall j: nat | j < |c.st| && MayEat(c'.st, j) ensures WillTest(c', i, j) {
      assert MayEat(c.st, j) ==> WillTest(c, h, j);
    }
    DataStep(c, free, h, i, i, c'.st[i], c'.pc[i], c');
  }

  lemma PutGrantStep(c: State, free: bool, h: nat, i: nat)
    requires SInv(c, free, h) && CanStep(c, i) && c.pc[i].PutGrant?
    ensures SInv(Step(c, i), free, h)
  {
    assert Local(c, free, h, i);
    var c' := Step(c, i);
    var x := Beside(i, c.pc[i].side, |c.st|);
    assert Local(c, free, h, x);
    EatPolitely(c.st, x);
    forall j: nat | j < |c.st| && MayEat(c'.st, j) ensures WillTest(c', i, j) {
      assert MayEat(c.st, j) ==> WillTest(c, h, j);
    }
    DataStep(c, free, h, i, x, Eating, PutUp(c.pc[i].side), c');
  }

  lemma LockMutex(c: State, free: bool, h: nat, i: nat, c': State)
    requires WellFormed(c) && i < |c.st| && MutexGood(c, free) && OnlyInside(c, free, h)
    requires (c.pc[i] == TakeDown || c.pc[i] == PutDown)
    requires c' == Step(c, i)
    ensures MutexGood(c', false) && OnlyInside(c', false, if free then i else h)
  {
    var q := c.mutex.queue;
    assert forall r :: r in q + [i] <==> r in q || r == i;
  }

  /** down(&mutex). */
  lemma MutexDownStep(c: State, free: bool, h: nat, i: nat)
    requires SInv(c, free, h) && CanStep(c, i) && (c.pc[i] == TakeDown || c.pc[i] == PutDown)
    ensures SInv(Step(c, i), false, if free then i else h)
  {
    var c' := Step(c, i);
    var h' := if free then i else h;
    LockMutex(c, free, h, i, c');
    forall q: nat | q < |c.st| ensures Local(c', false, h', q) {
      assert Local(c, free, h, q) && Local(c, free, h, i);
    }
    forall j: nat | j < |c.st| && MayEat(c'.st, j) ensures WillTest(c', h', j) {
      assert WillTest(c, h, j);
    }
  }

  /** down(&s[i]). */
  lemma WaitDownStep(c: State, free: bool, h: nat, i: nat)
    requires SInv(c, free, h) && CanStep(c, i) && c.pc[i] == WaitDown
    ensures SInv(Step(c, i), free, h)
  {
    var c' := Step(c, i);
    assert Local(c, free, h, i);
    forall q: nat | q < |c.st| ensures Local(c', free, h, q) {
      assert Local(c, free, h, q);
    }
    forall j: nat | j < |c.st| && MayEat(c'.st, j) ensures !free && WillTest(c', h, j) {
      assert WillTest(c, h, j);
    }
  }

  /** up(&s[i]) by i itself: it will not have to wait. */
  lemma OwnGrantStep(c: State, free: bool, h: nat, i: nat)
    requires SInv(c, free, h) && CanStep(c, i) && c.pc[i] == TakeUp
    ensures SInv(Step(c, i), free, h)
  {
    var c' := Step(c, i);
    assert Local(c, free, h, i);
    forall q: nat | q < |c.st| ensures Local(c', free, h, q) {
      assert Local(c, free, h, q);
    }
    forall j: nat | j < |c.st| ensures c.st[j] == Hungry ==> !MayEat(c.st, j) {
      assert MayEat(c.st, j) ==> WillTest(c, h, j);
    }
  }

  /** up(&s[x]) by a neighbour: the grant reaches x, which goes on at once or finds it later. */
  lemma GrantStep(c: State, free: bool, h: nat, i: nat)
    requires SInv(c, free, h) && CanStep(c, i) && c.pc[i].PutUp?
    ensures SInv(Step(c, i), free, h)
  {
    var c' := Step(c, i);
    var x := Beside(i, c.pc[i].side, |c.st|);
    assert Local(c, free, h, i) && Local(c, free, h, x);
    assert c'.pc == if c.pc[x] == WaitAsleep then c.pc[i := AfterTest(c.pc[i].side)][x := Eats]
        else c.pc[i := AfterTest(c.pc[i].side)];
    forall q: nat | q < |c.st| ensures Local(c', free, h, q) {
      assert Local(c, free, h, q);
    }
    forall j: nat | j < |c.st| && MayEat(c'.st, j) ensures !free && WillTest(c', h, j) {
      assert WillTest(c, h, j);
    }
  }

  lemma ReleasedPc(c: State, i: nat, x: PC, p: nat)
    requires i < |c.pc| && p < |c.pc| && (c.mutex.queue != [] ==> c.mutex.queue[0] < |c.pc| && c.mutex.queue[0] != i)
    ensures |Wake(c.pc[i := x], c.mutex)| == |c.pc|
    ensures Wake(c.pc[i := x], c.mutex)[p] ==
            if p == i then x else if c.mutex.queue != [] && p == c.mutex.queue[0] then Woken(c.pc[p]) else c.pc[p]
  {
    hide Woken;
  }

  lemma ReleaseMutex(c: State, h: nat, i: nat, x: PC, c': State)
    requires WellFormed(c) && i < |c.st| && MutexGood(c, false) && OnlyInside(c, false, h) && Inside(c.pc[i])
    requires Awake(x) && !Inside(x) && c' == c.(mutex := c.mutex.Up(), pc := Wake(c.pc[i := x], c.mutex))
    ensures MutexGood(c', c.mutex.queue == [])
    ensures OnlyInside(c', c.mutex.queue == [], if c.mutex.queue == [] then h else c.mutex.queue[0])
    ensures forall p: nat :: p < |c.st| ==>
      c'.pc[p] == if p == i then x else if c.mutex.queue != [] && p == c.mutex.queue[0] then Woken(c.pc[p]) else c.pc[p]
  {
    hide Wake;
    var q := c.mutex.queue;
    if q != [] {
      assert q[0] in q && q[0] !in q[1..];
      assert forall r :: r in q <==> r == q[0] || r in q[1..];
    }
    ReleasedPc(c, i, x, i);
    forall p: nat | p < |c.st|
        ensures c'.pc[p] == if p == i then x else if q != [] && p == q[0] then Woken(c.pc[p]) else c.pc[p] {
      ReleasedPc(c, i, x, p);
    }
  }

  /** What a release of the mutex by i leaves of philosopher p. */
  lemma ReleaseLocal(c: State, h: nat, i: nat, c': State, free': bool, h': nat, p: nat)
    requires WellFormed(c) && WellFormed(c') && c'.st == c.st && c'.s == c.s && p < |c.st| && h == i < |c.st|
    requires h' < |c.st|
    requires Local(c, false, h, p) && (c.pc[i] == TakeRelease || c.pc[i] == PutRelease)
    requires p == i ==> c'.pc[p] == if c.pc[i] == TakeRelease then WaitDown else Thinks
    requires p != i && c'.pc[p] != c.pc[p] ==>
               !free' && p == h' && (c.pc[p].TakeAsleep? || c.pc[p].PutAsleep?) && c'.pc[p] == Woken(c.pc[p])
    requires !free' ==> c'.pc[h'].TakeSet? || c'.pc[h'].PutSet?
    ensures Local(c', free', h', p)
  {
  }

  /** up(&mutex): it passes to the first that waits, or is free. */
  lemma ReleaseStep(c: State, free: bool, h: nat, i: nat)
    requires SInv(c, free, h) && CanStep(c, i) && (c.pc[i] == TakeRelease || c.pc[i] == PutRelease)
    ensures SInv(Step(c, i), c.mutex.queue == [], if c.mutex.queue == [] then h else c.mutex.queue[0])
  {
    hide Polite, Local, GrantFits, MoodFits;
    var c' := Step(c, i);
    var q := c.mutex.queue;
    ReleaseMutex(c, h, i, if c.pc[i] == TakeRelease then WaitDown else Thinks, c');
    assert q != [] ==> q[0] in q;
    assert Inside(c.pc[i]);
    var free', h' := q == [], if q == [] then h else q[0];
    forall p: nat | p < |c.st| ensures Local(c', free', h', p) {
      assert Local(c, free, h, p);
      ReleaseLocal(c, h, i, c', free', h', p);
    }
    forall j: nat | j < |c.st| ensures c.st[j] == Hungry ==> !MayEat(c.st, j) {
      assert MayEat(c.st, j) ==> WillTest(c, h, j);
    }
  }

  // ---------- all runs ----------

  lemma StepSInv(c: State, free: bool, h: nat, i: nat) returns (free': bool, h': nat)
    requires SInv(c, free, h) && CanStep(c, i)
    ensures SInv(Step(c, i), free', h')
  {
    var pc := c.pc[i];
    free', h' := free, h;
    if pc == Thinks || pc == Eats {
      RestStep(c, free, h, i);
    } else if pc == TakeSet || pc == TakeTest || pc == TakeGrant {
      TakeMoodStep(c, free, h, i);
    } else if pc == PutSet || pc.PutTest? {
      PutMoodStep(c, free, h, i);
    } else if pc.PutGrant? {
      PutGrantStep(c, free, h, i);
    } else if pc == WaitDown {
      WaitDownStep(c, free, h, i);
    } else if pc == TakeUp {
      OwnGrantStep(c, free, h, i);
    } else if pc.PutUp? {
      GrantStep(c, free, h, i);
    } else if pc == TakeDown || pc == PutDown {
      MutexDownStep(c, free, h, i);
      free', h' := false, if free then i else h;
    } else {
      ReleaseStep(c, free, h, i);
      free', h' := c.mutex.queue == [], if c.mutex.queue == [] then h else c.mutex.queue[0];
    }
  }

  /** A run: any philosopher that is not asleep takes the next step. */
  ghost predicate Run(c: State, who: seq<nat>, c': State)
    decreases |who|
  {
    if who == [] then c' == c else CanStep(c, who[0]) && Run(Step(c, who[0]), who[1..], c')
  }

  lemma {:induction false} RunSInv(c: State, free: bool, h: nat, who: seq<nat>, c': State)
    returns (free': bool, h': nat)
    requires SInv(c, free, h) && Run(c, who, c')
    ensures SInv(c', free', h') && |c'.st| == |c.st|
    decreases |who|
  {
    free', h' := free, h;
    if who != [] {
      free', h' := StepSInv(c, free, h, who[0]);
      free', h' := RunSInv(Step(c, who[0]), free', h', who[1..], c');
    }
  }

  /** After every run: no two neighbours eat; a philosopher past down(&s[i]) eats with both forks; every private
      semaphore is 0 or 1 and is 1 only for a philosopher that was let eat and has not taken the grant yet; and
      whenever the mutex is free no hungry philosopher could eat. */
  lemma Safe(n: nat, who: seq<nat>, c: State, i: nat)
    requires n >= 2 && Run(Init(n), who, c) && i < n
    ensures WellFormed(c) && |c.st| == n && Polite(c.st)
    ensures c.pc[i] == Eats || c.pc[i] == PutDown ==>
              c.st[i] == Eating && c.st[Left(i, n)] != Eating && c.st[Right(i, n)] != Eating
    ensures 0 <= c.s[i].value <= 1
    ensures c.s[i].value == 1 ==>
              c.st[i] == Eating && (c.pc[i] == TakeRelease || c.pc[i] == WaitDown) && c.s[i].queue == []
    ensures c.mutex.value == 1 ==> !MayEat(c.st, i)
    ensures c.mutex.value == 1 && c.pc[i] == WaitAsleep ==>
              c.st[i] == Hungry && (c.st[Left(i, n)] == Eating || c.st[Right(i, n)] == Eating)
  {
    InitSInv(n);
    var free, h := RunSInv(Init(n), true, 0, who, c);
    assert Local(c, free, h, i);
  }

  /** There is no deadlock: after every run some philosopher can take a step. */
  lemma NoDeadlock(n: nat, who: seq<nat>, c: State)
    requires n >= 2 && Run(Init(n), who, c)
    ensures exists i: nat :: CanStep(c, i)
  {
    InitSInv(n);
    var free, h := RunSInv(Init(n), true, 0, who, c);
    var i := SomeoneAwake(c, free, h, 0);
    assert CanStep(c, i);
  }

  /** If j is not thinking then somebody who is not thinking is awake. */
  lemma SomeoneAwake(c: State, free: bool, h: nat, j: nat) returns (i: nat)
    requires SInv(c, free, h) && j < |c.st|
    ensures CanStep(c, i) && (c.pc[j] != Thinks ==> c.pc[i] != Thinks)
  {
    i := h;
    assert Inside(c.pc[h]) <==> !free;
    if free {
      i := j;
      assert Local(c, free, h, j) && !MayEat(c.st, j);
      if !Awake(c.pc[j]) {
        i := if c.st[Left(j, |c.st|)] == Eating then Left(j, |c.st|) else Right(j, |c.st|);
        assert Local(c, free, h, i);
      }
    }
  }
}
