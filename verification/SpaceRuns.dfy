/** Whole runs of the memory of all processes: address spaces are made, changed, faulted in, copied and given up, in
    any order (kern/mm/vmm.c, kern/process/proc.c). */
module SpaceRuns {
  import opened VmaSpec
  import Vmm
  import P = PageTables
  import opened A = AddressSpaces

  /** Processes are named by their place in the table. */
  datatype Event =
    | Exec
    | Map(p: nat, addr: nat, len: nat, flags: bv32)
    | Unmap(p: nat, addr: nat, len: nat)
    | Brk(p: nat, addr: nat, len: nat)
    | Fault(p: nat, code: bv32, addr: nat)
    | Fork(p: nat)
    | Exit(p: nat)

  type Table = seq<UserSpace>

  /** No two processes share a directory or a list of areas. */
  ghost predicate Apart(ps: Table)
    reads Mms(ps)
  {
    forall i, j :: 0 <= i < j < |ps| ==>
      ps[i].pgdir != ps[j].pgdir && ps[i].mm != ps[j].mm && forall x :: x in ps[i].mm.list ==> x !in ps[j].mm.list
  }

  ghost function Mms(ps: Table): (mms: set<object>)
    ensures forall k :: 0 <= k < |ps| ==> ps[k].mm in mms
  {
    set k | 0 <= k < |ps| :: ps[k].mm
  }

  ghost function Areas(ps: Table): (areas: set<object>)
    reads Mms(ps)
    ensures forall k, x :: 0 <= k < |ps| && x in ps[k].mm.list ==> x in areas
  {
    set k, x | 0 <= k < |ps| && x in ps[k].mm.list :: x
  }

  /** Every process is in order, and there are no directories but theirs. */
  ghost predicate Sound(mmu: P.Mmu, ps: Table)
    reads mmu, Mms(ps), Areas(ps)
  {
    && mmu.Valid() && Apart(ps) && (forall k :: 0 <= k < |ps| ==> ps[k].mmu == mmu && ps[k].Valid())
    && (forall k :: 0 <= k < |ps| ==> ps[k].pgdir in mmu.space) && Known(ps, mmu.space)
  }

  /** Every directory is that of a process. */
  ghost predicate Known(ps: Table, s: P.Space) {
    forall d :: d in s ==> exists k :: 0 <= k < |ps| && ps[k].pgdir == d
  }

  /** All tables lie beneath areas, and no page is lost. */
  ghost predicate Tidy(mmu: P.Mmu, ps: Table)
    reads mmu, Mms(ps)
  {
    mmu.Lost() == {} && forall k :: 0 <= k < |ps| ==> Covered(mmu.space, ps[k].pgdir, ps[k].mm.view)
  }

  // ---------- one process and the others ----------

  ghost function Rest(ps: Table, k: nat): Table
    requires k < |ps|
  {
    ps[..k] + ps[k + 1..]
  }

  /** The processes of rest are in order in a memory with the mappings s, and d is not the directory of any. */
  ghost predicate Held(mmu: P.Mmu, rest: Table, s: P.Space, d: nat)
    reads Mms(rest), Areas(rest)
  {
    Apart(rest) && forall j :: 0 <= j < |rest| ==>
      && rest[j].mmu == mmu && rest[j].mm.Valid() && InUserPart(rest[j].mm.view)
      && Backed(rest[j].mm.view, s, rest[j].pgdir) && rest[j].pgdir in s && rest[j].pgdir != d
  }

  ghost predicate HeldCovered(rest: Table, s: P.Space)
    reads Mms(rest)
  {
    forall j :: 0 <= j < |rest| ==> Covered(s, rest[j].pgdir, rest[j].mm.view)
  }

  /** Process u shares no area with those of rest. */
  ghost predicate Stranger(u: UserSpace, rest: Table)
    reads u.mm, Mms(rest)
  {
    forall j :: 0 <= j < |rest| ==> rest[j].mm != u.mm && forall x :: x in u.mm.list ==> x !in rest[j].mm.list
  }

  lemma RestAt(ps: Table, k: nat)
    requires k < |ps|
    ensures |Rest(ps, k)| == |ps| - 1
    ensures forall j :: 0 <= j < |ps| - 1 ==> Rest(ps, k)[j] == ps[if j < k then j else j + 1]
  {
  }

  lemma RestHas(ps: Table, k: nat, j: nat)
    requires k < |ps| && j < |ps| && j != k
    ensures var i: int := if j < k then j else j - 1; 0 <= i < |Rest(ps, k)| && Rest(ps, k)[i] == ps[j]
  {
  }

  lemma Take(mmu: P.Mmu, ps: Table, k: nat)
    requires Sound(mmu, ps) && k < |ps|
    ensures mmu.Valid() && ps[k].Valid() && ps[k].mmu == mmu && Known(ps, mmu.space)
    ensures Held(mmu, Rest(ps, k), mmu.space, ps[k].pgdir) && Stranger(ps[k], Rest(ps, k))
    ensures Tidy(mmu, ps) ==>
              && mmu.Lost() == {} && HeldCovered(Rest(ps, k), mmu.space)
              && Covered(mmu.space, ps[k].pgdir, ps[k].mm.view)
  {
    hide Backed, InUserPart, Good, Covered, P.Counted, P.Placed, P.Shaped, Vmm.Mm.Valid, P.Mmu.Lost, Rest;
    RestAt(ps, k);
    var rest := Rest(ps, k);
    forall j | 0 <= j < |rest|
      ensures rest[j].mmu == mmu && rest[j].mm.Valid() && InUserPart(rest[j].mm.view)
      ensures Backed(rest[j].mm.view, mmu.space, rest[j].pgdir) && rest[j].pgdir in mmu.space
    {
      assert ps[if j < k then j else j + 1].Valid();
    }
  }

  lemma Still(mmu: P.Mmu, u: UserSpace, s: P.Space, d: nat)
    requires mmu.Valid() && u.mmu == mmu && u.mm.Valid() && InUserPart(u.mm.view) && u.pgdir in s && u.pgdir != d
    requires Backed(u.mm.view, s, u.pgdir) && OnlyDir(s, mmu.space, d)
    ensures u.Valid() && (Covered(s, u.pgdir, u.mm.view) ==> Covered(mmu.space, u.pgdir, u.mm.view))
  {
    hide P.Entry, Lookup, Covers, Good, P.Counted, P.Placed, P.Shaped, Vmm.Mm.Valid, InUserPart;
    forall y: nat ensures BackedAt(u.mm.view, P.Entry(mmu.space, u.pgdir, y), y) {
      assert BackedAt(u.mm.view, P.Entry(s, u.pgdir, y), y);
    }
  }

  /** What changes only the directory d leaves the others in order. */
  lemma AllStill(mmu: P.Mmu, rest: Table, s: P.Space, d: nat)
    requires mmu.Valid() && Held(mmu, rest, s, d) && OnlyDir(s, mmu.space, d)
    ensures forall j :: 0 <= j < |rest| ==> rest[j].mmu == mmu && rest[j].Valid()
    ensures HeldCovered(rest, s) ==> HeldCovered(rest, mmu.space)
  {
    hide Backed, InUserPart, Good, Covered, P.Counted, P.Placed, P.Shaped, Vmm.Mm.Valid, OnlyDir;
    forall j | 0 <= j < |rest|
      ensures rest[j].Valid()
      ensures Covered(s, rest[j].pgdir, rest[j].mm.view) ==> Covered(mmu.space, rest[j].pgdir, rest[j].mm.view)
    {
      Still(mmu, rest[j], s, d);
    }
  }

  lemma BackApart(ps: Table, k: nat)
    requires k < |ps| && Apart(Rest(ps, k)) && Stranger(ps[k], Rest(ps, k))
    requires forall j :: 0 <= j < |ps| && j != k ==> ps[j].pgdir != ps[k].pgdir
    ensures Apart(ps)
  {
    hide Rest;
    forall i, j | 0 <= i < j < |ps|
      ensures ps[i].pgdir != ps[j].pgdir && ps[i].mm != ps[j].mm
      ensures forall x :: x in ps[i].mm.list ==> x !in ps[j].mm.list
    {
      if i == k {
        RestHas(ps, k, j);
      } else if j == k {
        RestHas(ps, k, i);
      } else {
        RestHas(ps, k, i);
        RestHas(ps, k, j);
      }
    }
  }

  /** Process k has changed, and nothing of the others. */
  lemma Back(mmu: P.Mmu, ps: Table, k: nat, s: P.Space)
    requires k < |ps| && ps[k].mmu == mmu && ps[k].Valid() && Stranger(ps[k], Rest(ps, k))
    requires Held(mmu, Rest(ps, k), s, ps[k].pgdir) && OnlyDir(s, mmu.space, ps[k].pgdir)
    requires Known(ps, mmu.space)
    ensures Sound(mmu, ps)
    ensures mmu.Lost() == {} && HeldCovered(Rest(ps, k), s) && Covered(mmu.space, ps[k].pgdir, ps[k].mm.view) ==>
              Tidy(mmu, ps)
  {
    hide Backed, InUserPart, Good, Covered, P.Counted, P.Placed, P.Shaped, Vmm.Mm.Valid, OnlyDir, Rest, P.Mmu.Lost;
    AllStill(mmu, Rest(ps, k), s, ps[k].pgdir);
    forall j: nat | j < |ps| && j != k
        ensures ps[j].mmu == mmu && ps[j].Valid() && ps[j].pgdir != ps[k].pgdir && ps[j].pgdir in s
        ensures HeldCovered(Rest(ps, k), s) ==> Covered(mmu.space, ps[j].pgdir, ps[j].mm.view) {
      RestHas(ps, k, j);
    }
    BackApart(ps, k);
  }

  lemma Untouched(mmu: P.Mmu, u: UserSpace, rest: Table)
    requires Stranger(u, rest)
    ensures u.mm !in Mms(rest) && mmu !in Mms(rest) && mmu !in Areas(rest) && u.mm !in Areas(rest)
    ensures forall x :: x in u.mm.list ==> x !in Areas(rest) && x !in Mms(rest)
  {
    var mm: object := u.mm;
    assert mm is Vmm.Mm;
    var m: object := mmu;
    assert m is P.Mmu;
  }

  lemma NewStranger(u: UserSpace, ps: Table)
    requires u.mm !in Mms(ps) && forall x :: x in u.mm.list ==> x !in Areas(ps)
    ensures Stranger(u, ps)
  {
  }

  lemma KnownKeys(ps: Table, s: P.Space, t: P.Space)
    requires Known(ps, s) && t.Keys == s.Keys
    ensures Known(ps, t)
  {
  }

  ghost predicate Word(n: nat) {
    n < 0x1_0000_0000
  }

  // ---------- what an event does to a process: its areas v become w, and the mappings s of memory t ----------

  ghost predicate MapDone(v: seq<Region>, w: seq<Region>, addr: nat, len: nat, flags: bv32) {
    if Accepts(addr, len) && !Mapped(v, addr) then Puts(v, w, addr, len, Some(flags)) else w == v
  }

  ghost predicate UnmapDone(v: seq<Region>, w: seq<Region>, s: P.Space, t: P.Space, d: nat, addr: nat, len: nat) {
    if Accepts(addr, len) && Mapped(v, addr) then Puts(v, w, addr, len, None) && Emptied(s, t, d, addr, len)
    else w == v && P.SameEntries(s, t)
  }

  ghost predicate BrkDone(v: seq<Region>, w: seq<Region>, s: P.Space, t: P.Space, d: nat, addr: nat, len: nat) {
    if Accepts(addr, len) then Puts(v, w, addr, len, Some(VM_READ | VM_WRITE)) && Emptied(s, t, d, addr, len)
    else w == v && P.SameEntries(s, t)
  }

  ghost predicate FaultDone(v: seq<Region>, m: P.Memory, t: P.Space, d: nat, code: bv32, addr: nat)
    requires d in m.space
  {
    if !Refused(v, addr, code) && PageInResult(m.space, m.free, d, addr / 4096) == Done
      then exists page :: page in m.free && P.OneEntry(m.space, t, d, addr / 4096, FaultEntry(v, addr, page))
      else P.SameEntries(m.space, t)
  }

  lemma UnmapDoneIs(v: seq<Region>, w: seq<Region>, s: P.Space, t: P.Space, d: nat, addr: nat, len: nat, ok: bool)
    requires Good(v) && addr < 0x1_0000_0000 && len < 0x1_0000_0000 && (ok <==> Accepts(addr, len))
    requires w == if ok then Unmapped(v, First(addr), Last(addr, len)) else v
    requires ok && Mapped(v, addr) ==> Puts(v, w, addr, len, None) && Emptied(s, t, d, addr, len)
    requires !(ok && Mapped(v, First(addr))) ==> P.SameEntries(s, t)
    ensures UnmapDone(v, w, s, t, d, addr, len)
  {
    hide P.SameEntries, Puts, Emptied, Accepts, Good;
    MappedByPage(v, addr);
  }

  lemma GoodAreas(u: UserSpace)
    requires u.Valid()
    ensures Good(u.mm.view) && u.pgdir in u.mmu.space
  {
    hide Good;
  }

  method UnmapAt(mmu: P.Mmu, ps: Table, k: nat, addr: nat, len: nat)
    requires Sound(mmu, ps) && k < |ps| && Word(addr) && Word(len)
    modifies mmu, ps[k].mm, ps[k].mm.list
    ensures Sound(mmu, ps) && mmu.Lost() == old(mmu.Lost()) && mmu.ref.Keys == old(mmu.ref.Keys)
    ensures UnmapDone(old(ps[k].mm.view), ps[k].mm.view, old(mmu.space), mmu.space, ps[k].pgdir, addr, len)
    ensures forall i :: 0 <= i < |ps[k].mm.list| ==> ps[k].mm.list[i] in old(ps[k].mm.list) || fresh(ps[k].mm.list[i])
  {
    hide P.Mmu.Valid, UserSpace.Valid, Covered, P.Mmu.Lost, OnlyDir, HeldCovered, Held, Known, Sound, Tidy, Apart,
      Stranger, Rest, First, Last, Unmapped, Mapped, Vacated, Vacant, P.SameEntries, UnmapDone, Accepts, Puts, Emptied,
      Good;
    Take(mmu, ps, k);
    ghost var s, rest, v := mmu.space, Rest(ps, k), ps[k].mm.view;
    assert allocated(Areas(rest)) && allocated(Mms(rest));
    Untouched(mmu, ps[k], rest);
    GoodAreas(ps[k]);
    var ret := ps[k].Unmap(addr, len);
    UnmapDoneIs(v, ps[k].mm.view, s, mmu.space, ps[k].pgdir, addr, len, ret.Ok?);
    NewStranger(ps[k], rest);
    KnownKeys(ps, s, mmu.space);
    Back(mmu, ps, k, s);
  }

  /** False when an assertion fails. */
  method MapAt(mmu: P.Mmu, ps: Table, k: nat, addr: nat, len: nat, flags: bv32) returns (ok: bool)
    requires Sound(mmu, ps) && k < |ps| && Word(addr) && Word(len)
    modifies ps[k].mm
    ensures Sound(mmu, ps) && (old(Tidy(mmu, ps)) ==> Tidy(mmu, ps))
    ensures ok ==> MapDone(old(ps[k].mm.view), ps[k].mm.view, addr, len, flags)
    ensures forall i :: 0 <= i < |ps[k].mm.list| ==> ps[k].mm.list[i] in old(ps[k].mm.list) || fresh(ps[k].mm.list[i])
  {
    hide P.Mmu.Valid, UserSpace.Valid, Covered, P.Mmu.Lost, OnlyDir, HeldCovered, Held, Known, Sound, Tidy, Apart,
      Stranger, Rest, First, Last, Sets, Accepts, Puts, Mapped;
    Take(mmu, ps, k);
    ghost var s, rest := mmu.space, Rest(ps, k);
    assert allocated(Areas(rest)) && allocated(Mms(rest));
    Untouched(mmu, ps[k], rest);
    OnlyDirNone(s, ps[k].pgdir);
    var ret := ps[k].Map(addr, len, flags);
    NewStranger(ps[k], rest);
    KnownKeys(ps, s, mmu.space);
    Back(mmu, ps, k, s);
    ok := !ret.Panic?;
  }

  /** do_pgfault. False when it ends in a panic, or needs a page from the disk. */
  method FaultAt(mmu: P.Mmu, ps: Table, k: nat, code: bv32, addr: nat) returns (ok: bool)
    requires Sound(mmu, ps) && k < |ps| && Word(addr)
    modifies mmu, ps[k].mm`cache
    ensures Sound(mmu, ps) && mmu.Lost() == old(mmu.Lost()) && mmu.ref.Keys == old(mmu.ref.Keys)
    ensures old(Tidy(mmu, ps)) ==> Tidy(mmu, ps)
    ensures ps[k].pgdir in old(mmu.space)
    ensures FaultDone(old(ps[k].mm.view), old(mmu.Snapshot()), mmu.space, ps[k].pgdir, code, addr)
    ensures ps[k].mm.view == old(ps[k].mm.view)
  {
    hide P.Mmu.Valid, UserSpace.Valid, Covered, P.Mmu.Lost, OnlyDir, HeldCovered, Held, Known, Sound, Tidy, Apart,
      Stranger, Rest, PageInResult, Allowed, P.OneEntry, P.SameEntries, Mapped, Refused, FaultEntry, Opened;
    Take(mmu, ps, k);
    GoodAreas(ps[k]);
    RefusedExactly(ps[k].mm.view, addr, code);
    ghost var s, rest := mmu.space, Rest(ps, k);
    assert allocated(Areas(rest)) && allocated(Mms(rest));
    Untouched(mmu, ps[k], rest);
    var ret;
    ghost var page;
    ret, page := ps[k].Fault(code, addr);
    NewStranger(ps[k], rest);
    KnownKeys(ps, s, mmu.space);
    Back(mmu, ps, k, s);
    ok := !ret.Panic? && !ret.SwapIn?;
  }

  /** Whether mm_brk sees all that is mapped in a range. */
  method Sees(mm: Vmm.Mm, s: nat, e: nat) returns (all: bool)
    requires mm.Valid()
    ensures all == Vmm.BrkSees(mm.view, s, e)
  {
    hide Good;
    Vmm.AllShown(mm.list, mm.view);
    LookupNone(mm.view, s);
    all := true;
    var k := 0;
    while k < |mm.list|
      invariant k <= |mm.list| && !exists j :: 0 <= j < k && In(mm.view[j], s)
      invariant all <==> forall j :: 0 <= j < k ==> Disjoint(mm.view[j], Region(s, e, VM_READ | VM_WRITE))
    {
      if mm.list[k].start <= s < mm.list[k].end {
        assert In(mm.view[k], s);
        return true;
      }
      all := all && (mm.list[k].end <= s || e <= mm.list[k].start);
      k := k + 1;
    }
  }

  /** mm_brk. False when an assertion fails, or areas come to overlap. */
  method BrkChecked(u: UserSpace, addr: nat, len: nat) returns (ok: bool)
    requires u.Valid() && Word(addr) && Word(len)
    modifies u.mm, u.mm.list, u.mmu
    ensures u.mmu.Lost() == old(u.mmu.Lost()) && u.mmu.ref.Keys == old(u.mmu.ref.Keys)
    ensures ok ==> u.Valid() && OnlyDir(old(u.mmu.space), u.mmu.space, u.pgdir)
    ensures ok ==> u.mmu.space.Keys == old(u.mmu.space.Keys)
    ensures ok && old(Covered(u.mmu.space, u.pgdir, u.mm.view)) ==> Covered(u.mmu.space, u.pgdir, u.mm.view)
    ensures ok ==> BrkDone(old(u.mm.view), u.mm.view, old(u.mmu.space), u.mmu.space, u.pgdir, addr, len)
    ensures forall i :: 0 <= i < |u.mm.list| ==> u.mm.list[i] in old(u.mm.list) || fresh(u.mm.list[i])
  {
    hide P.Mmu.Valid, Vmm.Mm.Valid, Backed, InUserPart, Covered, P.Mmu.Lost, OnlyDir, First, Last, Vacated, Vmm.BrkSees,
      Vmm.Becomes, P.SameEntries, Accepts, Puts, Emptied;
    var all := Sees(u.mm, First(addr), Last(addr, len));
    var ret := u.Brk(addr, len);
    ok := !ret.Panic? && (!ret.Ok? || all);
  }

  method BrkAt(mmu: P.Mmu, ps: Table, k: nat, addr: nat, len: nat) returns (ok: bool)
    requires Sound(mmu, ps) && k < |ps| && Word(addr) && Word(len)
    modifies mmu, ps[k].mm, ps[k].mm.list
    ensures mmu.Lost() == old(mmu.Lost()) && mmu.ref.Keys == old(mmu.ref.Keys)
    ensures ok ==> Sound(mmu, ps) && (old(Tidy(mmu, ps)) ==> Tidy(mmu, ps))
    ensures ok ==> BrkDone(old(ps[k].mm.view), ps[k].mm.view, old(mmu.space), mmu.space, ps[k].pgdir, addr, len)
    ensures forall i :: 0 <= i < |ps[k].mm.list| ==> ps[k].mm.list[i] in old(ps[k].mm.list) || fresh(ps[k].mm.list[i])
  {
    hide P.Mmu.Valid, UserSpace.Valid, Covered, P.Mmu.Lost, OnlyDir, HeldCovered, Held, Known, Sound, Tidy, Apart,
      Stranger, Rest, BrkDone;
    Take(mmu, ps, k);
    ghost var s, rest := mmu.space, Rest(ps, k);
    assert allocated(Areas(rest)) && allocated(Mms(rest));
    Untouched(mmu, ps[k], rest);
    ok := BrkChecked(ps[k], addr, len);
    if ok {
      NewStranger(ps[k], rest);
      KnownKeys(ps, s, mmu.space);
      Back(mmu, ps, k, s);
    }
  }

  // ---------- processes come and go ----------

  lemma {:induction false} Unused(ds: set<nat>) returns (d: nat)
    ensures forall x :: x in ds ==> x < d
    decreases ds
  {
    d := 0;
    if ds != {} {
      var x: nat :| x in ds;
      var e := Unused(ds - {x});
      d := if x < e then e else x + 1;
      assert forall y :: y in ds ==> y == x || y in ds - {x};
    }
  }

  lemma TakeAll(mmu: P.Mmu, ps: Table, d: nat)
    requires Sound(mmu, ps) && d !in mmu.space
    ensures mmu.Valid() && Held(mmu, ps, mmu.space, d) && Known(ps, mmu.space)
    ensures Tidy(mmu, ps) ==> mmu.Lost() == {} && HeldCovered(ps, mmu.space)
  {
    hide Backed, InUserPart, Good, Covered, P.Counted, P.Placed, P.Shaped, Vmm.Mm.Valid, P.Mmu.Lost;
    forall j | 0 <= j < |ps|
      ensures ps[j].mmu == mmu && ps[j].mm.Valid() && InUserPart(ps[j].mm.view)
      ensures Backed(ps[j].mm.view, mmu.space, ps[j].pgdir) && ps[j].pgdir in mmu.space
    {
      assert ps[j].Valid();
    }
  }

  lemma Renamed(mmu: P.Mmu, ps: Table, s: P.Space, x: nat, d: nat)
    requires Held(mmu, ps, s, x) && d !in s
    ensures Held(mmu, ps, s, d)
  {
    hide Backed, InUserPart, Vmm.Mm.Valid, Apart;
  }

  /** The mappings of all directories are the same, and nothing of the processes has changed. */
  lemma SameSound(mmu: P.Mmu, ps: Table, s: P.Space, d: nat)
    requires mmu.Valid() && Held(mmu, ps, s, d) && OnlyDir(s, mmu.space, d) && mmu.space.Keys == s.Keys && Known(ps, s)
    ensures Sound(mmu, ps) && (mmu.Lost() == {} && HeldCovered(ps, s) ==> Tidy(mmu, ps))
  {
    hide Backed, InUserPart, Good, Covered, P.Counted, P.Placed, P.Shaped, Vmm.Mm.Valid, OnlyDir, P.Mmu.Lost;
    AllStill(mmu, ps, s, d);
  }

  /** A new process. */
  lemma Joined(mmu: P.Mmu, ps: Table, u: UserSpace, s: P.Space)
    requires mmu.Valid() && Held(mmu, ps, s, u.pgdir) && u.mmu == mmu && u.Valid() && Stranger(u, ps)
    requires OnlyDir(s, mmu.space, u.pgdir) && Known(ps, s)
    ensures Sound(mmu, ps + [u])
    ensures mmu.Lost() == {} && HeldCovered(ps, s) && Covered(mmu.space, u.pgdir, u.mm.view) ==> Tidy(mmu, ps + [u])
  {
    hide Backed, InUserPart, Good, Covered, P.Counted, P.Placed, P.Shaped, Vmm.Mm.Valid, P.Mmu.Lost, P.Entry;
    var qs := ps + [u];
    assert qs[|ps|] == u;
    assert Rest(qs, |ps|) == ps;
    forall x | x in mmu.space ensures exists j :: 0 <= j < |qs| && qs[j].pgdir == x {
      if x == u.pgdir {
        assert qs[|ps|].pgdir == x;
      } else {
        var j :| 0 <= j < |ps| && ps[j].pgdir == x;
        assert qs[j].pgdir == x;
      }
    }
    Back(mmu, qs, |ps|, s);
  }

  /** A process has gone. */
  lemma Gone(mmu: P.Mmu, ps: Table, k: nat, s: P.Space)
    requires k < |ps| && mmu.Valid() && Held(mmu, Rest(ps, k), s, ps[k].pgdir) && OnlyDir(s, mmu.space, ps[k].pgdir)
    requires ps[k].pgdir !in mmu.space && Known(ps, s)
    ensures Sound(mmu, Rest(ps, k))
    ensures mmu.Lost() == {} && HeldCovered(Rest(ps, k), s) ==> Tidy(mmu, Rest(ps, k))
  {
    hide Backed, InUserPart, Good, Covered, P.Counted, P.Placed, P.Shaped, Vmm.Mm.Valid, P.Mmu.Lost, P.Entry, Rest;
    var rest := Rest(ps, k);
    AllStill(mmu, rest, s, ps[k].pgdir);
    forall x | x in mmu.space ensures exists j :: 0 <= j < |rest| && rest[j].pgdir == x {
      var j :| 0 <= j < |ps| && ps[j].pgdir == x;
      RestHas(ps, k, j);
    }
  }

  method ExecOne(mmu: P.Mmu, ps: Table) returns (qs: Table)
    requires Sound(mmu, ps)
    modifies mmu
    ensures Sound(mmu, qs) && mmu.Lost() == old(mmu.Lost()) && mmu.ref.Keys == old(mmu.ref.Keys)
    ensures old(Tidy(mmu, ps)) ==> Tidy(mmu, qs)
    ensures qs == ps <==> old(mmu.free) == {}
    ensures qs == ps ||
            (|qs| == |ps| + 1 && qs[..|ps|] == ps && fresh(qs[|ps|].mm) && qs[|ps|].mm.list == []
             && qs[|ps|].mm.view == [])
    ensures P.SameEntries(old(mmu.space), mmu.space)
  {
    hide P.Mmu.Valid, UserSpace.Valid, Covered, P.Mmu.Lost, OnlyDir, HeldCovered, Held, Known, Sound, Tidy, Apart,
      Stranger, P.SameEntries;
    qs := ps;
    ghost var s := mmu.space;
    assert allocated(Areas(ps)) && allocated(Mms(ps));
    ghost var x := Unused(s.Keys);
    TakeAll(mmu, ps, x);
    var u := NewSpace(mmu);
    if u == null {
      OnlyDirNone(s, x);
      SameSound(mmu, ps, s, x);
    } else {
      Renamed(mmu, ps, s, x, u.pgdir);
      NewStranger(u, ps);
      Joined(mmu, ps, u, s);
      qs := ps + [u];
    }
  }

  lemma RowsSame(mmu: P.Mmu, s: P.Space, p: P.Pdes, a: set<nat>, d: nat)
    requires mmu.Valid() && P.Placed(s, p, a) && P.SameEntries(s, mmu.space) && mmu.pde == p
    ensures OnlyDir(s, mmu.space, d) && mmu.space.Keys == s.Keys
  {
    hide P.Entry, P.Unshared, P.Counted, P.Shaped;
  }

  /** fork. False when an assertion fails. */
  method ForkAt(mmu: P.Mmu, ps: Table, k: nat) returns (ok: bool, qs: Table)
    requires Sound(mmu, ps) && k < |ps|
    modifies mmu
    ensures mmu.Lost() == old(mmu.Lost()) && mmu.ref.Keys == old(mmu.ref.Keys)
    ensures ok ==> Sound(mmu, qs) && (old(Tidy(mmu, ps)) ==> Tidy(mmu, qs))
    ensures qs == ps <==> ForkCost(old(mmu.space), ps[k].pgdir) > |old(mmu.free)|
    ensures qs != ps ==>
              && |qs| == |ps| + 1 && qs[..|ps|] == ps && fresh(qs[|ps|].mm) && fresh(qs[|ps|].mm.list)
              && qs[|ps|].mm.view == ps[k].mm.view
              && FullCopy(old(mmu.Snapshot()), mmu.Snapshot(), qs[|ps|].pgdir, ps[k].pgdir)
              && OnlyDir(old(mmu.space), mmu.space, qs[|ps|].pgdir)
    ensures ok && qs == ps ==> P.SameEntries(old(mmu.space), mmu.space)
  {
    hide P.Mmu.Valid, UserSpace.Valid, Covered, P.Mmu.Lost, OnlyDir, HeldCovered, Held, Known, Sound, Tidy, Apart,
      Stranger, Rest, ForkCost, FullCopy, P.SameEntries, P.Placed;
    ok, qs := true, ps;
    ghost var s, p, a := mmu.space, mmu.pde, mmu.tables;
    assert allocated(Areas(ps)) && allocated(Mms(ps));
    ghost var x := Unused(s.Keys);
    TakeAll(mmu, ps, x);
    Take(mmu, ps, k);
    InPlace(mmu);
    var ret, child := A.Fork(ps[k]);
    if child != null {
      Renamed(mmu, ps, s, x, child.pgdir);
      NewStranger(child, ps);
      ApartFrom(child, ps[k]);
      Joined(mmu, ps, child, s);
      qs := ps + [child];
    } else if ret.NoMem? {
      MemOf(ps[k]);
      RowsSame(mmu, s, p, a, x);
      SameSound(mmu, ps, s, x);
    } else {
      ok := false;
    }
  }

  lemma MemOf(u: UserSpace)
    requires u.Valid()
    ensures u.mmu.Valid()
  {
  }

  lemma ApartFrom(u: UserSpace, w: UserSpace)
    requires Two(u, w)
    ensures u.Valid() && u.mmu == w.mmu && u.mmu.Valid()
  {
  }

  /** exit. */
  method ExitAt(mmu: P.Mmu, ps: Table, k: nat) returns (qs: Table)
    requires Sound(mmu, ps) && k < |ps|
    modifies mmu
    ensures Sound(mmu, qs) && mmu.ref.Keys == old(mmu.ref.Keys) && old(mmu.Lost()) <= mmu.Lost()
    ensures old(Tidy(mmu, ps)) ==> Tidy(mmu, qs)
    ensures qs == ps[..k] + ps[k + 1..] && P.DirEmptied(old(mmu.space), mmu.space, ps[k].pgdir)
  {
    hide P.Mmu.Valid, UserSpace.Valid, Covered, P.Mmu.Lost, OnlyDir, HeldCovered, Held, Known, Sound, Tidy, Apart,
      Stranger, P.DirEmptied, P.Placed, Orphans;
    ghost var s := mmu.space;
    Take(mmu, ps, k);
    Untouched(mmu, ps[k], Rest(ps, k));
    ps[k].Exit();
    Gone(mmu, ps, k, s);
    qs := ps[..k] + ps[k + 1..];
  }

  // ---------- runs ----------

  lemma StartSound(mmu: P.Mmu)
    requires mmu.Valid() && mmu.space == map[] && mmu.Lost() == {}
    ensures Sound(mmu, []) && Tidy(mmu, []) && Mms([]) == {} && Areas([]) == {}
  {
  }

  /** The areas of all processes. */
  ghost function Views(ps: Table): (v: seq<seq<Region>>)
    reads Mms(ps)
    ensures |v| == |ps| && forall k :: 0 <= k < |ps| ==> v[k] == ps[k].mm.view
  {
    seq(|ps|, k requires 0 <= k < |ps| reads Mms(ps) => ps[k].mm.view)
  }

  /** The event is a change of one process. */
  ghost predicate Changes(e: Event, n: nat) {
    match e
    case Map(p, addr, len, _) => p < n && Word(addr) && Word(len)
    case Unmap(p, addr, len) => p < n && Word(addr) && Word(len)
    case Brk(p, addr, len) => p < n && Word(addr) && Word(len)
    case Fault(p, _, addr) => p < n && Word(addr)
    case _ => false
  }

  /** What it does to that process, with directory d and areas v. */
  ghost predicate Change(e: Event, d: nat, v: seq<Region>, m: P.Memory, w: seq<Region>, n: P.Memory) {
    match e
    case Map(_, addr, len, flags) => MapDone(v, w, addr, len, flags) && n.space == m.space
    case Unmap(_, addr, len) => UnmapDone(v, w, m.space, n.space, d, addr, len)
    case Brk(_, addr, len) => BrkDone(v, w, m.space, n.space, d, addr, len)
    case Fault(_, code, addr) => w == v && d in m.space && FaultDone(v, m, n.space, d, code, addr)
    case _ => true
  }

  /** What an event does to the table of processes, their areas v and the memory m. */
  ghost predicate Effect(e: Event, ps: Table, v: seq<seq<Region>>, m: P.Memory, qs: Table, w: seq<seq<Region>>,
                         n: P.Memory)
    requires |v| == |ps| && |w| == |qs|
  {
    if Changes(e, |ps|) then qs == ps && w == v[e.p := w[e.p]] && Change(e, ps[e.p].pgdir, v[e.p], m, w[e.p], n)
    else if e.Exec? then
      && P.SameEntries(m.space, n.space)
      && if m.free == {} then qs == ps && w == v else |qs| == |ps| + 1 && qs[..|ps|] == ps && w == v + [[]]
    else if e.Fork? && e.p < |ps| then
      if ForkCost(m.space, ps[e.p].pgdir) > |m.free| then qs == ps && w == v && P.SameEntries(m.space, n.space)
      else
        && |qs| == |ps| + 1 && qs[..|ps|] == ps && w == v + [v[e.p]]
        && FullCopy(m, n, qs[|ps|].pgdir, ps[e.p].pgdir) && OnlyDir(m.space, n.space, qs[|ps|].pgdir)
    else if e.Exit? && e.p < |ps| then
      && qs == ps[..e.p] + ps[e.p + 1..] && w == v[..e.p] + v[e.p + 1..]
      && P.DirEmptied(m.space, n.space, ps[e.p].pgdir)
    else qs == ps && w == v && n == m
  }

  lemma OneProcess(mmu: P.Mmu, ps: Table, k: nat)
    requires Sound(mmu, ps) && k < |ps|
    ensures forall j :: 0 <= j < |ps| && j != k ==> ps[j].mm != ps[k].mm
  {
    hide UserSpace.Valid, P.Mmu.Valid, Known;
  }

  lemma OneView(v: seq<seq<Region>>, w: seq<seq<Region>>, k: nat)
    requires |w| == |v| && k < |v| && forall j :: 0 <= j < |v| && j != k ==> w[j] == v[j]
    ensures w == v[k := w[k]]
  {
  }

  method ChangeOne(mmu: P.Mmu, ps: Table, e: Event) returns (ok: bool)
    requires Sound(mmu, ps) && Changes(e, |ps|)
    modifies mmu, ps[e.p].mm, ps[e.p].mm.list
    ensures mmu.ref.Keys == old(mmu.ref.Keys)
    ensures ok ==> Sound(mmu, ps) && (old(Tidy(mmu, ps)) && !e.Unmap? ==> Tidy(mmu, ps))
    ensures ok ==> Effect(e, ps, old(Views(ps)), old(mmu.Snapshot()), ps, Views(ps), mmu.Snapshot())
    ensures forall i :: 0 <= i < |ps[e.p].mm.list| ==>
              ps[e.p].mm.list[i] in old(ps[e.p].mm.list) || fresh(ps[e.p].mm.list[i])
  {
    hide P.Mmu.Valid, UserSpace.Valid, P.Mmu.Lost, Sound, Tidy, MapDone, UnmapDone, BrkDone, FaultDone, Mms, Areas,
      Views;
    OneProcess(mmu, ps, e.p);
    ghost var v := Views(ps);
    ok := true;
    match e {
    case Map(p, addr, len, flags) =>
      ok := MapAt(mmu, ps, p, addr, len, flags);
    case Unmap(p, addr, len) =>
      UnmapAt(mmu, ps, p, addr, len);
    case Brk(p, addr, len) =>
      ok := BrkAt(mmu, ps, p, addr, len);
    case Fault(p, code, addr) =>
      ok := FaultAt(mmu, ps, p, code, addr);
    }
    OneView(v, Views(ps), e.p);
  }

  lemma NotMmu(mmu: P.Mmu, ps: Table)
    ensures mmu !in Mms(ps)
  {
    var m: object := mmu;
    assert m is P.Mmu;
  }

  lemma ViewsMore(ps: Table, qs: Table)
    requires |qs| == |ps| + 1 && qs[..|ps|] == ps
    ensures Views(qs) == Views(ps) + [qs[|ps|].mm.view]
    ensures forall x :: x in Mms(qs) ==> x in Mms(ps) || x == qs[|ps|].mm
    ensures forall x :: x in Areas(qs) ==> x in Areas(ps) || x in qs[|ps|].mm.list
  {
    hide Views;
    forall k | 0 <= k < |ps| ensures qs[k] == ps[k] {
      assert qs[..|ps|][k] == ps[k];
    }
  }

  lemma ViewsLess(ps: Table, k: nat)
    requires k < |ps|
    ensures Views(ps[..k] + ps[k + 1..]) == Views(ps)[..k] + Views(ps)[k + 1..]
    ensures Mms(ps[..k] + ps[k + 1..]) <= Mms(ps) && Areas(ps[..k] + ps[k + 1..]) <= Areas(ps)
  {
    hide Views;
    var qs := ps[..k] + ps[k + 1..];
    forall j | 0 <= j < |qs| ensures qs[j] == ps[if j < k then j else j + 1] {
    }
  }

  /** A process begins, is copied or ends. */
  method TableEvent(mmu: P.Mmu, ps: Table, e: Event) returns (ok: bool, qs: Table)
    requires Sound(mmu, ps) && (e.Exec? || ((e.Fork? || e.Exit?) && e.p < |ps|))
    modifies mmu
    ensures mmu.ref.Keys == old(mmu.ref.Keys)
    ensures ok ==> Sound(mmu, qs) && (old(Tidy(mmu, ps)) ==> Tidy(mmu, qs))
    ensures ok ==> Effect(e, ps, old(Views(ps)), old(mmu.Snapshot()), qs, Views(qs), mmu.Snapshot())
    ensures forall x :: x in Mms(qs) ==> x in Mms(ps) || fresh(x)
    ensures forall x :: x in Areas(qs) ==> x in Areas(ps) || fresh(x)
  {
    hide P.Mmu.Valid, UserSpace.Valid, P.Mmu.Lost, Sound, Tidy, FullCopy, OnlyDir, P.SameEntries, P.DirEmptied, Views,
      ForkCost, Mms, Areas;
    NotMmu(mmu, ps);
    ok := true;
    match e {
    case Exec =>
      qs := ExecOne(mmu, ps);
    case Fork(p) =>
      ok, qs := ForkAt(mmu, ps, p);
    case Exit(p) =>
      qs := ExitAt(mmu, ps, p);
      ViewsLess(ps, p);
    }
    if |qs| > |ps| {
      ViewsMore(ps, qs);
    }
  }

  /** Event e happens to process e.p, if there is one. */
  method Step(mmu: P.Mmu, ps: Table, e: Event) returns (ok: bool, qs: Table)
    requires Sound(mmu, ps)
    modifies mmu, Mms(ps), Areas(ps)
    ensures mmu.ref.Keys == old(mmu.ref.Keys)
    ensures ok ==> Sound(mmu, qs)
    ensures ok && old(Tidy(mmu, ps)) && !e.Unmap? ==> Tidy(mmu, qs)
    ensures ok ==> Effect(e, ps, old(Views(ps)), old(mmu.Snapshot()), qs, Views(qs), mmu.Snapshot())
    ensures forall x :: x in Mms(qs) ==> x in Mms(ps) || fresh(x)
    ensures forall x :: x in Areas(qs) ==> x in old(Areas(ps)) || fresh(x)
  {
    hide P.Mmu.Valid, UserSpace.Valid, P.Mmu.Lost, Sound, Tidy, Views, Change;
    ok, qs := true, ps;
    if e.Exec? || ((e.Fork? || e.Exit?) && e.p < |ps|) {
      ok, qs := TableEvent(mmu, ps, e);
    } else if !e.Fork? && !e.Exit? && e.p < |ps| && e.addr < 0x1_0000_0000 && (e.Fault? || e.len < 0x1_0000_0000) {
      ok := ChangeOne(mmu, ps, e);
    }
  }

  lemma AllFree(mmu: P.Mmu)
    requires Sound(mmu, []) && Tidy(mmu, [])
    ensures mmu.free == mmu.ref.Keys
  {
    hide P.Counted, P.Shaped, P.Mmu.Lost;
    NoneLost(mmu);
    assert mmu.space == map[];
    assert mmu.pde == map[];
    forall p: nat ensures !P.Leads(mmu.pde, p) && P.Users(mmu.space, p) == {} {
    }
  }

  /** Whatever the processes do, every page that is present for one of them lies in one of its areas, and can be written
      only if the area can. As long as nothing is unmapped, no page is ever lost, and when all processes have ended all
      pages are free again. */
  method Run(pages: set<nat>, events: seq<Event>) returns (mmu: P.Mmu, ps: Table, done: nat)
    ensures done <= |events| && mmu.ref.Keys == pages && (done == |events| ==> Sound(mmu, ps))
    ensures done == |events| && (forall i :: 0 <= i < |events| ==> !events[i].Unmap?) ==>
              mmu.Lost() == {} && (ps == [] ==> mmu.free == pages)
  {
    hide P.Mmu.Valid, UserSpace.Valid, P.Mmu.Lost, Sound, Mms, Areas, Effect, Views;
    mmu := new P.Mmu(pages);
    ps := [];
    StartSound(mmu);
    done := 0;
    while done < |events|
      invariant done <= |events| && fresh(mmu) && fresh(Mms(ps)) && fresh(Areas(ps)) && mmu.ref.Keys == pages
      invariant Sound(mmu, ps)
      invariant (forall i :: 0 <= i < done ==> !events[i].Unmap?) ==> Tidy(mmu, ps)
    {
      var ok;
      ok, ps := Step(mmu, ps, events[done]);
      if !ok {
        return;
      }
      done := done + 1;
    }
    if ps == [] && Tidy(mmu, ps) {
      AllFree(mmu);
    }
  }
}
