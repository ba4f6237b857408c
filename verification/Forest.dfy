/** The family links of processes (kern/process/proc.c): the youngest child of each, and the siblings on both sides. */
module Forest {
  /** The relation fields of struct proc_struct. */
  class Task {
    var parent: Task?
    var cptr: Task?
    var yptr: Task?
    var optr: Task?

    /** alloc_proc, and the parent that do_fork sets. */
    constructor (parent: Task?)
      ensures this.parent == parent && cptr == null && yptr == null && optr == null
    {
      this.parent, cptr, yptr, optr := parent, null, null, null;
    }
  }

  datatype Links = Links(parent: Task?, cptr: Task?, yptr: Task?, optr: Task?)

  type Web = map<Task, Links>
  type Kids = map<Task, seq<Task>>

  ghost function At(s: seq<Task>, i: int): Task? {
    if 0 <= i < |s| then s[i] else null
  }

  ghost predicate Child(w: Web, p: Task, s: seq<Task>, i: nat)
    requires i < |s|
  {
    s[i] in w && w[s[i]].parent == p && w[s[i]].yptr == At(s, i - 1) && w[s[i]].optr == At(s, i + 1)
  }

  ghost predicate Apart(s: seq<Task>) {
    forall i, j :: 0 <= i < j < |s| ==> s[i] != s[j]
  }

  /** Walking cptr and then optr from p visits s, and yptr goes back. */
  ghost predicate Family(w: Web, p: Task, s: seq<Task>) {
    p in w && w[p].cptr == At(s, 0) && Apart(s) && forall i: nat :: i < |s| ==> Child(w, p, s, i)
  }

  /** The same, but for the younger side of the first child. */
  ghost predicate Loose(w: Web, p: Task, s: seq<Task>) {
    && p in w && w[p].cptr == At(s, 0) && Apart(s)
    && forall i: nat :: i < |s| ==>
          s[i] in w && w[s[i]].parent == p && w[s[i]].optr == At(s, i + 1) && (i > 0 ==> Child(w, p, s, i))
  }

  ghost predicate HasParent(w: Web, kids: Kids, t: Task) {
    t in w && w[t].parent != null && w[t].parent != t && w[t].parent in kids && t in kids[w[t].parent]
  }

  /** The children of each process are those that name it as their parent; c may be in the middle of giving its away. */
  ghost predicate InvBut(w: Web, kids: Kids, idle: Task, c: Task?) {
    && w.Keys == kids.Keys && idle in kids && w[idle].parent == null
    && (forall p :: p in kids ==> if p == c then Loose(w, p, kids[p]) else Family(w, p, kids[p]))
    && (forall t :: t in kids && t != idle ==> HasParent(w, kids, t))
  }

  ghost predicate Inv(w: Web, kids: Kids, idle: Task) {
    InvBut(w, kids, idle, null)
  }

  lemma FamilyFrame(w: Web, w': Web, p: Task, s: seq<Task>)
    requires Family(w, p, s) && p in w' && w'[p].cptr == w[p].cptr
    requires forall t :: t in s ==> t in w && t in w' && w'[t] == w[t].(cptr := w'[t].cptr)
    ensures Family(w', p, s)
  {
    forall i: nat | i < |s| ensures Child(w', p, s, i) {
      assert Child(w, p, s, i);
    }
  }

  /** A task is a child of one process only, and not of itself. */
  lemma OneParent(w: Web, kids: Kids, idle: Task, c: Task?, p: Task, t: Task)
    requires InvBut(w, kids, idle, c) && p in kids && t in kids[p]
    ensures t in kids && t in w && w[t].parent == p && t != p
  {
    var s := kids[p];
    var i: nat :| i < |s| && s[i] == t;
    if p == c {
      assert Loose(w, p, s);
    } else {
      assert Family(w, p, s) && Child(w, p, s, i);
    }
    assert t != idle && HasParent(w, kids, t);
  }

  /** The children of p are the processes that have p as their parent. */
  lemma ChildrenNameParent(w: Web, kids: Kids, idle: Task, p: Task, t: Task)
    requires Inv(w, kids, idle) && p in kids && t in kids
    ensures t in w && (t in kids[p] <==> w[t].parent == p)
  {
    if t in kids[p] { OneParent(w, kids, idle, null, p, t); }
    if t != idle { assert HasParent(w, kids, t); }
  }

  // ---------- a new youngest child ----------

  /** The links when t, whose own links do not count, has been put in front of the children of p. */
  ghost function Fronted(w: Web, p: Task, t: Task, cptr: Task?): Web
    requires p in w
  {
    var first := w[p].cptr;
    var v := w[t := Links(p, cptr, null, first)];
    var u := if first != null && first in v then v[first := v[first].(yptr := t)] else v;
    u[p := u[p].(cptr := t)]
  }

  lemma FrontedFamily(w: Web, p: Task, s: seq<Task>, t: Task, cptr: Task?)
    requires Family(w, p, s) && t !in s && t != p && p !in s
    ensures Family(Fronted(w, p, t, cptr), p, [t] + s)
  {
    var w', s' := Fronted(w, p, t, cptr), [t] + s;
    forall i: nat | i < |s'| ensures Child(w', p, s', i) {
      if i > 0 {
        assert Child(w, p, s, i - 1);
        assert i > 1 ==> s[i - 1] != s[0];
      }
    }
  }

  lemma FrontedOther(w: Web, kids: Kids, idle: Task, p: Task, t: Task, cptr: Task?, q: Task)
    requires Inv(w, kids, idle) && p in kids && q in kids && q != p && t !in kids
    ensures Family(Fronted(w, p, t, cptr), q, kids[q])
  {
    var w' := Fronted(w, p, t, cptr);
    forall x | x in kids[q] ensures x in w && x in w' && w'[x] == w[x].(cptr := w'[x].cptr) {
      OneParent(w, kids, idle, null, q, x);
      FirstIsChild(w, kids, idle, p);
    }
    FirstIsChild(w, kids, idle, p);
    FamilyFrame(w, w', q, kids[q]);
  }

  lemma FirstIsChild(w: Web, kids: Kids, idle: Task, p: Task)
    requires Inv(w, kids, idle) && p in kids
    ensures p in w
    ensures (w[p].cptr != null ==> w[p].cptr in kids[p] && w[p].cptr in w && w[w[p].cptr].parent == p && w[p].cptr != p)
  {
    assert Family(w, p, kids[p]);
    if w[p].cptr != null { OneParent(w, kids, idle, null, p, w[p].cptr); }
  }

  ghost function Adopted(kids: Kids, p: Task, t: Task): Kids
    requires p in kids
  {
    kids[t := []][p := [t] + kids[p]]
  }

  lemma FrontedNew(w: Web, p: Task, t: Task)
    requires p in w && t != p && w[p].cptr != t
    ensures Family(Fronted(w, p, t, null), t, [])
  {
  }

  lemma FrontedAt(w: Web, p: Task, t: Task, x: Task)
    requires p in w && t !in w && x in w && (w[p].cptr != null ==> w[p].cptr in w)
    ensures var w' := Fronted(w, p, t, null); w'.Keys == w.Keys + {t} && w'[x].parent == w[x].parent
  {
  }

  lemma FrontedKeys(w: Web, kids: Kids, idle: Task, p: Task, t: Task)
    requires Inv(w, kids, idle) && p in kids && t !in kids
    ensures var w' := Fronted(w, p, t, null);
            w'.Keys == w.Keys + {t} && idle in w' && w'[idle].parent == null && Family(w', t, [])
  {
    hide Family, Loose, HasParent, Fronted;
    FirstIsChild(w, kids, idle, p);
    FrontedAt(w, p, t, idle);
    FrontedNew(w, p, t);
  }

  lemma FrontedParent(w: Web, kids: Kids, idle: Task, p: Task, t: Task, x: Task)
    requires Inv(w, kids, idle) && p in kids && t !in kids && (x == t || (x in kids && x != idle))
    ensures HasParent(Fronted(w, p, t, null), Adopted(kids, p, t), x)
  {
    hide Family, Loose;
    FirstIsChild(w, kids, idle, p);
    if x != t { assert HasParent(w, kids, x); }
  }

  lemma FrontedOwn(w: Web, kids: Kids, idle: Task, p: Task, t: Task)
    requires Inv(w, kids, idle) && p in kids && t !in kids
    ensures Family(Fronted(w, p, t, null), p, [t] + kids[p])
  {
    forall x | x in kids[p] ensures x != t && x != p { OneParent(w, kids, idle, null, p, x); }
    FrontedFamily(w, p, kids[p], t, null);
  }

  /** set_links keeps the links of all other families. */
  lemma SetLinksInv(w: Web, kids: Kids, idle: Task, p: Task, t: Task)
    requires Inv(w, kids, idle) && p in kids && t !in kids
    ensures Inv(Fronted(w, p, t, null), Adopted(kids, p, t), idle)
  {
    hide Family, Loose, HasParent, Fronted;
    var w', k' := Fronted(w, p, t, null), Adopted(kids, p, t);
    FrontedKeys(w, kids, idle, p, t);
    forall q | q in k' ensures Family(w', q, k'[q]) {
      if q == p {
        FrontedOwn(w, kids, idle, p, t);
      } else if q != t {
        FrontedOther(w, kids, idle, p, t, null, q);
      }
    }
    forall x | x in k' && x != idle ensures HasParent(w', k', x) {
      FrontedParent(w, kids, idle, p, t, x);
    }
  }

  // ---------- taking a child out ----------

  ghost function Unhooked(w: Web, t: Task): Web
    requires t in w && w[t].parent != null && w[t].parent in w && (w[t].optr != null ==> w[t].optr in w)
    requires (w[t].yptr != null ==> w[t].yptr in w)
  {
    var l := w[t];
    var v := if l.optr != null then w[l.optr := w[l.optr].(yptr := l.yptr)] else w;
    if l.yptr != null then v[l.yptr := v[l.yptr].(optr := l.optr)] else v[l.parent := v[l.parent].(cptr := l.optr)]
  }

  ghost function Without(s: seq<Task>, k: nat): seq<Task>
    requires k < |s|
  {
    s[..k] + s[k + 1..]
  }

  ghost predicate Hooked(w: Web, p: Task, s: seq<Task>, k: nat) {
    && Family(w, p, s) && k < |s| && p !in s && s[k] in w && w[s[k]].parent == p
    && (k > 0 ==> s[k - 1] in w) && (k + 1 < |s| ==> s[k + 1] in w)
    && w[s[k]].yptr == At(s, k - 1) && w[s[k]].optr == At(s, k + 1)
  }

  lemma IsHooked(w: Web, p: Task, s: seq<Task>, k: nat)
    requires Family(w, p, s) && k < |s| && p !in s
    ensures Hooked(w, p, s, k)
  {
    assert Child(w, p, s, k);
    if k > 0 { assert Child(w, p, s, k - 1); }
    if k + 1 < |s| { assert Child(w, p, s, k + 1); }
  }

  lemma UnhookedFamily(w: Web, p: Task, s: seq<Task>, k: nat)
    requires Hooked(w, p, s, k)
    ensures Family(Unhooked(w, s[k]), p, Without(s, k))
  {
    var w', s' := Unhooked(w, s[k]), Without(s, k);
    forall i: nat | i < |s'| ensures s'[i] == s[if i < k then i else i + 1] && Child(w', p, s', i) {
      var o := if i < k then i else i + 1;
      assert Child(w, p, s, o) && s'[i] == s[o];
      assert o != k - 1 && k > 0 ==> s[o] != s[k - 1];
      assert o != k + 1 && k + 1 < |s| ==> s[o] != s[k + 1];
    }
  }

  lemma UnhookedOther(w: Web, kids: Kids, idle: Task, p: Task, k: nat, q: Task)
    requires Inv(w, kids, idle) && p in kids && q in kids && q != p && Hooked(w, p, kids[p], k)
    ensures Family(Unhooked(w, kids[p][k]), q, kids[q])
  {
    var w', s := Unhooked(w, kids[p][k]), kids[p];
    forall x | x in kids[q] ensures x in w && x in w' && w'[x] == w[x].(cptr := w'[x].cptr) {
      OneParent(w, kids, idle, null, q, x);
      if k > 0 { OneParent(w, kids, idle, null, p, s[k - 1]); }
      if k + 1 < |s| { OneParent(w, kids, idle, null, p, s[k + 1]); }
    }
    FamilyFrame(w, w', q, kids[q]);
  }

  ghost function Orphaned(kids: Kids, p: Task, k: nat): Kids
    requires p in kids && k < |kids[p]|
  {
    kids[p := Without(kids[p], k)] - {kids[p][k]}
  }

  lemma HookedShape(w: Web, p: Task, s: seq<Task>, k: nat)
    requires Hooked(w, p, s, k)
    ensures Apart(s) && Unhooked(w, s[k]).Keys == w.Keys
    ensures forall x :: x in w ==> Unhooked(w, s[k])[x].parent == w[x].parent
  {
  }

  lemma FamilyMinus(w: Web, t: Task, p: Task, s: seq<Task>)
    requires Family(w, p, s) && t !in s && t != p
    ensures Family(w - {t}, p, s)
  {
    forall x | x in s ensures x in w && x in w - {t} {
      var i: nat :| i < |s| && s[i] == x;
      assert Child(w, p, s, i);
    }
    FamilyFrame(w, w - {t}, p, s);
  }

  ghost predicate CanRemove(w: Web, kids: Kids, idle: Task, p: Task, k: nat) {
    && Inv(w, kids, idle) && p in kids && Hooked(w, p, kids[p], k) && kids[p][k] in kids && kids[kids[p][k]] == []
    && kids[p][k] != p && kids[p][k] != idle
  }

  lemma RemovedFamily(w: Web, kids: Kids, idle: Task, p: Task, k: nat, q: Task)
    requires CanRemove(w, kids, idle, p, k) && q in Orphaned(kids, p, k)
    ensures Family(Unhooked(w, kids[p][k]) - {kids[p][k]}, q, Orphaned(kids, p, k)[q])
  {
    hide Unhooked, Family, Without;
    var s, t := kids[p], kids[p][k];
    HookedShape(w, p, s, k);
    if q == p {
      UnhookedFamily(w, p, s, k);
      NotIn(s, k);
      FamilyMinus(Unhooked(w, t), t, p, Without(s, k));
    } else {
      UnhookedOther(w, kids, idle, p, k, q);
      if t in kids[q] { OneParent(w, kids, idle, null, q, t); }
      FamilyMinus(Unhooked(w, t), t, q, kids[q]);
    }
  }

  /** remove_links of a process without children. */
  lemma RemoveLinksInv(w: Web, kids: Kids, idle: Task, p: Task, k: nat)
    requires CanRemove(w, kids, idle, p, k)
    ensures Inv(Unhooked(w, kids[p][k]) - {kids[p][k]}, Orphaned(kids, p, k), idle)
  {
    hide Unhooked, Family, Loose, HasParent, Without;
    HookedShape(w, p, kids[p], k);
    forall q | q in Orphaned(kids, p, k)
        ensures Family(Unhooked(w, kids[p][k]) - {kids[p][k]}, q, Orphaned(kids, p, k)[q]) {
      RemovedFamily(w, kids, idle, p, k, q);
    }
    forall x | x in Orphaned(kids, p, k) && x != idle
        ensures HasParent(Unhooked(w, kids[p][k]) - {kids[p][k]}, Orphaned(kids, p, k), x) {
      StaysChild(w, kids, idle, p, k, x);
    }
  }

  lemma NotIn(s: seq<Task>, k: nat)
    requires Apart(s) && k < |s|
    ensures forall x :: x in Without(s, k) <==> x in s && x != s[k]
  {
    var w := Without(s, k);
    forall x ensures x in w <==> x in s && x != s[k] {
      if x in s && x != s[k] {
        var i :| 0 <= i < |s| && s[i] == x;
        assert w[if i < k then i else i - 1] == x;
      }
    }
  }

  lemma StaysChild(w: Web, kids: Kids, idle: Task, p: Task, k: nat, x: Task)
    requires CanRemove(w, kids, idle, p, k) && x in Orphaned(kids, p, k) && x != idle
    ensures HasParent(Unhooked(w, kids[p][k]) - {kids[p][k]}, Orphaned(kids, p, k), x)
  {
    assert HasParent(w, kids, x);
    NotIn(kids[p], k);
  }

  // ---------- giving children to another process ----------

  /** The first child of c becomes the youngest child of p. The next child of c is left with its old younger sibling. */
  ghost function Moved(w: Web, c: Task, p: Task): Web
    requires c in w && p in w && w[c].cptr != null && w[c].cptr in w
  {
    var t := w[c].cptr;
    var v := w[c := w[c].(cptr := w[t].optr)];
    Fronted(v, p, t, v[t].cptr)
  }

  ghost function Given(kids: Kids, c: Task, p: Task): Kids
    requires c in kids && p in kids && kids[c] != []
  {
    kids[c := kids[c][1..]][p := [kids[c][0]] + kids[p]]
  }

  ghost predicate CanGive(w: Web, kids: Kids, idle: Task, c: Task, p: Task) {
    InvBut(w, kids, idle, c) && c in kids && p in kids && c != p && kids[c] != [] && p !in kids[c]
  }

  lemma GiverFacts(w: Web, kids: Kids, idle: Task, c: Task, p: Task)
    requires CanGive(w, kids, idle, c, p)
    ensures var t := kids[c][0];
            && c in w && p in w && w[c].cptr == t && t in w && t in kids && t != c && t != p && w[t].parent == c
            && t != idle
            && t !in kids[p] && w[t].optr == At(kids[c], 1) && p !in kids[p]
    ensures w[p].cptr == At(kids[p], 0) && (kids[p] != [] ==> kids[p][0] in w && w[kids[p][0]].parent == p)
  {
    var t := kids[c][0];
    assert Loose(w, c, kids[c]) && Family(w, p, kids[p]);
    OneParent(w, kids, idle, c, c, t);
    if t in kids[p] { OneParent(w, kids, idle, c, p, t); }
    if p in kids[p] { OneParent(w, kids, idle, c, p, p); }
    if kids[p] != [] { OneParent(w, kids, idle, c, p, kids[p][0]); }
  }

  lemma MovedShape(w: Web, kids: Kids, idle: Task, c: Task, p: Task)
    requires CanGive(w, kids, idle, c, p)
    ensures c in w && p in w && w[c].cptr != null && w[c].cptr in w
    ensures var w', t := Moved(w, c, p), kids[c][0];
            && w'.Keys == w.Keys && w'[c].cptr == At(kids[c], 1) && w'[p].cptr == t
            && w'[t] == Links(p, w[t].cptr, null, w[p].cptr)
            && forall x :: x in w && x != t ==>
                 && w'[x].parent == w[x].parent && w'[x].optr == w[x].optr
                 && (w[x].parent != p ==> w'[x].yptr == w[x].yptr) && (x != c && x != p ==> w'[x].cptr == w[x].cptr)
  {
    hide CanGive;
    GiverFacts(w, kids, idle, c, p);
  }

  lemma MovedLoose(w: Web, kids: Kids, idle: Task, c: Task, p: Task)
    requires CanGive(w, kids, idle, c, p) && c in w && p in w && w[c].cptr != null && w[c].cptr in w
    ensures Loose(Moved(w, c, p), c, kids[c][1..])
  {
    hide Moved;
    MovedShape(w, kids, idle, c, p);
    var w', s := Moved(w, c, p), kids[c];
    var s' := s[1..];
    assert Loose(w, c, s);
    forall i: nat | i < |s'|
        ensures s'[i] in w' && w'[s'[i]].parent == c && w'[s'[i]].optr == At(s', i + 1)
        && (i > 0 ==> Child(w', c, s', i)) {
      assert s'[i] == s[i + 1] && s[i + 1] != s[0] && Child(w, c, s, i + 1);
    }
  }

  lemma MovedTaker(w: Web, kids: Kids, idle: Task, c: Task, p: Task)
    requires CanGive(w, kids, idle, c, p) && c in w && p in w && w[c].cptr != null && w[c].cptr in w
    ensures Family(Moved(w, c, p), p, [kids[c][0]] + kids[p])
  {
    GiverFacts(w, kids, idle, c, p);
    var t := kids[c][0];
    var v := w[c := w[c].(cptr := w[t].optr)];
    forall x | x in kids[p]
        ensures x in w && x in v && v[x] == w[x].(cptr := v[x].cptr) { OneParent(w, kids, idle, c, p, x); }
    FamilyFrame(w, v, p, kids[p]);
    FrontedFamily(v, p, kids[p], t, v[t].cptr);
  }

  lemma MovedOther(w: Web, kids: Kids, idle: Task, c: Task, p: Task, q: Task)
    requires CanGive(w, kids, idle, c, p) && c in w && p in w && w[c].cptr != null && w[c].cptr in w && q in kids
    requires q != c && q != p
    ensures Family(Moved(w, c, p), q, kids[q])
  {
    hide Moved;
    MovedShape(w, kids, idle, c, p);
    GiverFacts(w, kids, idle, c, p);
    forall x | x in kids[q]
        ensures x in w && x in Moved(w, c, p) && Moved(w, c, p)[x] == w[x].(cptr := Moved(w, c, p)[x].cptr) {
      OneParent(w, kids, idle, c, q, x);
    }
    FamilyFrame(w, Moved(w, c, p), q, kids[q]);
  }

  lemma MovedParent(w: Web, kids: Kids, idle: Task, c: Task, p: Task, x: Task)
    requires CanGive(w, kids, idle, c, p) && c in w && p in w && w[c].cptr != null && w[c].cptr in w && x in kids
    requires x != idle
    ensures HasParent(Moved(w, c, p), Given(kids, c, p), x)
  {
    hide Moved;
    MovedShape(w, kids, idle, c, p);
    GiverFacts(w, kids, idle, c, p);
    assert HasParent(w, kids, x);
    var s := kids[c];
    assert s == [s[0]] + s[1..];
  }

  lemma MoveInv(w: Web, kids: Kids, idle: Task, c: Task, p: Task)
    requires CanGive(w, kids, idle, c, p)
    ensures c in w && p in w && w[c].cptr != null && w[c].cptr in w
    ensures InvBut(Moved(w, c, p), Given(kids, c, p), idle, c)
  {
    hide Moved, Family, Loose, HasParent;
    MovedShape(w, kids, idle, c, p);
    GiverFacts(w, kids, idle, c, p);
    var w', k' := Moved(w, c, p), Given(kids, c, p);
    forall q | q in k' ensures if q == c then Loose(w', q, k'[q]) else Family(w', q, k'[q]) {
      if q == c {
        MovedLoose(w, kids, idle, c, p);
      } else if q == p {
        MovedTaker(w, kids, idle, c, p);
      } else {
        MovedOther(w, kids, idle, c, p, q);
      }
    }
    forall x | x in k' && x != idle ensures HasParent(w', k', x) {
      MovedParent(w, kids, idle, c, p, x);
    }
  }

  lemma GaveAll(w: Web, kids: Kids, idle: Task, c: Task)
    requires InvBut(w, kids, idle, c) && c in kids && kids[c] == []
    ensures Inv(w, kids, idle)
  {
    assert Loose(w, c, kids[c]);
    assert Family(w, c, kids[c]);
  }

  lemma InvIsLoose(w: Web, kids: Kids, idle: Task, c: Task)
    requires Inv(w, kids, idle)
    ensures InvBut(w, kids, idle, c)
  {
    forall p | p in kids ensures if p == c then Loose(w, p, kids[p]) else Family(w, p, kids[p]) {
      var s := kids[p];
      assert Family(w, p, s);
      forall i: nat | i < |s|
          ensures s[i] in w && w[s[i]].parent == p && w[s[i]].optr == At(s, i + 1) && Child(w, p, s, i) {
        assert Child(w, p, s, i);
      }
    }
  }

  // ---------- the process table ----------

  ghost function Reversed(s: seq<Task>): seq<Task> {
    if s == [] then [] else Reversed(s[1..]) + [s[0]]
  }

  lemma {:induction false} ReversedLast(s: seq<Task>, t: Task)
    ensures Reversed(s + [t]) == [t] + Reversed(s)
  {
    if s != [] {
      ReversedLast(s[1..], t);
      assert (s + [t])[1..] == s[1..] + [t];
    } else {
      assert [t][1..] == [] && [] + [t] == [t];
    }
  }

  /** The children when c has given its first m to p. */
  ghost function Giving(kids: Kids, c: Task, p: Task, m: nat): Kids
    requires c in kids && p in kids && m <= |kids[c]|
  {
    kids[c := kids[c][m..]][p := Reversed(kids[c][..m]) + kids[p]]
  }

  lemma StartGiving(kids: Kids, c: Task, p: Task)
    requires c in kids && p in kids && c != p
    ensures Giving(kids, c, p, 0) == kids
  {
    assert [] + kids[p] == kids[p];
  }

  lemma NextGiving(kids: Kids, c: Task, p: Task, m: nat)
    requires c in kids && p in kids && c != p && m < |kids[c]|
    ensures var k := Giving(kids, c, p, m);
            k[c] == kids[c][m..] && k[c][0] == kids[c][m] && Given(k, c, p) == Giving(kids, c, p, m + 1)
  {
    var s, k := kids[c], Giving(kids, c, p, m);
    assert s[..m + 1] == s[..m] + [s[m]];
    ReversedLast(s[..m], s[m]);
    assert [s[m]] + (Reversed(s[..m]) + kids[p]) == [s[m]] + Reversed(s[..m]) + kids[p];
    assert s[m..][1..] == s[m + 1..];
  }

  lemma EndGiving(kids: Kids, c: Task, p: Task)
    requires c in kids && p in kids && c != p
    ensures Giving(kids, c, p, |kids[c]|) == kids[c := []][p := Reversed(kids[c]) + kids[p]]
  {
    assert kids[c][..|kids[c]|] == kids[c] && kids[c][|kids[c]|..] == [];
  }

  lemma FirstLoose(w: Web, kids: Kids, idle: Task, c: Task)
    requires InvBut(w, kids, idle, c) && c in kids
    ensures c in w && w[c].cptr == At(kids[c], 0) && w.Keys == kids.Keys
  {
    assert Loose(w, c, kids[c]);
  }

  /** The place of a process among its parent's children. */
  lemma Place(w: Web, kids: Kids, idle: Task, t: Task) returns (k: nat)
    requires Inv(w, kids, idle) && t in kids && t != idle && kids[t] == []
    ensures t in w && w[t].parent != null && w[t].parent in kids && k < |kids[w[t].parent]| && kids[w[t].parent][k] == t
    ensures CanRemove(w, kids, idle, w[t].parent, k)
    ensures var p, s := w[t].parent, kids[w[t].parent];
            && (w[t].optr != null ==> w[t].optr != t && w[t].optr != p)
            && (w[t].yptr != null ==> w[t].yptr != t && w[t].yptr != w[t].optr)
  {
    assert HasParent(w, kids, t);
    var p: Task := w[t].parent;
    var s := kids[p];
    k :| k < |s| && s[k] == t;
    assert Family(w, p, s) && Child(w, p, s, k);
    forall x | x in s ensures x != p { OneParent(w, kids, idle, null, p, x); }
    IsHooked(w, p, s, k);
  }

  class ProcTable {
    const idle: Task
    var nrProcess: int
    /** The processes, each with its children, youngest first, and the links between them. */
    ghost var kids: Kids
    ghost var web: Web

    /** idleproc alone, as proc_init leaves it. */
    constructor ()
      ensures Valid() && fresh(idle) && kids == map[idle := []] && nrProcess == 1
    {
      var t := new Task(null);
      idle := t;
      nrProcess := 1;
      kids := map[t := []];
      web := map[t := Links(null, null, null, null)];
    }

    ghost predicate Tied()
      reads this, web.Keys
    {
      forall t :: t in web ==> web[t] == Links(t.parent, t.cptr, t.yptr, t.optr)
    }

    ghost predicate Valid()
      reads this, web.Keys
    {
      Tied() && Inv(web, kids, idle) && nrProcess == |kids|
    }

    /** The links set when a child is put in front of the children of p: the tail of set_links and of the loop in
        do_exit. */
    method PutInFront(t: Task, p: Task)
      requires Tied() && p in web && t != p && (p.cptr != null ==> p.cptr in web && p.cptr != t && p.cptr != p)
      modifies `web, t, p, p.cptr
      ensures web == Fronted(old(web), p, t, old(t.cptr)) && Tied() && t.cptr == old(t.cptr)
    {
      t.yptr := null;
      t.optr := p.cptr;
      if t.optr != null {
        t.optr.yptr := t;
      }
      t.parent := p;
      p.cptr := t;
      web := Fronted(web, p, t, t.cptr);
    }

    /** set_links: a new process becomes its parent's youngest child. */
    method SetLinks(proc: Task, parent: Task)
      requires Valid() && proc !in kids && proc.parent == parent && parent in kids && proc.cptr == null
      modifies this, proc, web.Keys
      ensures Valid() && kids == Adopted(old(kids), parent, proc)
    {
      hide Family, HasParent;
      FirstIsChild(web, kids, idle, parent);
      SetLinksInv(web, kids, idle, parent, proc);
      PutInFront(proc, parent);
      nrProcess := nrProcess + 1;
      kids := Adopted(kids, parent, proc);
    }

    /** The walk over the children in do_wait. */
    method Walk(p: Task) returns (s: seq<Task>)
      requires Valid() && p in kids
      ensures s == kids[p]
    {
      hide HasParent;
      assert Family(web, p, kids[p]);
      s := [];
      var proc := p.cptr;
      while proc != null
        invariant |s| <= |kids[p]| && s == kids[p][..|s|] && proc == At(kids[p], |s|)
        decreases |kids[p]| - |s|
      {
        assert Child(web, p, kids[p], |s|);
        s := s + [proc];
        proc := proc.optr;
      }
    }

    /** The links changed by remove_links. */
    method Unhook(t: Task)
      requires Tied() && t in web && t.parent != null && t.parent in web && t.parent != t
      requires (t.optr != null ==> t.optr in web && t.optr != t)
      requires (t.yptr != null ==> t.yptr in web && t.yptr != t && t.yptr != t.optr)
      requires t.optr != null ==> t.parent != t.optr
      modifies `web, t.optr, t.yptr, t.parent
      ensures web == Unhooked(old(web), t) && Tied()
    {
      if t.optr != null {
        t.optr.yptr := t.yptr;
      }
      if t.yptr != null {
        t.yptr.optr := t.optr;
      } else {
        t.parent.cptr := t.optr;
      }
      web := Unhooked(web, t);
    }

    /** remove_links, as do_wait calls it on a process that has no children left. */
    method RemoveLinks(proc: Task)
      requires Valid() && proc in kids && proc != idle && kids[proc] == []
      modifies this, web.Keys
      ensures Valid() && proc.parent == old(proc.parent) && proc !in kids
      ensures exists k: nat :: old(proc.parent in kids && k < |kids[proc.parent]| && kids[proc.parent][k] == proc) &&
                               kids == Orphaned(old(kids), old(proc.parent), k)
    {
      hide Family;
      ghost var k;
      k := Place(web, kids, idle, proc);
      RemoveLinksInv(web, kids, idle, proc.parent, k);
      Unhook(proc);
      web := web - {proc};
      nrProcess := nrProcess - 1;
      kids := Orphaned(kids, proc.parent, k);
    }

    /** One round of the loop in do_exit. */
    method GiveOne(c: Task, p: Task)
      requires Tied() && CanGive(web, kids, idle, c, p)
      modifies this, web.Keys
      ensures Tied() && InvBut(web, kids, idle, c) && kids == Given(old(kids), c, p) && web.Keys == old(web.Keys)
      ensures nrProcess == old(nrProcess)
    {
      hide Family, Loose, InvBut;
      GiverFacts(web, kids, idle, c, p);
      MoveInv(web, kids, idle, c, p);
      MovedShape(web, kids, idle, c, p);
      var t: Task := c.cptr;
      c.cptr := t.optr;
      web := web[c := web[c].(cptr := t.optr)];
      PutInFront(t, p);
      kids := Given(kids, c, p);
    }

    /** The loop in do_exit: init becomes the parent of every child of the exiting process. */
    method Reparent(current: Task, init: Task)
      requires Valid() && current in kids && init in kids && current != init && init !in kids[current]
      modifies this, web.Keys
      ensures Valid() && nrProcess == old(nrProcess)
      ensures kids == old(kids)[current := []][init := Reversed(old(kids)[current]) + old(kids)[init]]
    {
      hide Family, Loose, HasParent, InvBut, Reversed;
      ghost var k0, s, r, m: nat := kids, kids[current], kids[init], 0;
      InvIsLoose(web, kids, idle, current);
      StartGiving(k0, current, init);
      FirstLoose(web, kids, idle, current);
      while current.cptr != null
        invariant Tied() && InvBut(web, kids, idle, current) && web.Keys == old(web.Keys) && nrProcess == old(nrProcess)
        invariant m <= |s| && kids == Giving(k0, current, init, m) && current in web && current.cptr == At(s, m)
        decreases |s| - m
      {
        NextGiving(k0, current, init, m);
        GiveOne(current, init);
        m := m + 1;
        FirstLoose(web, kids, idle, current);
      }
      GaveAll(web, kids, idle, current);
      EndGiving(k0, current, init);
    }
  }
}
