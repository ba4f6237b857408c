/** The circular doubly linked lists of libs/list.h. The entries are numbers, the links sequences over them. */
module Rings {
  /** Entry i of the ring, the head being entries 0 and |list| + 1. */
  ghost function At(h: nat, list: seq<nat>, i: int): nat {
    if 0 < i <= |list| then list[i - 1] else h
  }

  ghost predicate Distinct(list: seq<nat>) {
    forall i, j :: 0 <= i < j < |list| ==> list[i] != list[j]
  }

  /** Following next from the head visits list and returns, and prev goes the other way. */
  ghost predicate Ring(next: seq<nat>, prev: seq<nat>, h: nat, list: seq<nat>) {
    && |next| == |prev| && h < |next| && h !in list && Distinct(list)
    && (forall i :: 0 <= i < |list| ==> list[i] < |next|)
    && (forall i: nat :: i <= |list| ==> next[At(h, list, i)] == At(h, list, i + 1))
    && (forall i: nat :: i <= |list| ==> prev[At(h, list, i + 1)] == At(h, list, i))
  }

  ghost function Without(list: seq<nat>, k: nat): seq<nat>
    requires k < |list|
  {
    list[..k] + list[k + 1..]
  }

  ghost function With(list: seq<nat>, k: nat, e: nat): seq<nat>
    requires k <= |list|
  {
    list[..k] + [e] + list[k..]
  }

  lemma AtApart(h: nat, list: seq<nat>, i: nat, j: nat)
    requires Distinct(list) && h !in list && i <= |list| && j <= |list| && i != j
    ensures At(h, list, i) != At(h, list, j)
  {
  }

  lemma AtApartAfter(h: nat, list: seq<nat>, i: nat, j: nat)
    requires Distinct(list) && h !in list && i <= |list| && j <= |list| && i != j
    ensures At(h, list, i + 1) != At(h, list, j + 1)
  {
  }

  /** list_del of entry k + 1. Its own links stay as they were. */
  lemma DelRing(next: seq<nat>, prev: seq<nat>, h: nat, list: seq<nat>, k: nat)
    requires Ring(next, prev, h, list) && k < |list|
    ensures prev[list[k]] == At(h, list, k) < |next| && next[list[k]] == At(h, list, k + 2) < |next|
    ensures Ring(next[prev[list[k]] := next[list[k]]], prev[next[list[k]] := prev[list[k]]], h, Without(list, k))
  {
    assert At(h, list, k + 1) == list[k];
    var e, p, n := list[k], At(h, list, k), At(h, list, k + 2);
    assert prev[At(h, list, k + 1)] == p && next[At(h, list, k + 1)] == At(h, list, k + 1 + 1);
    var l := Without(list, k);
    forall i: nat | i <= |l|
      ensures next[p := n][At(h, l, i)] == At(h, l, i + 1) && prev[n := p][At(h, l, i + 1)] == At(h, l, i)
    {
      var o := if i <= k then i else i + 1;
      assert At(h, l, i) == At(h, list, o);
      if i != k {
        assert At(h, l, i + 1) == At(h, list, o + 1);
        AtApart(h, list, k, o);
        AtApartAfter(h, list, k + 1, o);
      }
    }
  }

  /** Deleting an entry that has just been deleted changes nothing. */
  lemma DelAgain(next: seq<nat>, prev: seq<nat>, h: nat, list: seq<nat>, k: nat)
    requires Ring(next, prev, h, list) && k < |list|
    ensures prev[list[k]] < |next| && next[list[k]] < |next|
    ensures var e, p, n := list[k], prev[list[k]], next[list[k]];
            next[p := n][e] == n && prev[n := p][e] == p && next[p := n][p := n] == next[p := n]
                && prev[n := p][n := p] == prev[n := p]
  {
    DelRing(next, prev, h, list, k);
    AtApart(h, list, k, k + 1);
    AtApartAfter(h, list, k, k + 1);
  }

  /** Putting e between entries k and k + 1. */
  lemma AddRing(next: seq<nat>, prev: seq<nat>, h: nat, list: seq<nat>, k: nat, e: nat)
    requires Ring(next, prev, h, list) && k <= |list| && e < |next| && e != h && e !in list
    ensures At(h, list, k) < |next| && At(h, list, k + 1) < |next|
    ensures var p, n := At(h, list, k), At(h, list, k + 1);
            Ring(next[p := e][e := n], prev[n := e][e := p], h, With(list, k, e))
  {
    var p, n := At(h, list, k), At(h, list, k + 1);
    var l := With(list, k, e);
    var nx, pv := next[p := e][e := n], prev[n := e][e := p];
    forall i: nat | i <= |l|
      ensures nx[At(h, l, i)] == At(h, l, i + 1) && pv[At(h, l, i + 1)] == At(h, l, i)
    {
      if i < k {
        assert At(h, l, i) == At(h, list, i) && At(h, l, i + 1) == At(h, list, i + 1);
        AtApart(h, list, k, i);
        AtApartAfter(h, list, k, i);
      } else if i > k + 1 {
        assert At(h, l, i) == At(h, list, i - 1) && At(h, l, i + 1) == At(h, list, i);
        AtApart(h, list, k, i - 1);
        AtApartAfter(h, list, k, i - 1);
      } else {
        assert At(h, l, k) == p && At(h, l, k + 1) == e && At(h, l, k + 2) == n;
      }
    }
  }

  /** The links of an entry that is not in the ring do not matter. */
  lemma RingFrame(next: seq<nat>, prev: seq<nat>, next': seq<nat>, prev': seq<nat>, h: nat, list: seq<nat>, e: nat)
    requires Ring(next, prev, h, list) && |next'| == |next| == |prev'| && e != h && e !in list
    requires forall i: nat :: i < |next| && i != e ==> next'[i] == next[i] && prev'[i] == prev[i]
    ensures Ring(next', prev', h, list)
  {
    forall i: nat | i <= |list|
      ensures next'[At(h, list, i)] == At(h, list, i + 1) && prev'[At(h, list, i + 1)] == At(h, list, i)
    {
      assert At(h, list, i) != e && At(h, list, i + 1) != e;
    }
  }

  /** An entry taken out of the ring can be used to put another in its place: adding q behind e, whose links are stale,
      and taking e out once more. */
  lemma ReplaceRing(next: seq<nat>, prev: seq<nat>, h: nat, list: seq<nat>, k: nat, q: nat)
    requires Ring(next, prev, h, list) && k < |list| && q < |next| && q != h && q !in list
    ensures prev[list[k]] < |next| && next[list[k]] < |next|
    ensures var e, p, n := list[k], prev[list[k]], next[list[k]];
            && prev[n := p][n := q][q := e][e] == p && next[p := n][e := q][q := n][e] == q
            && Ring(next[p := n][e := q][q := n][p := q], prev[n := p][n := q][q := e][q := p], h,
                  With(Without(list, k), k, q))
  {
    DelRing(next, prev, h, list, k);
    var e, p, n := list[k], prev[list[k]], next[list[k]];
    var l := Without(list, k);
    assert At(h, l, k) == p && At(h, l, k + 1) == n;
    AddRing(next[p := n], prev[n := p], h, l, k, q);
    AtApart(h, list, k, k + 1);
    AtApartAfter(h, list, k, k + 1);
    assert e !in l && e != h;
    RingFrame(next[p := n][p := q][q := n], prev[n := p][n := q][q := p],
              next[p := n][e := q][q := n][p := q], prev[n := p][n := q][q := e][q := p], h, With(l, k, q), e);
  }
}
