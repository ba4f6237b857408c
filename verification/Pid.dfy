/** get_pid of kern/process/proc.c: process numbers, with a cached range known to be free. */
module Pids {
  const MAX_PROCESS := 4096
  const MAX_PID := MAX_PROCESS * 2

  // ---------- there is always a free pid ----------

  lemma {:induction false} AllTaken(live: seq<int>, n: nat)
    requires forall p :: 1 <= p <= n ==> p in live
    ensures n <= |live|
    decreases n
  {
    if n > 0 {
      assert n in live;
      var i :| 0 <= i < |live| && live[i] == n;
      var rest := live[..i] + live[i + 1..];
      forall p | 1 <= p <= n - 1 ensures p in rest {
        assert p in live;
        var k :| 0 <= k < |live| && live[k] == p;
        assert rest[if k < i then k else k - 1] == p;
      }
      AllTaken(rest, n - 1);
    }
  }

  lemma SomeFree(live: seq<int>) returns (q: int)
    requires |live| < MAX_PID - 1
    ensures 1 <= q < MAX_PID && q !in live
  {
    if forall p :: 1 <= p <= MAX_PID - 1 ==> p in live {
      AllTaken(live, MAX_PID - 1);
      assert false;
    }
    q :| 1 <= q <= MAX_PID - 1 && q !in live;
  }

  /** How far p is from q, going up and from the top back to 1. */
  ghost function Distance(p: int, q: int): int {
    if p <= q then q - p else q - p + MAX_PID - 1
  }

  /** No live pid in [lo, hi). */
  ghost predicate Gap(live: seq<int>, lo: int, hi: int) {
    forall j :: 0 <= j < |live| ==> !(lo <= live[j] < hi)
  }

  function Next(p: int): int {
    if p + 1 >= MAX_PID then 1 else p + 1
  }

  /** Going up from p, q is the first pid that may be free. */
  ghost predicate NoneBefore(live: seq<int>, p: int, q: int) {
    forall r :: 1 <= r < MAX_PID && Distance(p, r) < Distance(p, q) ==> r in live
  }

  lemma NoneYet(live: seq<int>, p: int, q: int)
    requires 1 <= p < MAX_PID && 1 <= q < MAX_PID
    ensures NoneBefore(live, p, p) && Distance(p, q) >= 0
  {
  }

  lemma OneFurther(live: seq<int>, p: int, q: int, free: int)
    requires 1 <= p < MAX_PID && 1 <= q < MAX_PID && q in live && NoneBefore(live, p, q)
    requires 1 <= free < MAX_PID && free !in live
    ensures NoneBefore(live, p, Next(q)) && Distance(Next(q), free) == Distance(q, free) - 1 >= 0
  {
    assert Distance(p, free) > Distance(p, q);
    forall r | 1 <= r < MAX_PID && Distance(p, r) < Distance(p, Next(q)) ensures r in live {
      assert Distance(p, r) <= Distance(p, q);
    }
  }

  lemma Dropped(live: seq<int>, i: nat)
    requires i < |live| && forall a, b :: 0 <= a < b < |live| ==> live[a] != live[b]
    ensures var rest := live[..i] + live[i + 1..];
            && |rest| == |live| - 1 && (forall a, b :: 0 <= a < b < |rest| ==> rest[a] != rest[b])
            && forall p :: p in rest <==> p in live && p != live[i]
  {
    var rest := live[..i] + live[i + 1..];
    forall k: nat | k < |rest| ensures rest[k] == live[if k < i then k else k + 1] {
    }
    forall p | p in live && p != live[i] ensures p in rest {
      var k :| 0 <= k < |live| && live[k] == p;
      assert rest[if k < i then k else k - 1] == p;
    }
  }

  class PidTable {
    /** The pids on proc_list. */
    var live: seq<int>
    var lastPid: int
    var nextSafe: int

    constructor ()
      ensures Valid() && live == []
    {
      live, lastPid, nextSafe := [], MAX_PID, MAX_PID;
    }

    /** The pids are distinct and in range, and those between lastPid and nextSafe are free. */
    ghost predicate Valid()
      reads this
    {
      && 1 <= lastPid && nextSafe <= MAX_PID && Gap(live, lastPid + 1, nextSafe)
      && (forall i :: 0 <= i < |live| ==> 1 <= live[i] < MAX_PID)
      && (forall i, j :: 0 <= i < j < |live| ==> live[i] != live[j])
    }

    /** From the label inside on: the scan of the process list, started over whenever the candidate leaves the range
        known to be free. The candidate moves only off live pids, so it cannot pass a free one. */
    method Scan()
      requires 1 <= lastPid < MAX_PID && |live| < MAX_PID - 1
      modifies `lastPid, `nextSafe
      ensures 1 <= lastPid < nextSafe <= MAX_PID && Gap(live, lastPid, nextSafe)
      ensures NoneBefore(live, old(lastPid), lastPid)
    {
      hide NoneBefore, Distance;
      ghost var q := SomeFree(live);
      NoneYet(live, lastPid, q);
      nextSafe := MAX_PID;
      var i := 0;
      while i < |live|
        invariant 1 <= lastPid < nextSafe <= MAX_PID && i <= |live| && Gap(live[..i], lastPid, nextSafe)
        invariant NoneBefore(live, old(lastPid), lastPid) && Distance(lastPid, q) >= 0
        decreases Distance(lastPid, q), |live| - i
      {
        assert live[..i + 1] == live[..i] + [live[i]];
        if live[i] == lastPid {
          OneFurther(live, old(lastPid), lastPid, q);
          lastPid := lastPid + 1;
          if lastPid >= nextSafe {
            if lastPid >= MAX_PID {
              lastPid := 1;
            }
            nextSafe := MAX_PID;
            i := 0;
            continue;
          }
        } else if live[i] > lastPid && nextSafe > live[i] {
          nextSafe := live[i];
        }
        i := i + 1;
      }
      assert live[..i] == live;
    }

    /** get_pid: a pid that no listed process has. */
    method GetPid() returns (pid: int)
      requires Valid() && |live| < 4096
      modifies `lastPid, `nextSafe
      ensures Valid() && 1 <= pid < 8192 && pid !in live && lastPid == pid < nextSafe
      ensures NoneBefore(live, Next(old(lastPid)), pid)
    {
      lastPid := lastPid + 1;
      if lastPid >= MAX_PID {
        lastPid := 1;
        Scan();
      } else if lastPid >= nextSafe {
        Scan();
      }
      pid := lastPid;
    }

    /** The part of do_fork that gives the new process its pid and lists it. */
    method Fork() returns (pid: int)
      requires Valid() && |live| < 4096
      modifies this
      ensures Valid() && pid !in old(live) && live == [pid] + old(live)
    {
      pid := GetPid();
      live := [pid] + live;
    }

    /** remove_links at the end of do_wait. */
    method Reap(pid: int)
      requires Valid() && pid in live
      modifies `live
      ensures Valid() && |live| == |old(live)| - 1
      ensures pid !in live && forall p :: p != pid ==> (p in live <==> p in old(live))
    {
      var i :| 0 <= i < |live| && live[i] == pid;
      Dropped(live, i);
      live := live[..i] + live[i + 1..];
    }
  }
}
