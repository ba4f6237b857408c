/** kern/schedule/stride_rb_tree.c, cfs_rb_tree.c and the queue part of
    default_sched.c and cfs_sched.c.

    The two scheduling classes run the same tree code with different
    comparators, so the class is a field. A stride is a 32-bit counter that
    wraps; `keys` holds the number it would be if it never did. As long as those
    numbers stay within BIG_STRIDE of each other the wrapped comparison is the
    unbounded one, and the tree is sorted by the unbounded keys.
 */
module RunQueue {
  import opened Process
  import opened RbShape
  import opened RbTree

  const BIG_STRIDE := 0x7FFF_FFFF

  datatype Class = Stride | Cfs

  /** A uint32_t value read as an int32_t. */
  function Signed(x: int): int {
    if x <= 0x7FFF_FFFF then x else x - WORD
  }

  /** compare_stride_node and compare_cfs_node: 1 or -1, never 0. */
  function Compare(cls: Class, a: Proc, b: Proc): int
    reads a`stride, a`vruntime, b`stride, b`vruntime
  {
    var c := if cls == Stride then Signed((a.stride - b.stride) % WORD) else a.vruntime - b.vruntime;
    if c != 0 then (if c > 0 then 1 else -1) else if a.pid > b.pid then 1 else -1
  }

  type Keys = map<Proc, int>

  /** The order the queue is kept in: by key, then by pid. */
  ghost predicate Less(v: Keys, p: Proc, q: Proc) {
    p in v && q in v && (v[p] < v[q] || (v[p] == v[q] && p.pid < q.pid))
  }

  /** The field of p holds its key: modulo 2^32 for a stride, exactly for a vruntime. */
  ghost predicate Reflects(cls: Class, v: Keys, p: Proc)
    reads p`stride, p`vruntime
  {
    p in v && if cls == Stride then p.stride == v[p] % WORD else p.vruntime == v[p]
  }

  /** Two keys that a wrapped comparison can tell apart. */
  ghost predicate Comparable(cls: Class, v: Keys, p: Proc, q: Proc) {
    p in v && q in v && (cls == Stride ==> v[p] - v[q] <= BIG_STRIDE && v[q] - v[p] <= BIG_STRIDE)
  }

  lemma WrappedDifference(a: int, b: int)
    requires a - b <= BIG_STRIDE && b - a <= BIG_STRIDE
    ensures Signed((a % WORD - b % WORD) % WORD) == a - b
  {
    var d := a % WORD - b % WORD;
    assert (d - (a - b)) % WORD == 0;
  }

  /** Within the window the wrapped comparison is the unbounded one. */
  lemma CompareAgrees(cls: Class, v: Keys, p: Proc, q: Proc)
    requires Reflects(cls, v, p) && Reflects(cls, v, q) && Comparable(cls, v, p, q) && p.pid != q.pid
    ensures Compare(cls, p, q) < 0 <==> Less(v, p, q)
    ensures Compare(cls, p, q) > 0 <==> Less(v, q, p)
  {
    if cls == Stride {
      WrappedDifference(v[p], v[q]);
    }
  }

  /** One past the window it is not: the larger of two strides BIG_STRIDE + 1 apart compares as the smaller. */
  lemma WindowIsTight(v: Keys, p: Proc, q: Proc)
    requires Reflects(Stride, v, p) && Reflects(Stride, v, q) && v[p] == v[q] + BIG_STRIDE + 1
    ensures Less(v, q, p) && Compare(Stride, p, q) < 0
  {
    var a, b := v[p], v[q];
    assert (a % WORD - b % WORD - 0x8000_0000) % WORD == 0;
  }

  // ---------- newcomers ----------

  /** The stride a is before b in the wrapped comparison. */
  predicate Before32(a: Word, b: Word) {
    Signed((a - b) % WORD) < 0
  }

  /** A stride that fits in with those of ps: the wrapped comparison stays transitive. */
  ghost predicate InReach(ps: set<Proc>, stride: Word)
    reads ps`stride
  {
    forall p, q :: p in ps && q in ps && Before32(stride, p.stride) && Before32(q.stride, stride) ==>
        Before32(q.stride, p.stride)
  }

  /** A number for a stride that keeps it comparable with ps. */
  ghost predicate Fits(v: Keys, ps: set<Proc>, stride: Word, key: int) {
    key % WORD == stride && forall q :: q in ps ==> q in v && key - v[q] <= BIG_STRIDE && v[q] - key <= BIG_STRIDE
  }

  /** The only number for the stride b that is comparable with a number for the stride a. */
  ghost function Nearest(a: Word, key: int, b: Word): int {
    key + Signed((b - a) % WORD)
  }

  lemma NearestHolds(a: Word, key: int, b: Word)
    requires key % WORD == a
    ensures Nearest(a, key, b) % WORD == b
  {
    assert (key + (b - a) % WORD) % WORD == b;
  }

  /** Two comparable numbers, and a third stride in reach of both. */
  lemma NearestAgrees(a: int, b: int, stride: Word)
    requires a - b <= BIG_STRIDE && b - a <= BIG_STRIDE
    requires !(Before32(stride, a % WORD) && Before32(a % WORD, stride))
    requires !(Before32(stride, b % WORD) && Before32(b % WORD, stride))
    requires Before32(stride, a % WORD) && Before32(b % WORD, stride) ==> Before32(b % WORD, a % WORD)
    requires Before32(stride, b % WORD) && Before32(a % WORD, stride) ==> Before32(a % WORD, b % WORD)
    ensures var k := Nearest(a % WORD, a, stride); k - b <= BIG_STRIDE && b - k <= BIG_STRIDE
  {
    var x, y := a % WORD, b % WORD;
    Wrapped(stride, x);
    Wrapped(x, stride);
    Wrapped(stride, y);
    Wrapped(y, stride);
    Wrapped(x, y);
    Wrapped(y, x);
    NearestOf(a / WORD, x, b / WORD, y, stride);
  }

  /** The wrapped difference of two words, without division. */
  function Around(a: Word, b: Word): int {
    if a >= b then (if a - b <= BIG_STRIDE then a - b else a - b - WORD)
    else if b - a <= BIG_STRIDE + 1 then a - b else a - b + WORD
  }

  lemma Wrapped(a: Word, b: Word)
    ensures Signed((a - b) % WORD) == Around(a, b)
  {
    if a >= b {
      assert (a - b) % WORD == a - b;
    } else {
      assert (a - b) % WORD == a - b + WORD;
    }
  }

  lemma NearestOf(p: int, x: Word, q: int, y: Word, z: Word)
    requires -BIG_STRIDE <= (0x1_0000_0000 * p + x) - (0x1_0000_0000 * q + y) <= BIG_STRIDE
    requires !(Around(z, x) < 0 && Around(x, z) < 0) && !(Around(z, y) < 0 && Around(y, z) < 0)
    requires Around(z, x) < 0 && Around(y, z) < 0 ==> Around(y, x) < 0
    requires Around(z, y) < 0 && Around(x, z) < 0 ==> Around(x, y) < 0
    ensures -BIG_STRIDE <= 0x1_0000_0000 * p + x + Around(z, x) - (0x1_0000_0000 * q + y) <= BIG_STRIDE
  {
  }

  /** There is a number for a newcomer's stride just when the comparison stays transitive with it. */
  lemma JoinExact(v: Keys, ps: set<Proc>, stride: Word)
    requires Held(Stride, v, ps) && Spread(Stride, v, ps)
    ensures (exists key :: Fits(v, ps, stride, key)) <==> InReach(ps, stride)
  {
    if key :| Fits(v, ps, stride, key) {
      forall p | p in ps
          ensures Signed((p.stride - stride) % WORD) == v[p] - key && Signed((stride - p.stride) % WORD) == key - v[p] {
        WrappedDifference(v[p], key);
        WrappedDifference(key, v[p]);
      }
      forall p, q | p in ps && q in ps ensures Signed((q.stride - p.stride) % WORD) == v[q] - v[p] {
        assert Comparable(Stride, v, p, q);
        WrappedDifference(v[q], v[p]);
      }
    }
    if InReach(ps, stride) {
      if ps == {} {
        assert Fits(v, ps, stride, stride);
      } else {
        var p :| p in ps;
        var key := Nearest(p.stride, v[p], stride);
        NearestHolds(p.stride, v[p], stride);
        forall q | q in ps ensures q in v && key - v[q] <= BIG_STRIDE && v[q] - key <= BIG_STRIDE {
          assert Comparable(Stride, v, p, q);
          NearestAgrees(v[p], v[q], stride);
        }
        assert Fits(v, ps, stride, key);
      }
    }
  }

  /** The strides of p and q are on either side of the point half way round, and less than that apart. */
  ghost predicate Straddles(p: Proc, q: Proc)
    reads p`stride, q`stride
  {
    0 < p.stride <= 0x8000_0000 <= q.stride && q.stride - p.stride < 0x8000_0000
  }

  /** A new process, whose stride is 0, is out of reach just when two strides straddle that point. */
  lemma NewcomerOutOfReach(ps: set<Proc>)
    ensures InReach(ps, 0) <==> !exists p, q :: p in ps && q in ps && Straddles(p, q)
  {
    forall p, q | p in ps && q in ps
        ensures Straddles(p, q) <==>
                  Before32(0, p.stride) && Before32(q.stride, 0) && !Before32(q.stride, p.stride) {
      Wrapped(0, p.stride);
      Wrapped(q.stride, 0);
      Wrapped(q.stride, p.stride);
    }
  }

  /** As with strides of 0x6000_0000 and 0xA000_0000. */
  lemma OutOfReach(p: Proc, q: Proc)
    requires p.stride == 0x6000_0000 && q.stride == 0xA000_0000
    ensures !InReach({p, q}, 0)
  {
    assert p in {p, q} && q in {p, q} && Straddles(p, q);
    NewcomerOutOfReach({p, q});
  }

  // ---------- the queue as a sequence ----------

  ghost predicate Ordered(v: Keys, ns: seq<Node>) {
    forall i, j :: 0 <= i < j < |ns| ==> Less(v, ns[i].proc, ns[j].proc)
  }

  ghost predicate Held(cls: Class, v: Keys, ps: set<Proc>)
    reads ps`stride, ps`vruntime
  {
    forall p :: p in ps ==> Reflects(cls, v, p)
  }

  ghost predicate Spread(cls: Class, v: Keys, ps: set<Proc>) {
    forall p, q :: p in ps && q in ps ==> Comparable(cls, v, p, q)
  }

  ghost predicate DistinctPids(ps: set<Proc>) {
    forall p, q :: p in ps && q in ps && p.pid == q.pid ==> p == q
  }

  /** Every key is held by its process, and the comparison tells any two processes apart. */
  ghost predicate Readable(cls: Class, v: Keys, ps: set<Proc>)
    reads ps`stride, ps`vruntime
  {
    Held(cls, v, ps) && Spread(cls, v, ps) && DistinctPids(ps)
  }

  ghost function Procs(ns: seq<Node>): set<Proc> {
    set i | 0 <= i < |ns| :: ns[i].proc
  }

  ghost function LeftEdge(t: Tree): seq<Node> {
    if t.Leaf? then [] else [t.node] + LeftEdge(t.left)
  }

  /** What comes behind x in an ordered sequence, and in front of it. */
  lemma AfterIt(v: Keys, b: seq<Node>, l: seq<Node>, x: Node, r: seq<Node>, a: seq<Node>, p: Proc)
    requires Ordered(v, b + (l + [x] + r) + a) && Less(v, p, x.proc)
    ensures forall n :: n in r ==> Less(v, p, n.proc)
  {
    var all, at := b + (l + [x] + r) + a, |b| + |l|;
    forall n | n in r ensures Less(v, p, n.proc) {
      var i :| 0 <= i < |r| && r[i] == n;
      assert all[at] == x && all[at + 1 + i] == n;
    }
  }

  lemma BeforeIt(v: Keys, b: seq<Node>, l: seq<Node>, x: Node, r: seq<Node>, a: seq<Node>, p: Proc)
    requires Ordered(v, b + (l + [x] + r) + a) && Less(v, x.proc, p)
    ensures forall n :: n in l ==> Less(v, n.proc, p)
  {
    var all, at := b + (l + [x] + r) + a, |b| + |l|;
    forall n | n in l ensures Less(v, n.proc, p) {
      var i :| 0 <= i < |l| && l[i] == n;
      assert all[at] == x && all[|b| + i] == n;
    }
  }

  /** What a comparison with the node at a position says about the nodes on its other side. */
  lemma DescendLeft(v: Keys, k: Path, t: Tree, p: Proc)
    requires t.Branch? && Ordered(v, InOrder(Plug(k, t))) && Less(v, p, t.node.proc)
    ensures forall n :: n in InOrder(t.right) ==> Less(v, p, n.proc)
  {
    hide Plug, Before, After;
    PlugInOrder(k, t);
    AfterIt(v, Before(k), InOrder(t.left), t.node, InOrder(t.right), After(k), p);
  }

  lemma DescendRight(v: Keys, k: Path, t: Tree, p: Proc)
    requires t.Branch? && Ordered(v, InOrder(Plug(k, t))) && Less(v, t.node.proc, p)
    ensures forall n :: n in InOrder(t.left) ==> Less(v, n.proc, p)
  {
    hide Plug, Before, After;
    PlugInOrder(k, t);
    BeforeIt(v, Before(k), InOrder(t.left), t.node, InOrder(t.right), After(k), p);
  }

  lemma PlugHas(k: Path, t: Tree)
    requires t.Branch?
    ensures t.node.proc in Procs(InOrder(Plug(k, t)))
  {
    PlugInOrder(k, t);
    assert InOrder(Plug(k, t))[|Before(k)| + |InOrder(t.left)|] == t.node;
  }

  lemma OrderedInsert(v: Keys, a: seq<Node>, n: Node, c: seq<Node>)
    requires Ordered(v, a + c)
    requires forall m :: m in a ==> Less(v, m.proc, n.proc)
    requires forall m :: m in c ==> Less(v, n.proc, m.proc)
    ensures Ordered(v, a + [n] + c)
  {
    var s := a + [n] + c;
    forall i, j | 0 <= i < j < |s| ensures Less(v, s[i].proc, s[j].proc) {
      assert i != |a| && j != |a| ==>
          s[i] == (a + c)[if i < |a| then i else i - 1] && s[j] == (a + c)[if j < |a| then j else j - 1];
    }
  }

  lemma ProcsInsert(ns: seq<Node>, i: nat, n: Node)
    requires i <= |ns|
    ensures Procs(ns[..i] + [n] + ns[i..]) == Procs(ns) + {n.proc}
  {
    var s := ns[..i] + [n] + ns[i..];
    assert forall j :: 0 <= j < |ns| ==> ns[j] == s[if j < i then j else j + 1];
    assert s[i] == n;
  }

  /** BIG_STRIDE / (20 - prior), in unsigned arithmetic. */
  function Pass(prior: Word): (d: int)
    requires prior != 20
    ensures 0 <= d <= BIG_STRIDE
  {
    BIG_STRIDE / ((20 - prior) % WORD)
  }

  /** The step is the share of BIG_STRIDE that 20 - prior stands for, rounded down. Above 20 the divisor wraps: a
      process does not move on at all up to 0x8000_0014, and does again beyond. */
  lemma PassExactly(prior: Word)
    requires prior != 20
    ensures var w := if prior < 20 then 20 - prior else 0x1_0000_0014 - prior;
            Pass(prior) * w <= 0x7FFF_FFFF < (Pass(prior) + 1) * w
    ensures Pass(prior) == 0 <==> 20 < prior <= 0x8000_0014
  {
    var w: int := if prior < 20 then 20 - prior else 0x1_0000_0014 - prior;
    assert (20 - prior) % WORD == w;
    Quotient(0x7FFF_FFFF, w);
  }

  lemma Quotient(n: int, d: int)
    requires n >= 0 && d > 0
    ensures (n / d) * d <= n < (n / d + 1) * d && (n / d == 0 <==> n < d)
  {
  }

  lemma Mul(a: int, b: int, c: int)
    requires a <= b && c >= 0
    ensures a * c <= b * c && c * a <= c * b
  {
  }

  lemma LessShare(n: int, a: int, b: int, x: int, y: int)
    requires 0 < b < a <= 20 && x >= 0 && x * a <= n < (x + 1) * a && y >= 0 && n < (y + 1) * b && n >= 400
    ensures x < y
  {
    if y <= x {
      Mul(y + 1, x + 1, b);
      Mul(b, a - 1, x + 1);
      assert (x + 1) * (a - 1) == x * a - x + a - 1;
      Mul(a, 20, x + 1);
    }
  }

  /** The step grows with the priority, so that a process of a greater priority is picked less often. */
  lemma PassGrows(p: Word, q: Word)
    requires p < q < 20
    ensures Pass(p) < Pass(q)
  {
    hide Pass;
    PassExactly(p);
    PassExactly(q);
    LessShare(0x7FFF_FFFF, 20 - p, 20 - q, Pass(p), Pass(q));
  }

  ghost function Advance(v: Keys, p: Proc): Keys
    requires p.stridePrior != 20
    reads p`stridePrior
  {
    if p in v then v[p := v[p] + Pass(p.stridePrior)] else v
  }

  lemma WrapAdd(a: int, d: int)
    ensures (a % WORD + d) % WORD == (a + d) % WORD
  {
  }

  lemma PutOne(a: seq<Node>, x: Node, c: seq<Node>)
    ensures (a + c)[..|a|] == a && (a + c)[|a|..] == c && (a + [x] + c)[|a|] == x
  {
  }

  /** p comes before every other process of ps. */
  ghost predicate Least(v: Keys, ps: set<Proc>, p: Proc) {
    p in ps && forall q :: q in ps && q != p ==> Less(v, p, q)
  }

  lemma HeadIsLeast(v: Keys, ns: seq<Node>)
    requires Ordered(v, ns) && ns != []
    ensures Least(v, Procs(ns), ns[0].proc)
    ensures Procs(ns[1..]) == Procs(ns) - {ns[0].proc}
  {
    var rest := ns[1..];
    assert forall j :: 0 <= j < |rest| ==> rest[j] == ns[j + 1];
    forall q | q in Procs(ns) && q != ns[0].proc ensures q in Procs(rest) && Less(v, ns[0].proc, q) {
      var j :| 0 <= j < |ns| && ns[j].proc == q;
      assert rest[j - 1].proc == q;
    }
    forall q | q in Procs(rest) ensures q in Procs(ns) && q != ns[0].proc {
      var j :| 0 <= j < |rest| && rest[j].proc == q;
      assert Less(v, ns[0].proc, ns[j + 1].proc);
    }
  }

  /** Moving the key of the head does not disturb the order of the rest. */
  lemma TailOrdered(v: Keys, w: Keys, ns: seq<Node>)
    requires Ordered(v, ns) && ns != []
    requires forall q :: q in v && q != ns[0].proc ==> q in w && w[q] == v[q]
    ensures Ordered(w, ns[1..])
  {
    forall i, j | 0 <= i < j < |ns[1..]| ensures Less(w, ns[1..][i].proc, ns[1..][j].proc) {
      assert Less(v, ns[0].proc, ns[i + 1].proc) && Less(v, ns[0].proc, ns[j + 1].proc);
    }
  }

  ghost predicate OncePerPid(ns: seq<Node>) {
    forall i, j :: 0 <= i < j < |ns| ==> ns[i].proc.pid != ns[j].proc.pid
  }

  lemma OrderedOnce(v: Keys, ns: seq<Node>)
    requires Ordered(v, ns)
    requires DistinctPids(Procs(ns))
    ensures OncePerPid(ns)
  {
    forall i, j | 0 <= i < j < |ns| ensures ns[i].proc.pid != ns[j].proc.pid {
      assert Less(v, ns[i].proc, ns[j].proc);
      assert ns[i].proc in Procs(ns) && ns[j].proc in Procs(ns);
    }
  }

  /** Advancing the least process keeps every two keys comparable: the spread never exceeds BIG_STRIDE. */
  lemma AdvanceKeepsSpread(v: Keys, ps: set<Proc>, p: Proc)
    requires Spread(Stride, v, ps) && Least(v, ps, p) && p.stridePrior != 20
    ensures Spread(Stride, Advance(v, p), ps)
  {
    assert Comparable(Stride, v, p, p);
  }

  lemma {:induction false} FirstOnLeftEdge(t: Tree)
    requires t.Branch?
    ensures InOrder(t) != [] && InOrder(t)[0] in LeftEdge(t)
  {
    if t.left.Branch? { FirstOnLeftEdge(t.left); }
  }

  class Queue {
    const cls: Class
    const root: Root
    var procNum: int
    const maxTimeSlice: int
    ghost var tree: Tree
    ghost var keys: Keys

    /** stride_init and cfs_init. */
    constructor (cls: Class, maxTimeSlice: int)
      ensures Valid() && tree == Leaf && keys == map[] && this.cls == cls && this.maxTimeSlice == maxTimeSlice
      ensures fresh(root)
    {
      this.cls := cls;
      this.maxTimeSlice := maxTimeSlice;
      procNum := 0;
      tree := Leaf;
      keys := map[];
      root := new Root();
    }

    ghost predicate Linked()
      reads this`tree, root, Nodes(tree)
    {
      At(root, Top, tree, root.node) && RedBlack(tree)
    }

    ghost predicate Valid()
      reads this, root, Nodes(tree), Procs(InOrder(tree))`stride, Procs(InOrder(tree))`vruntime
    {
      && Linked() && procNum == |InOrder(tree)| && Ordered(keys, InOrder(tree))
      && Readable(cls, keys, Procs(InOrder(tree)))
    }

    /** The queue is sorted, and there is one place in it for another process. */
    ghost predicate Sortable(proc: Proc)
      reads this, proc`stride, proc`vruntime, Procs(InOrder(tree))`stride, Procs(InOrder(tree))`vruntime
    {
      && Ordered(keys, InOrder(tree)) && proc !in Procs(InOrder(tree))
      && Readable(cls, keys, Procs(InOrder(tree)) + {proc})
    }

    /** The place of an empty position in the order. */
    ghost predicate Between(k: Path, proc: Proc)
      reads this`keys
    {
      && (forall n :: n in Before(k) ==> Less(keys, n.proc, proc))
      && (forall n :: n in After(k) ==> Less(keys, proc, n.proc))
    }

    lemma StartsBetween(proc: Proc)
      ensures Between(Top, proc)
    {
    }

    /** What the comparison with the process at a position tells in a sorted queue. */
    lemma Descend(proc: Proc, k: Path, t: Tree)
      requires Sortable(proc) && t.Branch? && Plug(k, t) == tree && Between(k, proc)
      ensures Compare(cls, proc, t.node.proc) < 0 ==> Between(InLeft(k, t.node, t.color, t.right), proc)
      ensures Compare(cls, proc, t.node.proc) >= 0 ==> Between(InRight(k, t.left, t.node, t.color), proc)
    {
      PlugHas(k, t);
      CompareAgrees(cls, keys, proc, t.node.proc);
      if Compare(cls, proc, t.node.proc) < 0 {
        DescendLeft(keys, k, t, proc);
      } else {
        DescendRight(keys, k, t, proc);
      }
    }

    /** The loop of stride_insert and cfs_insert: the empty position where a new process belongs. */
    method FindPlace(proc: Proc) returns (parent: Node?, asLeft: bool, ghost k: Path)
      requires Linked()
      ensures At(root, k, Leaf, null) && Plug(k, Leaf) == tree
      ensures parent == Above(k) && (parent != null ==> asLeft == k.InLeft?)
      ensures Sortable(proc) ==> Between(k, proc)
    {
      hide Sortable, Between;
      var at := root.node;
      parent, asLeft := null, false;
      ghost var t := tree;
      k := Top;
      StartsBetween(proc);
      while at != null
        invariant At(root, k, t, at) && Plug(k, t) == tree
        invariant parent == Above(k) && (parent != null ==> asLeft == k.InLeft?)
        invariant Sortable(proc) ==> Between(k, proc)
        decreases t
      {
        parent := at;
        if Sortable(proc) {
          Descend(proc, k, t);
        }
        if Compare(cls, proc, at.proc) < 0 {
          GoLeft(root, k, t, at);
          at, asLeft := at.left, true;
          k, t := InLeft(k, t.node, t.color, t.right), t.left;
        } else {
          GoRight(root, k, t, at);
          at, asLeft := at.right, false;
          k, t := InRight(k, t.left, t.node, t.color), t.right;
        }
      }
    }

    /** A node for proc is linked at the empty position k. */
    method InsertAt(proc: Proc, parent: Node?, asLeft: bool, ghost k: Path) returns (ghost data: Node)
      requires Linked() && At(root, k, Leaf, null) && Plug(k, Leaf) == tree
      requires parent == Above(k) && (parent != null ==> asLeft == k.InLeft?)
      modifies this`tree, root, Nodes(tree)
      ensures Linked() && fresh(data) && data.proc == proc
      ensures InOrder(tree) == Before(k) + [data] + After(k) && Nodes(tree) == old(Nodes(tree)) + {data}
    {
      assert allocated(Nodes(tree));
      PlugNodes(k, Leaf);
      var node := new Node(proc);
      tree := RbTree.Insert(node, parent, asLeft, root, k);
      data := node;
    }

    /** stride_insert and cfs_insert: the process is put where the order wants it. */
    method Insert(proc: Proc) returns (ghost i: nat, ghost data: Node)
      requires Linked()
      modifies this`tree, root, Nodes(tree)
      ensures Linked() && fresh(data) && data.proc == proc
      ensures old(Sortable(proc)) ==> Ordered(keys, InOrder(tree))
      ensures i <= |old(InOrder(tree))|
      ensures InOrder(tree) == old(InOrder(tree))[..i] + [data] + old(InOrder(tree))[i..]
      ensures Nodes(tree) == old(Nodes(tree)) + {data}
      ensures Procs(InOrder(tree)) == old(Procs(InOrder(tree))) + {proc}
    {
      var parent, asLeft;
      ghost var k;
      assert allocated(Nodes(tree));
      parent, asLeft, k := FindPlace(proc);
      PlugInOrder(k, Leaf);
      assert InOrder(tree) == Before(k) + After(k);
      data := InsertAt(proc, parent, asLeft, k);
      i := |Before(k)|;
      PutOne(Before(k), data, After(k));
      if old(Sortable(proc)) {
        OrderedInsert(keys, Before(k), data, After(k));
      }
      ProcsInsert(old(InOrder(tree)), i, data);
    }

    /** stride_search and cfs_search: since Compare is never 0 the walk only goes left, so it finds a process
        if and only if that process is on the left edge of the tree. */
    method Search(proc: Proc) returns (data: Node?)
      requires Linked()
      ensures data == null ==> forall n :: n in LeftEdge(tree) ==> n.proc.pid != proc.pid
      ensures data != null ==> data in LeftEdge(tree) && data in Nodes(tree) && data.proc.pid == proc.pid
    {
      data := root.node;
      ghost var k, t := Top, tree;
      ghost var seen: seq<Node> := [];
      while data != null
        invariant At(root, k, t, data) && Plug(k, t) == tree
        invariant LeftEdge(tree) == seen + LeftEdge(t) && forall n :: n in seen ==> n.proc.pid != proc.pid
        decreases t
      {
        if data.proc.pid == proc.pid {
          PlugNodes(k, t);
          return;
        }
        var left, right := data.left, data.right;
        seen := seen + [data];
        GoLeft(root, k, t, data);
        data := if Compare(cls, data.proc, proc) != 0 then left else right;
        k, t := InLeft(k, t.node, t.color, t.right), t.left;
      }
    }

    /** stride_find_min and cfs_find_min. */
    method FindMin() returns (p: Proc?)
      requires Linked()
      ensures if InOrder(tree) == [] then p == null else p == InOrder(tree)[0].proc
    {
      var node := First(root, tree);
      p := if node == null then null else node.proc;
    }

    /** stride_enqueue and cfs_enqueue. */
    method Enqueue(proc: Proc)
      requires Linked() && procNum == |InOrder(tree)|
      modifies this`tree, this`procNum, root, Nodes(tree), proc`timeSlice
      ensures Linked() && procNum == |InOrder(tree)| && Procs(InOrder(tree)) == old(Procs(InOrder(tree))) + {proc}
      ensures old(Sortable(proc)) ==> Valid()
      ensures forall n :: n in Nodes(tree) ==> n in old(Nodes(tree)) || fresh(n)
      ensures proc.timeSlice == if old(proc.timeSlice) == 0 || old(proc.timeSlice) > maxTimeSlice then maxTimeSlice
                else old(proc.timeSlice)
    {
      ghost var i, data := Insert(proc);
      if proc.timeSlice == 0 || proc.timeSlice > maxTimeSlice {
        proc.timeSlice := maxTimeSlice;
      }
      procNum := procNum + 1;
    }

    /** Moving the stride of the head on divides by zero. */
    ghost predicate Traps()
      reads this`tree, Procs(InOrder(tree))`stridePrior
    {
      var ns := InOrder(tree);
      cls == Stride && ns != [] && (assert ns[0].proc in Procs(ns); ns[0].proc.stridePrior == 20)
    }

    /** stride_pick_next and cfs_pick_next: the least process; a stride moves on while its node is still linked.
        False when the division traps. */
    method PickNext() returns (ok: bool, p: Proc?)
      requires Valid()
      modifies this`keys, Procs(InOrder(tree))`stride
      ensures Linked() && tree == old(tree) && (ok <==> !Traps())
      ensures if InOrder(tree) == [] then p == null else p == InOrder(tree)[0].proc
      ensures !ok ==> Valid() && keys == old(keys)
      ensures ok ==> keys == if p != null && cls == Stride then Advance(old(keys), p) else old(keys)
      ensures p != null ==> Reflects(cls, keys, p)
      ensures forall q :: q in Procs(InOrder(tree)) && q != p ==> q.stride == old(q.stride)
      ensures p != null ==> Readable(cls, keys, Procs(InOrder(tree)) - {p})
    {
      assert allocated(Nodes(tree)) && allocated(Procs(InOrder(tree)));
      p := FindMin();
      ok := true;
      if p != null && cls == Stride {
        assert p in Procs(InOrder(tree));
        if p.stridePrior == 20 {
          return false, p;
        }
        WrapAdd(keys[p], Pass(p.stridePrior));
        keys := keys[p := keys[p] + Pass(p.stridePrior)];
        p.stride := (p.stride + Pass(p.stridePrior)) % WORD;
      }
    }

    /** stride_dequeue and cfs_dequeue: the process goes if it is on the left edge; else nothing changes. */
    method Dequeue(proc: Proc) returns (ghost found: bool, ghost a: seq<Node>, ghost n: Node?, ghost c: seq<Node>)
      requires Linked()
      modifies this`tree, this`procNum, root, Nodes(tree)
      ensures Linked() && Nodes(tree) <= old(Nodes(tree))
      ensures found <==> exists m :: m in old(LeftEdge(tree)) && m.proc.pid == proc.pid
      ensures !found ==> tree == old(tree) && procNum == old(procNum)
      ensures found ==> n != null && n in old(LeftEdge(tree)) && n.proc.pid == proc.pid && procNum == old(procNum) - 1
      ensures found ==> old(InOrder(tree)) == a + [n] + c && InOrder(tree) == a + c
    {
      assert allocated(Nodes(tree));
      var data := Search(proc);
      found, a, n, c := data != null, [], data, [];
      if data != null {
        tree, a, c := EraseAny(data, root, tree);
        procNum := procNum - 1;
      }
    }

    /** Dequeuing the first process removes it and nothing else, whatever its key now is. */
    method DequeueFirst(proc: Proc)
      requires Linked() && InOrder(tree) != [] && InOrder(tree)[0].proc == proc && OncePerPid(InOrder(tree))
      modifies this`tree, this`procNum, root, Nodes(tree)
      ensures Linked() && Nodes(tree) <= old(Nodes(tree))
      ensures InOrder(tree) == old(InOrder(tree))[1..] && procNum == old(procNum) - 1
    {
      FirstOnLeftEdge(tree);
      ghost var ns := InOrder(tree);
      ghost var found, a, n, c := Dequeue(proc);
      assert ns[|a|] == n;
      assert a == [];
    }

    /** What schedule() does to the queue: pick the least process, then dequeue it. The key of the picked
        process has moved on before the search, but the search finds it, and only it goes. */
    method TakeNext() returns (ok: bool, p: Proc?)
      requires Valid()
      modifies this`tree, this`keys, this`procNum, root, Nodes(tree), Procs(InOrder(tree))`stride
      ensures Valid() && Nodes(tree) <= old(Nodes(tree)) && (ok <==> !old(Traps()))
      ensures p == null <==> old(InOrder(tree)) == []
      ensures p == null || !ok ==> tree == old(tree) && keys == old(keys)
      ensures p != null ==> p == old(InOrder(tree))[0].proc && Reflects(cls, keys, p)
      ensures p != null && ok ==> InOrder(tree) == old(InOrder(tree))[1..]
      ensures ok ==> keys == if p != null && cls == Stride then Advance(old(keys), p) else old(keys)
      ensures forall q :: q in old(Procs(InOrder(tree))) && q != p ==> q.stride == old(q.stride)
    {
      hide Linked, Ordered, Held, Spread, Reflects;
      ghost var ns, v := InOrder(tree), keys;
      assert allocated(Nodes(tree)) && allocated(Procs(ns));
      OrderedOnce(v, ns);
      ok, p := PickNext();
      if ok && p != null {
        DequeueFirst(p);
        TailOrdered(v, keys, ns);
        HeadIsLeast(v, ns);
      }
    }
  }
}
