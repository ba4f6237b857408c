/** The shape of a red-black tree, as a value.

    `Tree` is the tree that the pointers of libs/rbtree.c form and `Path` is what
    surrounds one position in it: the ancestors of the position, each with its
    other subtree. The fix-up loops of rb_insert_color and __rb_erase_color hold
    one position and climb; everything they must keep is stated here about a
    path and the subtree below it, and proved without a heap.
 */
module RbShape {
  import opened Process

  datatype Color = Red | Black

  /** struct stride_node and struct cfs_node: an rb_node followed by its process. */
  class Node {
    var left: Node?
    var right: Node?
    var parent: Node?
    var color: Color
    const proc: Proc

    constructor (proc: Proc)
      ensures this.proc == proc
    {
      this.proc := proc;
    }
  }

  datatype Tree = Leaf | Branch(left: Tree, node: Node, color: Color, right: Tree)

  /** InLeft(up, n, c, r): the position is the left child of n, whose right subtree is r. */
  datatype Path =
    | Top
    | InLeft(up: Path, node: Node, color: Color, right: Tree)
    | InRight(up: Path, left: Tree, node: Node, color: Color)

  // ---------- contents ----------

  ghost function Nodes(t: Tree): set<Node> {
    match t
    case Leaf => {}
    case Branch(l, n, _, r) => Nodes(l) + {n} + Nodes(r)
  }

  ghost function PathNodes(k: Path): set<Node> {
    match k
    case Top => {}
    case InLeft(up, n, _, r) => PathNodes(up) + {n} + Nodes(r)
    case InRight(up, l, n, _) => PathNodes(up) + {n} + Nodes(l)
  }

  /** The in-order sequence of nodes. */
  ghost function InOrder(t: Tree): seq<Node> {
    match t
    case Leaf => []
    case Branch(l, n, _, r) => InOrder(l) + [n] + InOrder(r)
  }

  /** The nodes before the position, and those after it, in order. */
  ghost function Before(k: Path): seq<Node> {
    match k
    case Top => []
    case InLeft(up, _, _, _) => Before(up)
    case InRight(up, l, n, _) => Before(up) + InOrder(l) + [n]
  }

  ghost function After(k: Path): seq<Node> {
    match k
    case Top => []
    case InLeft(up, n, _, r) => [n] + InOrder(r) + After(up)
    case InRight(up, _, _, _) => After(up)
  }

  /** The whole tree, with t at the position. */
  ghost function Plug(k: Path, t: Tree): Tree
    decreases k
  {
    match k
    case Top => t
    case InLeft(up, n, c, r) => Plug(up, Branch(t, n, c, r))
    case InRight(up, l, n, c) => Plug(up, Branch(l, n, c, t))
  }

  lemma {:induction false} PlugInOrder(k: Path, t: Tree)
    ensures InOrder(Plug(k, t)) == Before(k) + InOrder(t) + After(k)
    decreases k
  {
    match k
    case Top =>
    case InLeft(up, n, c, r) => PlugInOrder(up, Branch(t, n, c, r));
    case InRight(up, l, n, c) => PlugInOrder(up, Branch(l, n, c, t));
  }

  lemma {:induction false} PlugNodes(k: Path, t: Tree)
    ensures Nodes(Plug(k, t)) == PathNodes(k) + Nodes(t)
    decreases k
  {
    match k
    case Top =>
    case InLeft(up, n, c, r) => PlugNodes(up, Branch(t, n, c, r));
    case InRight(up, l, n, c) => PlugNodes(up, Branch(l, n, c, t));
  }

  /** Path s inside the subtree at the bottom of path base. */
  ghost function Wrap(s: Path, base: Path): Path {
    match s
    case Top => base
    case InLeft(up, n, c, r) => InLeft(Wrap(up, base), n, c, r)
    case InRight(up, l, n, c) => InRight(Wrap(up, base), l, n, c)
  }

  lemma {:induction false} WrapPlug(s: Path, base: Path, t: Tree)
    ensures Plug(Wrap(s, base), t) == Plug(base, Plug(s, t))
    decreases s
  {
    match s
    case Top =>
    case InLeft(up, n, c, r) => WrapPlug(up, base, Branch(t, n, c, r));
    case InRight(up, l, n, c) => WrapPlug(up, base, Branch(l, n, c, t));
  }

  /** A path that only goes left: nothing comes before it. */
  ghost predicate LeftSpine(s: Path) {
    s.Top? || (s.InLeft? && LeftSpine(s.up))
  }

  lemma {:induction false} LeftSpineFirst(s: Path)
    requires LeftSpine(s)
    ensures Before(s) == []
  {
    if !s.Top? { LeftSpineFirst(s.up); }
  }

  // ---------- separation ----------

  /** No node occurs twice. */
  ghost predicate Distinct(t: Tree) {
    match t
    case Leaf => true
    case Branch(l, n, _, r) =>
      && Distinct(l) && Distinct(r)
      && n !in Nodes(l) && n !in Nodes(r) && Nodes(l) !! Nodes(r)
  }

  ghost predicate PathDistinct(k: Path) {
    match k
    case Top => true
    case InLeft(up, n, _, r) =>
      PathDistinct(up) && Distinct(r) && n !in Nodes(r) && n !in PathNodes(up) && Nodes(r) !! PathNodes(up)
    case InRight(up, l, n, _) =>
      PathDistinct(up) && Distinct(l) && n !in Nodes(l) && n !in PathNodes(up) && Nodes(l) !! PathNodes(up)
  }

  ghost predicate Apart(k: Path, t: Tree) {
    PathDistinct(k) && Distinct(t) && PathNodes(k) !! Nodes(t)
  }

  lemma {:induction false} PlugDistinct(k: Path, t: Tree)
    ensures Distinct(Plug(k, t)) <==> Apart(k, t)
    decreases k
  {
    match k
    case Top =>
    case InLeft(up, n, c, r) => PlugDistinct(up, Branch(t, n, c, r));
    case InRight(up, l, n, c) => PlugDistinct(up, Branch(l, n, c, t));
  }

  // ---------- balance ----------

  ghost predicate IsRed(t: Tree) {
    t.Branch? && t.color == Red
  }

  ghost function Weight(c: Color): nat {
    if c == Black then 1 else 0
  }

  /** Black nodes on the leftmost path; on every path, when the tree is balanced. */
  ghost function BlackHeight(t: Tree): nat {
    match t
    case Leaf => 0
    case Branch(l, _, c, _) => BlackHeight(l) + Weight(c)
  }

  ghost predicate Balanced(t: Tree) {
    match t
    case Leaf => true
    case Branch(l, _, _, r) => Balanced(l) && Balanced(r) && BlackHeight(l) == BlackHeight(r)
  }

  /** No red node has a red child. */
  ghost predicate NoRedRed(t: Tree) {
    match t
    case Leaf => true
    case Branch(l, _, c, r) => NoRedRed(l) && NoRedRed(r) && (c == Red ==> !IsRed(l) && !IsRed(r))
  }

  /** The red-black invariant. */
  ghost predicate RedBlack(t: Tree) {
    Balanced(t) && NoRedRed(t) && !IsRed(t)
  }

  /** The tree around the position is balanced, provided the position has black height h. */
  ghost predicate PathBalanced(k: Path, h: nat) {
    match k
    case Top => true
    case InLeft(up, _, c, r) => Balanced(r) && BlackHeight(r) == h && PathBalanced(up, h + Weight(c))
    case InRight(up, l, _, c) => Balanced(l) && BlackHeight(l) == h && PathBalanced(up, h + Weight(c))
  }

  ghost predicate ParentRed(k: Path) {
    !k.Top? && k.color == Red
  }

  /** No red-red edge above the position, and the root of the whole tree is black. */
  ghost predicate PathNoRedRed(k: Path) {
    match k
    case Top => true
    case InLeft(up, _, c, r) =>
      PathNoRedRed(up) && NoRedRed(r) && (c == Red ==> !IsRed(r) && !ParentRed(up) && !up.Top?)
    case InRight(up, l, _, c) =>
      PathNoRedRed(up) && NoRedRed(l) && (c == Red ==> !IsRed(l) && !ParentRed(up) && !up.Top?)
  }

  ghost function Depth(k: Path): nat {
    match k
    case Top => 0
    case InLeft(up, _, _, _) => Depth(up) + 1
    case InRight(up, _, _, _) => Depth(up) + 1
  }

  /** A good subtree at a good position makes a red-black tree. */
  lemma {:induction false} PlugRedBlack(k: Path, t: Tree)
    requires Balanced(t) && PathBalanced(k, BlackHeight(t))
    requires NoRedRed(t) && PathNoRedRed(k)
    requires IsRed(t) ==> !ParentRed(k) && !k.Top?
    ensures RedBlack(Plug(k, t))
    decreases k
  {
    match k
    case Top =>
    case InLeft(up, n, c, r) => PlugRedBlack(up, Branch(t, n, c, r));
    case InRight(up, l, n, c) => PlugRedBlack(up, Branch(l, n, c, t));
  }

  /** And every position of a red-black tree is good. */
  lemma {:induction false} UnplugRedBlack(k: Path, t: Tree)
    requires Balanced(Plug(k, t)) && NoRedRed(Plug(k, t))
    requires !IsRed(Plug(k, t))
    ensures Balanced(t) && PathBalanced(k, BlackHeight(t))
    ensures NoRedRed(t) && PathNoRedRed(k)
    ensures IsRed(t) ==> !ParentRed(k) && !k.Top?
    decreases k
  {
    match k
    case Top =>
    case InLeft(up, n, c, r) => UnplugRedBlack(up, Branch(t, n, c, r));
    case InRight(up, l, n, c) => UnplugRedBlack(up, Branch(l, n, c, t));
  }

  // ---------- rotations ----------

  ghost function RotatedLeft(t: Tree): Tree
    requires t.Branch? && t.right.Branch?
  {
    Branch(Branch(t.left, t.node, t.color, t.right.left), t.right.node, t.right.color, t.right.right)
  }

  ghost function RotatedRight(t: Tree): Tree
    requires t.Branch? && t.left.Branch?
  {
    Branch(t.left.left, t.left.node, t.left.color, Branch(t.left.right, t.node, t.color, t.right))
  }

  lemma Regroup(a: seq<Node>, x: Node, b: seq<Node>, y: Node, c: seq<Node>)
    ensures (a + [x] + b) + [y] + c == a + [x] + (b + [y] + c)
  {
  }

  lemma RotationOrder(a: Tree, x: Node, b: Tree, y: Node, c: Tree, d: Color, e: Color)
    ensures InOrder(Branch(Branch(a, x, d, b), y, e, c)) == InOrder(Branch(a, x, d, Branch(b, y, e, c)))
  {
    Regroup(InOrder(a), x, InOrder(b), y, InOrder(c));
    assert InOrder(Branch(a, x, d, b)) == InOrder(a) + [x] + InOrder(b);
    assert InOrder(Branch(b, y, e, c)) == InOrder(b) + [y] + InOrder(c);
  }

  lemma RotationNodes(a: Tree, x: Node, b: Tree, y: Node, c: Tree, d: Color, e: Color)
    ensures Nodes(Branch(Branch(a, x, d, b), y, e, c)) == Nodes(Branch(a, x, d, Branch(b, y, e, c)))
    ensures Distinct(Branch(Branch(a, x, d, b), y, e, c)) == Distinct(Branch(a, x, d, Branch(b, y, e, c)))
  {
    var l, r := Branch(a, x, d, b), Branch(b, y, e, c);
    assert Nodes(l) == Nodes(a) + {x} + Nodes(b);
    assert Nodes(r) == Nodes(b) + {y} + Nodes(c);
  }

  /** A rotation keeps the nodes and their order. */
  lemma RotatedLeftKeeps(t: Tree)
    requires t.Branch? && t.right.Branch?
    ensures InOrder(RotatedLeft(t)) == InOrder(t)
    ensures Nodes(RotatedLeft(t)) == Nodes(t)
    ensures Distinct(t) ==> Distinct(RotatedLeft(t))
  {
    var Branch(a, x, f, Branch(b, y, g, c)) := t;
    RotationOrder(a, x, b, y, c, f, g);
    RotationNodes(a, x, b, y, c, f, g);
  }

  lemma RotatedRightKeeps(t: Tree)
    requires t.Branch? && t.left.Branch?
    ensures InOrder(RotatedRight(t)) == InOrder(t)
    ensures Nodes(RotatedRight(t)) == Nodes(t)
    ensures Distinct(t) ==> Distinct(RotatedRight(t))
  {
    var Branch(Branch(a, x, f, b), y, g, c) := t;
    RotationOrder(a, x, b, y, c, f, g);
    RotationNodes(a, x, b, y, c, f, g);
  }

  ghost function PushedRed(t: Tree): Tree
    requires t.Branch? && t.left.Branch? && t.right.Branch?
  {
    Branch(t.left.(color := Black), t.node, Red, t.right.(color := Black))
  }

  ghost function LiftedLeft(t: Tree): Tree
    requires t.Branch? && t.left.Branch?
  {
    RotatedRight(t.(left := t.left.(color := Black), color := Red))
  }

  ghost function LiftedRight(t: Tree): Tree
    requires t.Branch? && t.right.Branch?
  {
    RotatedLeft(t.(right := t.right.(color := Black), color := Red))
  }

  /** One level up: the parent with the position's tree below it. */
  ghost function Joined(k: Path, t: Tree): Tree
    requires !k.Top?
  {
    if k.InLeft? then Branch(t, k.node, k.color, k.right) else Branch(k.left, k.node, k.color, t)
  }

  ghost function Sibling(k: Path): Tree
    requires !k.Top?
  {
    if k.InLeft? then k.right else k.left
  }

  lemma PlugKeeps(k: Path, t: Tree)
    ensures SameNodes(Top, Plug(k, t), k, t)
  {
    PlugInOrder(k, t);
    PlugNodes(k, t);
  }

  /** The same nodes in the same order. */
  ghost predicate SameNodes(k': Path, t': Tree, k: Path, t: Tree) {
    && PathNodes(k') + Nodes(t') == PathNodes(k) + Nodes(t)
    && Before(k') + InOrder(t') + After(k') == Before(k) + InOrder(t) + After(k)
  }

  lemma JoinedKeeps(k: Path, t: Tree)
    requires !k.Top?
    ensures SameNodes(k.up, Joined(k, t), k, t)
  {
  }

  // ---------- the loop of rb_insert_color ----------

  /** All is well but that the node at the position is red and may have a red parent or be the root. */
  ghost predicate InsertGap(k: Path, t: Tree) {
    && t.Branch? && t.color == Red && Balanced(t) && NoRedRed(t)
    && PathBalanced(k, BlackHeight(t)) && PathNoRedRed(k)
  }

  /** What a red parent implies: a black grandparent, and nothing else wrong below it. */
  lemma RedParent(k: Path, t: Tree)
    requires InsertGap(k, t) && ParentRed(k)
    ensures !k.up.Top? && k.up.color == Black && PathNoRedRed(k.up.up)
    ensures Balanced(Joined(k, t)) && BlackHeight(Joined(k, t)) == BlackHeight(t)
    ensures k.InLeft? ==> NoRedRed(k.right) && !IsRed(k.right)
    ensures k.InRight? ==> NoRedRed(k.left) && !IsRed(k.left)
    ensures var g := Joined(k.up, Joined(k, t));
            Balanced(g) && PathBalanced(k.up.up, BlackHeight(g)) && BlackHeight(g) == BlackHeight(t) + 1
    ensures k.up.InLeft? ==> NoRedRed(k.up.right)
    ensures k.up.InRight? ==> NoRedRed(k.up.left)
  {
    assert PathNoRedRed(k.up) && PathBalanced(k.up, BlackHeight(t));
  }

  lemma PushRedGap(k: Path, t: Tree)
    requires InsertGap(k, t) && ParentRed(k)
    requires !k.up.Top? && IsRed(Sibling(k.up))
    ensures InsertGap(k.up.up, PushedRed(Joined(k.up, Joined(k, t))))
  {
    RedParent(k, t);
    var g := Joined(k.up, Joined(k, t));
    var l, r := PushedRed(g).left, PushedRed(g).right;
    assert Balanced(l) && Balanced(r) && BlackHeight(l) == BlackHeight(r) == BlackHeight(t) + 1;
    assert NoRedRed(l) && NoRedRed(r);
  }

  lemma PushedRedKeeps(t: Tree)
    requires t.Branch? && t.left.Branch? && t.right.Branch?
    ensures InOrder(PushedRed(t)) == InOrder(t) && Nodes(PushedRed(t)) == Nodes(t)
  {
    var l, r := t.left.(color := Black), t.right.(color := Black);
    assert InOrder(l) == InOrder(t.left) && InOrder(r) == InOrder(t.right);
    assert Nodes(l) == Nodes(t.left) && Nodes(r) == Nodes(t.right);
  }

  lemma LiftedKeeps(t: Tree)
    requires t.Branch?
    ensures t.left.Branch? ==> InOrder(LiftedLeft(t)) == InOrder(t) && Nodes(LiftedLeft(t)) == Nodes(t)
    ensures t.right.Branch? ==> InOrder(LiftedRight(t)) == InOrder(t) && Nodes(LiftedRight(t)) == Nodes(t)
  {
    if t.left.Branch? {
      var l := t.left.(color := Black);
      assert InOrder(l) == InOrder(t.left) && Nodes(l) == Nodes(t.left);
      RotatedRightKeeps(t.(left := l, color := Red));
    }
    if t.right.Branch? {
      var r := t.right.(color := Black);
      assert InOrder(r) == InOrder(t.right) && Nodes(r) == Nodes(t.right);
      RotatedLeftKeeps(t.(right := r, color := Red));
    }
  }

  /** Lifting a red left child above its black parent, when that child's own left child is the red one. */
  lemma LiftLeftGap(k: Path, g: Tree)
    requires g.Branch? && g.color == Black && Balanced(g) && PathBalanced(k, BlackHeight(g)) && PathNoRedRed(k)
    requires IsRed(g.left) && IsRed(g.left.left) && NoRedRed(g.left.left) && NoRedRed(g.left.right)
    requires !IsRed(g.left.right)
    requires NoRedRed(g.right) && !IsRed(g.right)
    ensures var r := LiftedLeft(g); InsertGap(InLeft(k, r.node, Black, r.right), r.left)
  {
    var r := LiftedLeft(g);
    assert Balanced(g.left);
    assert Balanced(r.right) && BlackHeight(r.right) == BlackHeight(r.left) == BlackHeight(g) - 1;
    assert NoRedRed(r.right);
  }

  lemma LiftRightGap(k: Path, g: Tree)
    requires g.Branch? && g.color == Black && Balanced(g) && PathBalanced(k, BlackHeight(g)) && PathNoRedRed(k)
    requires IsRed(g.right) && IsRed(g.right.right) && NoRedRed(g.right.right) && NoRedRed(g.right.left)
    requires !IsRed(g.right.left)
    requires NoRedRed(g.left) && !IsRed(g.left)
    ensures var r := LiftedRight(g); InsertGap(InRight(k, r.left, r.node, Black), r.right)
  {
    var r := LiftedRight(g);
    assert Balanced(g.right);
    assert Balanced(r.left) && BlackHeight(r.left) == BlackHeight(r.right) == BlackHeight(g) - 1;
    assert NoRedRed(r.left);
  }

  /** The grandparent's tree with the red pair on the outer left side. */
  ghost function StraightLeft(k: Path, t: Tree): Tree
    requires !k.Top? && k.up.InLeft? && t.Branch?
  {
    Joined(k.up, if k.InLeft? then Joined(k, t) else RotatedLeft(Joined(k, t)))
  }

  ghost function RaisedLeft(k: Path, t: Tree): Tree
    requires !k.Top? && k.up.InLeft? && t.Branch?
  {
    LiftedLeft(StraightLeft(k, t)).left
  }

  ghost function RaisedLeftPath(k: Path, t: Tree): Path
    requires !k.Top? && k.up.InLeft? && t.Branch?
  {
    var r := LiftedLeft(StraightLeft(k, t)); InLeft(k.up.up, r.node, r.color, r.right)
  }

  lemma RaiseLeftGap(k: Path, t: Tree)
    requires InsertGap(k, t) && ParentRed(k) && k.up.InLeft? && !IsRed(k.up.right)
    ensures InsertGap(RaisedLeftPath(k, t), RaisedLeft(k, t)) && !ParentRed(RaisedLeftPath(k, t))
  {
    RedParent(k, t);
    var p, g := Joined(k, t), StraightLeft(k, t);
    if k.InRight? {
      var p' := RotatedLeft(p);
      assert Balanced(p'.left) && BlackHeight(p'.left) == BlackHeight(t);
      assert NoRedRed(p'.left);
    }
    LiftLeftGap(k.up.up, g);
  }

  /** The grandparent's tree with the red pair on the outer right side. */
  ghost function StraightRight(k: Path, t: Tree): Tree
    requires !k.Top? && k.up.InRight? && t.Branch?
  {
    Joined(k.up, if k.InRight? then Joined(k, t) else RotatedRight(Joined(k, t)))
  }

  ghost function RaisedRight(k: Path, t: Tree): Tree
    requires !k.Top? && k.up.InRight? && t.Branch?
  {
    LiftedRight(StraightRight(k, t)).right
  }

  ghost function RaisedRightPath(k: Path, t: Tree): Path
    requires !k.Top? && k.up.InRight? && t.Branch?
  {
    var r := LiftedRight(StraightRight(k, t)); InRight(k.up.up, r.left, r.node, r.color)
  }

  lemma RaiseRightGap(k: Path, t: Tree)
    requires InsertGap(k, t) && ParentRed(k) && k.up.InRight? && !IsRed(k.up.left)
    ensures InsertGap(RaisedRightPath(k, t), RaisedRight(k, t)) && !ParentRed(RaisedRightPath(k, t))
  {
    RedParent(k, t);
    var p, g := Joined(k, t), StraightRight(k, t);
    if k.InLeft? {
      var p' := RotatedRight(p);
      assert Balanced(p'.right) && BlackHeight(p'.right) == BlackHeight(t);
      assert NoRedRed(p'.right);
    }
    LiftRightGap(k.up.up, g);
  }

  // ---------- the loop of __rb_erase_color ----------

  ghost function Blackened(t: Tree): Tree {
    if t.Leaf? then t else t.(color := Black)
  }

  /** All is well but that the position is one black short; the node there may be red, with red children. */
  ghost predicate EraseGap(k: Path, t: Tree) {
    && Balanced(t) && NoRedRed(Blackened(t))
    && PathBalanced(k, BlackHeight(t) + 1) && PathNoRedRed(k)
  }

  lemma ShortHasSibling(k: Path, t: Tree)
    requires EraseGap(k, t) && !k.Top?
    ensures Sibling(k).Branch? && Balanced(Sibling(k)) && NoRedRed(Sibling(k))
    ensures BlackHeight(Sibling(k)) == BlackHeight(t) + 1
    ensures IsRed(Sibling(k)) ==>
              Sibling(k).left.Branch? && Sibling(k).right.Branch? && !IsRed(Sibling(k).left) && !IsRed(Sibling(k).right)
  {
  }

  /** A black sibling with no red child gives up its black, and the shortage moves to the parent. */
  lemma ShiftUpGap(k: Path, t: Tree)
    requires EraseGap(k, t) && !IsRed(t) && !k.Top? && Sibling(k).Branch?
    requires !IsRed(Sibling(k)) && !IsRed(Sibling(k).left) && !IsRed(Sibling(k).right)
    ensures k.InLeft? ==> EraseGap(k.up, Joined(k.(right := k.right.(color := Red)), t))
    ensures k.InRight? ==> EraseGap(k.up, Joined(k.(left := k.left.(color := Red)), t))
  {
    var s := Sibling(k).(color := Red);
    assert Balanced(s) && NoRedRed(s) && BlackHeight(s) == BlackHeight(t);
  }

  /** Blackening the node at the position ends the loop. */
  lemma EraseGapClosed(k: Path, t: Tree)
    requires EraseGap(k, t) && (k.Top? || IsRed(t))
    ensures RedBlack(Plug(k, Blackened(t)))
  {
    assert Balanced(Blackened(t));
    if IsRed(t) {
      PlugRedBlack(k, Blackened(t));
    }
  }

  /** The path after a red sibling has been lifted above the parent. */
  ghost function RedSiblingLeftPath(k: Path): Path
    requires k.InLeft? && k.right.Branch?
  {
    InLeft(InLeft(k.up, k.right.node, Black, k.right.right), k.node, Red, k.right.left)
  }

  lemma RedSiblingLeftGap(k: Path, t: Tree)
    requires EraseGap(k, t) && k.InLeft? && IsRed(k.right)
    ensures EraseGap(RedSiblingLeftPath(k), t)
  {
    assert Balanced(k.right.left) && Balanced(k.right.right);
  }

  /** The left subtree is one black short and the sibling has a red outer child: a rotation pays for it. */
  ghost function BorrowedLeft(t: Tree): Tree
    requires t.Branch? && t.right.Branch? && t.right.right.Branch?
  {
    RotatedLeft(t.(color := Black, right := t.right.(color := t.color, right := t.right.right.(color := Black))))
  }

  lemma BorrowLeftGap(k: Path, t: Tree, s: Tree)
    requires EraseGap(k, t) && !IsRed(t) && k.InLeft?
    requires s.Branch? && s.color == Black && IsRed(s.right) && Balanced(s) && NoRedRed(s)
    requires BlackHeight(s) == BlackHeight(k.right)
    ensures RedBlack(Plug(k.up, BorrowedLeft(Joined(k.(right := s), t))))
  {
    hide Plug, RedBlack;
    BorrowLeftShape(k, t, s);
    PlugRedBlack(k.up, BorrowedLeft(Joined(k.(right := s), t)));
  }

  lemma BorrowLeftShape(k: Path, t: Tree, s: Tree)
    requires EraseGap(k, t) && !IsRed(t) && k.InLeft?
    requires s.Branch? && s.color == Black && IsRed(s.right) && Balanced(s) && NoRedRed(s)
    requires BlackHeight(s) == BlackHeight(k.right)
    ensures var b := BorrowedLeft(Joined(k.(right := s), t));
            && Balanced(b) && NoRedRed(b) && PathBalanced(k.up, BlackHeight(b)) && PathNoRedRed(k.up)
            && (IsRed(b) ==> !ParentRed(k.up) && !k.up.Top?)
  {
    var b := BorrowedLeft(Joined(k.(right := s), t));
    assert Balanced(b.left) && Balanced(b.right) && NoRedRed(b.left) && NoRedRed(b.right);
  }

  lemma BorrowedLeftKeeps(t: Tree)
    requires t.Branch? && t.right.Branch? && t.right.right.Branch?
    ensures InOrder(BorrowedLeft(t)) == InOrder(t) && Nodes(BorrowedLeft(t)) == Nodes(t)
  {
    var s := t.right.(color := t.color, right := t.right.right.(color := Black));
    assert InOrder(s.right) == InOrder(t.right.right) && Nodes(s.right) == Nodes(t.right.right);
    assert InOrder(s) == InOrder(t.right) && Nodes(s) == Nodes(t.right);
    RotatedLeftKeeps(t.(color := Black, right := s));
  }

  /** A black sibling with only its inner child red is turned so that the outer one is. */
  lemma TurnSiblingLeft(s: Tree)
    requires s.Branch? && s.color == Black && IsRed(s.left) && !IsRed(s.right) && Balanced(s) && NoRedRed(s)
    ensures var s' := LiftedLeft(s);
            s'.color == Black && IsRed(s'.right) && Balanced(s') && NoRedRed(s') && BlackHeight(s') == BlackHeight(s)
  {
    var s' := LiftedLeft(s);
    assert Balanced(s.left) && NoRedRed(s.left);
    assert Balanced(s'.right) && NoRedRed(s'.right);
  }

  /** The path after a red sibling has been lifted above the parent. */
  ghost function RedSiblingRightPath(k: Path): Path
    requires k.InRight? && k.left.Branch?
  {
    InRight(InRight(k.up, k.left.left, k.left.node, Black), k.left.right, k.node, Red)
  }

  lemma RedSiblingRightGap(k: Path, t: Tree)
    requires EraseGap(k, t) && k.InRight? && IsRed(k.left)
    ensures EraseGap(RedSiblingRightPath(k), t)
  {
    assert Balanced(k.left.right) && Balanced(k.left.left);
  }

  /** The right subtree is one black short and the sibling has a red outer child: a rotation pays for it. */
  ghost function BorrowedRight(t: Tree): Tree
    requires t.Branch? && t.left.Branch? && t.left.left.Branch?
  {
    RotatedRight(t.(color := Black, left := t.left.(color := t.color, left := t.left.left.(color := Black))))
  }

  lemma BorrowRightGap(k: Path, t: Tree, s: Tree)
    requires EraseGap(k, t) && !IsRed(t) && k.InRight?
    requires s.Branch? && s.color == Black && IsRed(s.left) && Balanced(s) && NoRedRed(s)
    requires BlackHeight(s) == BlackHeight(k.left)
    ensures RedBlack(Plug(k.up, BorrowedRight(Joined(k.(left := s), t))))
  {
    hide Plug, RedBlack;
    BorrowRightShape(k, t, s);
    PlugRedBlack(k.up, BorrowedRight(Joined(k.(left := s), t)));
  }

  lemma BorrowRightShape(k: Path, t: Tree, s: Tree)
    requires EraseGap(k, t) && !IsRed(t) && k.InRight?
    requires s.Branch? && s.color == Black && IsRed(s.left) && Balanced(s) && NoRedRed(s)
    requires BlackHeight(s) == BlackHeight(k.left)
    ensures var b := BorrowedRight(Joined(k.(left := s), t));
            && Balanced(b) && NoRedRed(b) && PathBalanced(k.up, BlackHeight(b)) && PathNoRedRed(k.up)
            && (IsRed(b) ==> !ParentRed(k.up) && !k.up.Top?)
  {
    var b := BorrowedRight(Joined(k.(left := s), t));
    assert Balanced(b.right) && Balanced(b.left) && NoRedRed(b.right) && NoRedRed(b.left);
  }

  lemma BorrowedRightKeeps(t: Tree)
    requires t.Branch? && t.left.Branch? && t.left.left.Branch?
    ensures InOrder(BorrowedRight(t)) == InOrder(t) && Nodes(BorrowedRight(t)) == Nodes(t)
  {
    var s := t.left.(color := t.color, left := t.left.left.(color := Black));
    assert InOrder(s.left) == InOrder(t.left.left) && Nodes(s.left) == Nodes(t.left.left);
    assert InOrder(s) == InOrder(t.left) && Nodes(s) == Nodes(t.left);
    RotatedRightKeeps(t.(color := Black, left := s));
  }

  /** A black sibling with only its inner child red is turned so that the outer one is. */
  lemma TurnSiblingRight(s: Tree)
    requires s.Branch? && s.color == Black && IsRed(s.right) && !IsRed(s.left) && Balanced(s) && NoRedRed(s)
    ensures var s' := LiftedRight(s);
            s'.color == Black && IsRed(s'.left) && Balanced(s') && NoRedRed(s') && BlackHeight(s') == BlackHeight(s)
  {
    var s' := LiftedRight(s);
    assert Balanced(s.right) && NoRedRed(s.right);
    assert Balanced(s'.left) && NoRedRed(s'.left);
  }

  // ---------- rb_erase ----------

  /** Taking out a node with at most one child leaves a gap if it was black, and none if it was red. */
  lemma SpliceGap(k: Path, t: Tree)
    requires t.Branch? && (t.left.Leaf? || t.right.Leaf?)
    requires RedBlack(Plug(k, t))
    ensures var child := if t.left.Leaf? then t.right else t.left;
            if t.color == Black then EraseGap(k, child) else RedBlack(Plug(k, child))
  {
    UnplugRedBlack(k, t);
    var child := if t.left.Leaf? then t.right else t.left;
    if t.color == Black {
      assert NoRedRed(Blackened(child));
    } else {
      PlugRedBlack(k, child);
    }
  }

  /** Colours and shape do not depend on which node sits at a position. */
  lemma {:induction false} RenameGap(s: Path, k: Path, l: Tree, n: Node, m: Node, c: Color, h: nat)
    ensures var old', new' := Wrap(s, InRight(k, l, n, c)), Wrap(s, InRight(k, l, m, c));
            && PathBalanced(new', h) == PathBalanced(old', h) && PathNoRedRed(new') == PathNoRedRed(old')
            && ParentRed(new') == ParentRed(old') && !new'.Top?
    decreases s
  {
    hide Balanced, NoRedRed, BlackHeight;
    match s
    case Top =>
    case InLeft(up, _, d, _) => RenameGap(up, k, l, n, m, c, h + Weight(d));
    case InRight(up, _, _, d) => RenameGap(up, k, l, n, m, c, h + Weight(d));
  }

  lemma {:induction false} RenamePlug(k: Path, t: Tree, m: Node)
    requires t.Branch? && RedBlack(Plug(k, t))
    ensures RedBlack(Plug(k, t.(node := m)))
  {
    UnplugRedBlack(k, t);
    assert Balanced(t.(node := m)) && NoRedRed(t.(node := m));
    PlugRedBlack(k, t.(node := m));
  }

  /** The tree t at k, its root node renamed m, with the successor u's root m taken out at the end of the left spine
      s. */
  ghost function SuccessorPath(s: Path, k: Path, t: Tree, m: Node): Path
    requires t.Branch?
  {
    Wrap(s, InRight(k, t.left, m, t.color))
  }

  lemma SuccessorGap(s: Path, k: Path, t: Tree, u: Tree)
    requires t.Branch? && u.Branch? && u.left.Leaf? && Plug(s, u) == t.right && RedBlack(Plug(k, t))
    ensures var k' := SuccessorPath(s, k, t, u.node);
            if u.color == Black then EraseGap(k', u.right) else RedBlack(Plug(k', u.right))
  {
    var base := InRight(k, t.left, t.node, t.color);
    WrapPlug(s, base, u);
    SpliceGap(Wrap(s, base), u);
    if u.color == Black {
      RenameGap(s, k, t.left, t.node, u.node, t.color, BlackHeight(u.right) + 1);
    } else {
      WrapPlug(s, base, u.right);
      WrapPlug(s, InRight(k, t.left, u.node, t.color), u.right);
      RenamePlug(k, t.(right := Plug(s, u.right)), u.node);
    }
  }

  lemma SuccessorOrder(s: Path, k: Path, t: Tree, u: Tree)
    requires t.Branch? && u.Branch? && u.left.Leaf? && Plug(s, u) == t.right && LeftSpine(s)
    ensures var k' := SuccessorPath(s, k, t, u.node);
            Before(k') + InOrder(u.right) + After(k') == Before(k) + (InOrder(t.left) + InOrder(t.right)) + After(k)
  {
    var k' := SuccessorPath(s, k, t, u.node);
    var rest := t.(right := Plug(s, u.right), node := u.node);
    assert InOrder(rest) == InOrder(t.left) + InOrder(t.right) by {
      SpineOrder(s, u);
      assert InOrder(rest) == InOrder(t.left) + ([u.node] + InOrder(Plug(s, u.right)));
    }
    WrapPlug(s, InRight(k, t.left, u.node, t.color), u.right);
    PlugInOrder(k', u.right);
    PlugInOrder(k, rest);
  }

  lemma SpineOrder(s: Path, u: Tree)
    requires u.Branch? && u.left.Leaf? && LeftSpine(s)
    ensures InOrder(Plug(s, u)) == [u.node] + InOrder(Plug(s, u.right))
  {
    hide InOrder, Plug;
    LeftSpineFirst(s);
    PlugInOrder(s, u);
    PlugInOrder(s, u.right);
    NoLeft(u);
    FirstOut(u.node, InOrder(u.right), After(s));
  }

  lemma NoLeft(u: Tree)
    requires u.Branch? && u.left.Leaf?
    ensures InOrder(u) == [u.node] + InOrder(u.right)
  {
  }

  lemma FirstOut(x: Node, r: seq<Node>, a: seq<Node>)
    ensures [] + ([x] + r) + a == [x] + ([] + r + a)
  {
  }

  /** Taking out a node with one child takes out just that node. */
  lemma UnlinkScope(k: Path, u: Tree)
    requires u.Branch? && u.left.Leaf? && Apart(k, u)
    ensures Nodes(Plug(k, u.right)) == Nodes(Plug(k, u)) - {u.node}
    ensures u.node in Nodes(Plug(k, u))
  {
    PlugNodes(k, u);
    PlugNodes(k, u.right);
  }

  lemma SuccessorScope(s: Path, k: Path, t: Tree, u: Tree)
    requires t.Branch? && u.Branch? && u.left.Leaf? && Plug(s, u) == t.right && Apart(k, t)
    ensures PathNodes(Wrap(s, InRight(k, t.left, t.node, t.color))) + Nodes(u) == PathNodes(k) + Nodes(t)
    ensures PathNodes(k) + Nodes(t.(right := Plug(s, u.right))) == PathNodes(k) + Nodes(t) - {u.node}
  {
    var base := InRight(k, t.left, t.node, t.color);
    WrapPlug(s, base, u);
    PlugNodes(Wrap(s, base), u);
    PlugNodes(k, t);
    PlugDistinct(k, t);
    PlugDistinct(Wrap(s, base), u);
    WrapPlug(s, base, u.right);
    UnlinkScope(Wrap(s, base), u);
    PlugNodes(k, t.(right := Plug(s, u.right)));
  }

  lemma RenameScope(k: Path, t: Tree, m: Node)
    requires t.Branch? && Apart(k, t) && m !in PathNodes(k) && m !in Nodes(t)
    ensures PathNodes(k) + Nodes(t.(node := m)) == PathNodes(k) + Nodes(t) - {t.node} + {m}
  {
  }

  lemma SuccessorScopeAfter(s: Path, k: Path, t: Tree, u: Tree)
    requires t.Branch? && u.Branch? && u.left.Leaf? && Plug(s, u) == t.right && Apart(k, t)
    ensures PathNodes(SuccessorPath(s, k, t, u.node)) + Nodes(u.right) == PathNodes(k) + Nodes(t) - {t.node}
  {
    var rest := t.(right := Plug(s, u.right));
    var k' := SuccessorPath(s, k, t, u.node);
    SuccessorScope(s, k, t, u);
    WrapPlug(s, InRight(k, t.left, u.node, t.color), u.right);
    PlugNodes(k', u.right);
    PlugNodes(k, rest.(node := u.node));
    assert Plug(k', u.right) == Plug(k, rest.(node := u.node));
    PlugNodes(s, u);
    PlugNodes(s, u.right);
    assert u.node in Nodes(t.right);
    assert Apart(k, rest) by {
      PlugDistinct(s, u);
      PlugDistinct(s, u.right);
    }
    RenameScope(k, rest, u.node);
  }

  // ---------- height ----------

  ghost function Height(t: Tree): nat {
    match t
    case Leaf => 0
    case Branch(l, _, _, r) => 1 + if Height(l) < Height(r) then Height(r) else Height(l)
  }

  ghost function Pow2(n: nat): nat {
    if n == 0 then 1 else 2 * Pow2(n - 1)
  }

  lemma {:induction false} HeightByBlackHeight(t: Tree)
    requires Balanced(t) && NoRedRed(t)
    ensures Height(t) <= 2 * BlackHeight(t) + (if IsRed(t) then 1 else 0)
    ensures Pow2(BlackHeight(t)) <= |InOrder(t)| + 1
  {
    match t
    case Leaf =>
    case Branch(l, _, _, r) => HeightByBlackHeight(l); HeightByBlackHeight(r);
  }

  lemma {:induction false} Pow2Mono(m: nat, n: nat)
    requires m <= n
    ensures Pow2(m) <= Pow2(n)
    decreases n
  {
    if m < n { Pow2Mono(m, n - 1); }
  }

  lemma {:induction false} Pow2Double(n: nat)
    ensures Pow2(2 * n) == Pow2(n) * Pow2(n)
  {
    if n > 0 {
      Pow2Double(n - 1);
      var p := Pow2(n - 1);
      assert Pow2(2 * n) == 2 * (2 * Pow2(2 * (n - 1)));
      assert (2 * p) * (2 * p) == 4 * (p * p);
    }
  }

  lemma SquareMono(a: nat, b: nat)
    requires a <= b
    ensures a * a <= b * b
  {
  }

  /** The height is at most 2 * log2(n + 1): the point of keeping the tree red-black. */
  lemma HeightIsLogarithmic(t: Tree)
    requires RedBlack(t)
    ensures Pow2(Height(t)) <= (|InOrder(t)| + 1) * (|InOrder(t)| + 1)
  {
    HeightByBlackHeight(t);
    Pow2Mono(Height(t), 2 * BlackHeight(t));
    Pow2Double(BlackHeight(t));
    SquareMono(Pow2(BlackHeight(t)), |InOrder(t)| + 1);
  }

  // ---------- finding a position ----------

  /** Every node of the tree sits at some position. */
  lemma {:induction false} Locate(k: Path, t: Tree, n: Node) returns (at: Path, l: Tree, c: Color, r: Tree)
    requires n in Nodes(t)
    ensures Plug(at, Branch(l, n, c, r)) == Plug(k, t)
    decreases t
  {
    match t
    case Branch(tl, m, tc, tr) =>
      if n == m {
        at, l, c, r := k, tl, tc, tr;
      } else if n in Nodes(tl) {
        at, l, c, r := Locate(InLeft(k, m, tc, tr), tl, n);
      } else {
        at, l, c, r := Locate(InRight(k, tl, m, tc), tr, n);
      }
  }
}
