/** libs/rbtree.c and libs/rbtree.h: the intrusive red-black tree, on the heap.

    `RepTree` says that the pointers from a node down form a given tree, and
    `RepPath` that the pointers around a position form a given path; `At` puts
    the two together. Every routine below is the source's pointer program, its
    loops included, and is proved to move from one `At` to the next.
 */
module RbTree {
  import opened RbShape

  /** struct rb_root. */
  class Root {
    var node: Node?

    /** RB_ROOT. */
    constructor ()
      ensures node == null
    {
      node := null;
    }
  }

  ghost function Above(k: Path): (p: Node?)
    ensures p != null ==> p in PathNodes(k)
  {
    if k.Top? then null else k.node
  }

  ghost function RootOf(t: Tree): (x: Node?)
    ensures x != null ==> x in Nodes(t)
  {
    if t.Leaf? then null else t.node
  }

  ghost predicate RepTree(t: Tree, x: Node?, p: Node?)
    reads Nodes(t)
    ensures RepTree(t, x, p) ==> x == RootOf(t)
  {
    match t
    case Leaf => x == null
    case Branch(l, n, c, r) =>
      x == n && n.parent == p && n.color == c && RepTree(l, n.left, n) && RepTree(r, n.right, n)
  }

  ghost predicate RepPath(k: Path, x: Node?, root: Root)
    reads root, PathNodes(k)
  {
    match k
    case Top => root.node == x
    case InLeft(up, n, c, r) =>
      n.left == x && n.color == c && n.parent == Above(up) && RepTree(r, n.right, n) && RepPath(up, n, root)
    case InRight(up, l, n, c) =>
      n.right == x && n.color == c && n.parent == Above(up) && RepTree(l, n.left, n) && RepPath(up, n, root)
  }

  /** The heap holds tree t, rooted at x, at position k of the tree under root. */
  ghost predicate At(root: Root, k: Path, t: Tree, x: Node?)
    reads root, PathNodes(k), Nodes(t)
  {
    Apart(k, t) && RepTree(t, x, Above(k)) && RepPath(k, x, root)
  }

  // ---------- moving the position ----------

  lemma Climb(root: Root, k: Path, t: Tree, x: Node?)
    requires !k.Top? && At(root, k, t, x)
    ensures k.InLeft? ==> At(root, k.up, Branch(t, k.node, k.color, k.right), k.node)
    ensures k.InRight? ==> At(root, k.up, Branch(k.left, k.node, k.color, t), k.node)
  {
  }

  lemma GoLeft(root: Root, k: Path, t: Tree, x: Node?)
    requires t.Branch? && At(root, k, t, x)
    ensures At(root, InLeft(k, t.node, t.color, t.right), t.left, t.node.left)
  {
  }

  lemma GoRight(root: Root, k: Path, t: Tree, x: Node?)
    requires t.Branch? && At(root, k, t, x)
    ensures At(root, InRight(k, t.left, t.node, t.color), t.right, t.node.right)
  {
  }

  /** The parent of the position: which child the position is, and what hangs on the other side. */
  lemma Around(root: Root, k: Path, t: Tree, x: Node?)
    requires !k.Top? && At(root, k, t, x)
    ensures k.node.color == k.color && k.node.parent == Above(k.up)
    ensures k.InLeft? ==> k.node.left == x && RepTree(k.right, k.node.right, k.node)
    ensures k.InRight? ==> k.node.right == x && RepTree(k.left, k.node.left, k.node)
    ensures x != null || Sibling(k).Branch? ==> (k.InLeft? <==> k.node.left == x) && (k.InRight? <==> k.node.right == x)
  {
  }

  lemma {:induction false} ToTop(root: Root, k: Path, t: Tree, x: Node?)
    requires At(root, k, t, x)
    ensures At(root, Top, Plug(k, t), root.node)
    decreases k
  {
    match k
    case Top =>
    case InLeft(up, n, c, r) =>
      Climb(root, k, t, x);
      ToTop(root, up, Branch(t, n, c, r), n);
    case InRight(up, l, n, c) =>
      Climb(root, k, t, x);
      ToTop(root, up, Branch(l, n, c, t), n);
  }

  lemma {:induction false} FromTop(root: Root, k: Path, t: Tree)
    requires At(root, Top, Plug(k, t), root.node)
    ensures At(root, k, t, RootOf(t))
    decreases k
  {
    match k
    case Top =>
    case InLeft(up, n, c, r) =>
      FromTop(root, up, Branch(t, n, c, r));
      GoLeft(root, up, Branch(t, n, c, r), n);
    case InRight(up, l, n, c) =>
      FromTop(root, up, Branch(l, n, c, t));
      GoRight(root, up, Branch(l, n, c, t), n);
  }

  // ---------- rotations ----------

  /** The parent of x, or the root, is made to point at y instead. */
  method Relink(x: Node, y: Node?, parent: Node?, root: Root, ghost k: Path)
    requires PathDistinct(k) && x !in PathNodes(k) && RepPath(k, x, root)
    requires parent == Above(k)
    modifies root, if parent == null then {} else {parent}
    ensures RepPath(k, y, root)
  {
    if parent != null {
      if x == parent.left {
        parent.left := y;
      } else {
        parent.right := y;
      }
    } else {
      root.node := y;
    }
  }

  /** rb_set_parent on a child that may be NULL. */
  method Adopt(child: Node?, p: Node?, ghost t: Tree, ghost was: Node?)
    requires Distinct(t) && RepTree(t, child, was)
    modifies if child == null then {} else {child}
    ensures RepTree(t, child, p)
    ensures child != null ==>
              child.left == old(child.left) && child.right == old(child.right) && child.color == old(child.color)
  {
    if child != null {
      child.parent := p;
    }
  }

  /** The writes of a left rotation below the position. */
  method TurnLeft(node: Node, ghost t: Tree) returns (right: Node)
    requires t.Branch? && t.right.Branch? && Distinct(t)
    requires RepTree(t, node, node.parent)
    modifies Nodes(t)
    ensures right == t.right.node
    ensures RepTree(RotatedLeft(t), right, old(node.parent))
  {
    right := node.right;
    ghost var a, b := t.left, t.right.left;
    assert RepTree(t.right, right, node) && Distinct(t.right) && Nodes(t.right) <= Nodes(t);
    assert RepTree(b, right.left, right) && Distinct(b) && Nodes(b) <= Nodes(t.right);
    node.right := right.left;
    if node.right != null {
      right.left.parent := node;
    }
    right.left := node;
    right.parent := node.parent;
    node.parent := right;
    assert RepTree(a, node.left, node) && RepTree(b, node.right, node);
    assert RepTree(RotatedLeft(t).left, node, right);
  }

  method TurnRight(node: Node, ghost t: Tree) returns (left: Node)
    requires t.Branch? && t.left.Branch? && Distinct(t)
    requires RepTree(t, node, node.parent)
    modifies Nodes(t)
    ensures left == t.left.node
    ensures RepTree(RotatedRight(t), left, old(node.parent))
  {
    left := node.left;
    ghost var b, c := t.left.right, t.right;
    assert RepTree(t.left, left, node) && Distinct(t.left) && Nodes(t.left) <= Nodes(t);
    assert RepTree(b, left.right, left) && Distinct(b) && Nodes(b) <= Nodes(t.left);
    node.left := left.right;
    if node.left != null {
      left.right.parent := node;
    }
    left.right := node;
    left.parent := node.parent;
    node.parent := left;
    assert RepTree(c, node.right, node) && RepTree(b, node.left, node);
    assert RepTree(RotatedRight(t).right, node, left);
  }

  /** __rb_rotate_left. */
  method RotateLeft(node: Node, root: Root, ghost k: Path, ghost t: Tree)
    requires t.Branch? && t.right.Branch?
    requires At(root, k, t, node)
    modifies root, PathNodes(k), Nodes(t)
    ensures At(root, k, RotatedLeft(t), t.right.node)
  {
    var parent := node.parent;
    assert allocated(Nodes(t)) && allocated(PathNodes(k));
    RotatedLeftKeeps(t);
    var right := TurnLeft(node, t);
    Relink(node, right, parent, root, k);
  }

  /** __rb_rotate_right. */
  method RotateRight(node: Node, root: Root, ghost k: Path, ghost t: Tree)
    requires t.Branch? && t.left.Branch?
    requires At(root, k, t, node)
    modifies root, PathNodes(k), Nodes(t)
    ensures At(root, k, RotatedRight(t), t.left.node)
  {
    var parent := node.parent;
    assert allocated(Nodes(t)) && allocated(PathNodes(k));
    RotatedRightKeeps(t);
    var left := TurnRight(node, t);
    Relink(node, left, parent, root, k);
  }

  // ---------- insertion ----------

  /** The objects a routine may touch. */
  ghost function Scope(k: Path, t: Tree): set<Node> {
    PathNodes(k) + Nodes(t)
  }

  /** rb_set_black or rb_set_red on the node at the position. */
  method Paint(node: Node, c: Color, root: Root, ghost k: Path, ghost t: Tree)
    requires t.Branch? && At(root, k, t, node)
    modifies node
    ensures At(root, k, t.(color := c), node)
  {
    node.color := c;
    assert Nodes(t.(color := c)) == Nodes(t);
  }

  /** rb_set_black or rb_set_red on a child of the node at the position. */
  method PaintLeft(node: Node, c: Color, root: Root, ghost k: Path, ghost t: Tree, ghost x: Node)
    requires t.Branch? && t.left.Branch? && At(root, k, t, x) && node == t.left.node
    modifies node
    ensures At(root, k, t.(left := t.left.(color := c)), x)
  {
    GoLeft(root, k, t, x);
    Paint(node, c, root, InLeft(k, t.node, t.color, t.right), t.left);
    Climb(root, InLeft(k, t.node, t.color, t.right), t.left.(color := c), node);
  }

  method PaintRight(node: Node, c: Color, root: Root, ghost k: Path, ghost t: Tree, ghost x: Node)
    requires t.Branch? && t.right.Branch? && At(root, k, t, x) && node == t.right.node
    modifies node
    ensures At(root, k, t.(right := t.right.(color := c)), x)
  {
    GoRight(root, k, t, x);
    Paint(node, c, root, InRight(k, t.left, t.node, t.color), t.right);
    Climb(root, InRight(k, t.left, t.node, t.color), t.right.(color := c), node);
  }

  /** The recolouring of a turn: the two children of gparent turn black and gparent red. */
  method PushRed(gparent: Node, left: Node, right: Node, root: Root, ghost k: Path, ghost t: Tree)
    requires t.Branch? && t.left.Branch? && t.right.Branch?
    requires left == t.left.node && right == t.right.node
    requires At(root, k, t, gparent)
    modifies left, right, gparent
    ensures At(root, k, PushedRed(t), gparent)
  {
    PaintRight(right, Black, root, k, t, gparent);
    ghost var t1 := t.(right := t.right.(color := Black));
    PaintLeft(left, Black, root, k, t1, gparent);
    Paint(gparent, Red, root, k, t1.(left := t.left.(color := Black)));
  }

  method LiftLeft(gparent: Node, parent: Node, root: Root, ghost k: Path, ghost t: Tree)
    requires t.Branch? && t.left.Branch? && parent == t.left.node
    requires At(root, k, t, gparent)
    modifies root, PathNodes(k), Nodes(t)
    ensures At(root, k, LiftedLeft(t), parent)
  {
    assert Nodes(t.left) <= Nodes(t);
    PaintLeft(parent, Black, root, k, t, gparent);
    ghost var t1 := t.(left := t.left.(color := Black));
    Paint(gparent, Red, root, k, t1);
    RotateRight(gparent, root, k, t1.(color := Red));
  }

  method LiftRight(gparent: Node, parent: Node, root: Root, ghost k: Path, ghost t: Tree)
    requires t.Branch? && t.right.Branch? && parent == t.right.node
    requires At(root, k, t, gparent)
    modifies root, PathNodes(k), Nodes(t)
    ensures At(root, k, LiftedRight(t), parent)
  {
    assert Nodes(t.right) <= Nodes(t);
    PaintRight(parent, Black, root, k, t, gparent);
    ghost var t1 := t.(right := t.right.(color := Black));
    Paint(gparent, Red, root, k, t1);
    RotateLeft(gparent, root, k, t1.(color := Red));
  }

  /** The rotations of a turn under a left child: an inner grandchild is straightened first. */
  method RaiseLeft(node: Node, parent: Node, gparent: Node, root: Root, ghost k: Path, ghost t: Tree)
    returns (lower: Node)
    requires !k.Top? && k.up.InLeft? && t.Branch?
    requires At(root, k, t, node) && parent == k.node && gparent == k.up.node
    modifies root, Scope(k, t)
    ensures At(root, RaisedLeftPath(k, t), RaisedLeft(k, t), lower)
    ensures SameNodes(RaisedLeftPath(k, t), RaisedLeft(k, t), k, t)
  {
    Climb(root, k, t, node);
    ghost var p := Joined(k, t);
    JoinedKeeps(k, t);
    var upper := parent;
    lower := node;
    if parent.right == node {
      RotateLeft(parent, root, k.up, p);
      RotatedLeftKeeps(p);
      p := RotatedLeft(p);
      lower, upper := parent, node;
    }
    ghost var g := Joined(k.up, p);
    Climb(root, k.up, p, upper);
    JoinedKeeps(k.up, p);
    LiftLeft(gparent, upper, root, k.up.up, g);
    LiftedKeeps(g);
    GoLeft(root, k.up.up, LiftedLeft(g), upper);
    JoinedKeeps(RaisedLeftPath(k, t), RaisedLeft(k, t));
  }

  /** One turn of rb_insert_color's loop when the parent is a left child. */
  method InsertUnderLeft(node: Node, parent: Node, gparent: Node, root: Root, ghost k: Path, ghost t: Tree)
    returns (next: Node, ghost k': Path, ghost t': Tree)
    requires InsertGap(k, t) && ParentRed(k) && k.up.InLeft?
    requires At(root, k, t, node) && parent == k.node && gparent == k.up.node
    modifies root, Scope(k, t)
    ensures At(root, k', t', next) && InsertGap(k', t') && Depth(k') < Depth(k)
    ensures SameNodes(k', t', k, t)
  {
    ghost var p := Joined(k, t);
    ghost var g := Joined(k.up, p);
    var uncle := gparent.right;
    Climb(root, k, t, node);
    Around(root, k.up, p, parent);
    if uncle != null && uncle.color == Red {
      Climb(root, k.up, p, parent);
      JoinedKeeps(k, t);
      JoinedKeeps(k.up, p);
      assert Nodes(p) <= Nodes(g) && Nodes(k.up.right) <= Nodes(g);
      PushRed(gparent, parent, uncle, root, k.up.up, g);
      PushRedGap(k, t);
      PushedRedKeeps(g);
      next, k', t' := gparent, k.up.up, PushedRed(g);
    } else {
      next := RaiseLeft(node, parent, gparent, root, k, t);
      RaiseLeftGap(k, t);
      k', t' := RaisedLeftPath(k, t), RaisedLeft(k, t);
    }
  }

  /** The rotations of a turn under a right child: an inner grandchild is straightened first. */
  method RaiseRight(node: Node, parent: Node, gparent: Node, root: Root, ghost k: Path, ghost t: Tree)
    returns (lower: Node)
    requires !k.Top? && k.up.InRight? && t.Branch?
    requires At(root, k, t, node) && parent == k.node && gparent == k.up.node
    modifies root, Scope(k, t)
    ensures At(root, RaisedRightPath(k, t), RaisedRight(k, t), lower)
    ensures SameNodes(RaisedRightPath(k, t), RaisedRight(k, t), k, t)
  {
    Climb(root, k, t, node);
    ghost var p := Joined(k, t);
    JoinedKeeps(k, t);
    var upper := parent;
    lower := node;
    if parent.left == node {
      RotateRight(parent, root, k.up, p);
      RotatedRightKeeps(p);
      p := RotatedRight(p);
      lower, upper := parent, node;
    }
    ghost var g := Joined(k.up, p);
    Climb(root, k.up, p, upper);
    JoinedKeeps(k.up, p);
    LiftRight(gparent, upper, root, k.up.up, g);
    LiftedKeeps(g);
    GoRight(root, k.up.up, LiftedRight(g), upper);
    JoinedKeeps(RaisedRightPath(k, t), RaisedRight(k, t));
  }

  /** One turn of rb_insert_color's loop when the parent is a right child. */
  method InsertUnderRight(node: Node, parent: Node, gparent: Node, root: Root, ghost k: Path, ghost t: Tree)
    returns (next: Node, ghost k': Path, ghost t': Tree)
    requires InsertGap(k, t) && ParentRed(k) && k.up.InRight?
    requires At(root, k, t, node) && parent == k.node && gparent == k.up.node
    modifies root, Scope(k, t)
    ensures At(root, k', t', next) && InsertGap(k', t') && Depth(k') < Depth(k)
    ensures SameNodes(k', t', k, t)
  {
    ghost var p := Joined(k, t);
    ghost var g := Joined(k.up, p);
    var uncle := gparent.left;
    Climb(root, k, t, node);
    Around(root, k.up, p, parent);
    if uncle != null && uncle.color == Red {
      Climb(root, k.up, p, parent);
      JoinedKeeps(k, t);
      JoinedKeeps(k.up, p);
      assert Nodes(p) <= Nodes(g) && Nodes(k.up.left) <= Nodes(g);
      PushRed(gparent, uncle, parent, root, k.up.up, g);
      PushRedGap(k, t);
      PushedRedKeeps(g);
      next, k', t' := gparent, k.up.up, PushedRed(g);
    } else {
      next := RaiseRight(node, parent, gparent, root, k, t);
      RaiseRightGap(k, t);
      k', t' := RaisedRightPath(k, t), RaisedRight(k, t);
    }
  }

  /** rb_insert_color: from a fresh red node at a position to a red-black tree with the same nodes in the same order. */
  method InsertColor(added: Node, root: Root, ghost k0: Path, ghost t0: Tree) returns (ghost tree: Tree)
    requires At(root, k0, t0, added) && InsertGap(k0, t0)
    modifies root, Scope(k0, t0)
    ensures At(root, Top, tree, root.node) && RedBlack(tree)
    ensures InOrder(tree) == Before(k0) + InOrder(t0) + After(k0)
    ensures Nodes(tree) == Scope(k0, t0)
  {
    var node := added;
    ghost var k, t := k0, t0;
    while node.parent != null && node.parent.color == Red
      invariant At(root, k, t, node) && InsertGap(k, t) && SameNodes(k, t, k0, t0)
      decreases Depth(k)
    {
      var parent := node.parent;
      RedParent(k, t);
      Climb(root, k, t, node);
      Around(root, k.up, Joined(k, t), parent);
      var gparent := parent.parent;
      ghost var k', t';
      if parent == gparent.left {
        node, k', t' := InsertUnderLeft(node, parent, gparent, root, k, t);
      } else {
        node, k', t' := InsertUnderRight(node, parent, gparent, root, k, t);
      }
      k, t := k', t';
    }
    ToTop(root, k, t, node);
    PlugInOrder(k, t);
    PlugNodes(k, t);
    if !k.Top? {
      PlugRedBlack(k, t);
    }
    tree := Plug(k, t).(color := Black);
    var top := root.node;
    Paint(top, Black, root, Top, Plug(k, t));
  }

  // ---------- erasure ----------

  /** A red sibling on the right is lifted above the parent. */
  method LiftSiblingLeft(node: Node?, parent: Node, other: Node, root: Root, ghost k: Path, ghost t: Tree)
    requires k.InLeft? && k.right.Branch? && At(root, k, t, node)
    requires parent == k.node && other == k.right.node
    modifies root, Scope(k, t)
    ensures At(root, RedSiblingLeftPath(k), t, node)
    ensures SameNodes(RedSiblingLeftPath(k), t, k, t)
  {
    Climb(root, k, t, node);
    JoinedKeeps(k, t);
    LiftRight(parent, other, root, k.up, Joined(k, t));
    LiftedKeeps(Joined(k, t));
    ghost var k1 := RedSiblingLeftPath(k);
    GoLeft(root, k.up, Joined(k1.up, Joined(k1, t)), other);
    GoLeft(root, k1.up, Joined(k1, t), parent);
    JoinedKeeps(k1.up, Joined(k1, t));
    JoinedKeeps(k1, t);
  }

  /** The sibling on the right is rotated, so that its right child is the red one. */
  method SwingSiblingLeft(node: Node?, parent: Node, other: Node, root: Root, ghost k: Path, ghost t: Tree)
    requires k.InLeft? && k.right.Branch? && k.right.left.Branch? && At(root, k, t, node)
    requires parent == k.node && other == k.right.node
    modifies root, Scope(k, t)
    ensures At(root, k.(right := LiftedLeft(k.right)), t, node)
    ensures SameNodes(k.(right := LiftedLeft(k.right)), t, k, t)
  {
    Climb(root, k, t, node);
    JoinedKeeps(k, t);
    GoRight(root, k.up, Joined(k, t), parent);
    JoinedKeeps(InRight(k.up, t, k.node, k.color), k.right);
    var inner := other.left;
    LiftLeft(other, inner, root, InRight(k.up, t, k.node, k.color), k.right);
    LiftedKeeps(k.right);
    ghost var k1 := k.(right := LiftedLeft(k.right));
    Climb(root, InRight(k.up, t, k.node, k.color), k1.right, inner);
    GoLeft(root, k.up, Joined(k1, t), parent);
    JoinedKeeps(InRight(k.up, t, k.node, k.color), k1.right);
    JoinedKeeps(k1, t);
  }

  /** The sibling on the right takes the parent's colour and place. */
  method BorrowLeft(parent: Node, other: Node, root: Root, ghost k: Path, ghost t: Tree)
    requires t.Branch? && t.right.Branch? && t.right.right.Branch?
    requires At(root, k, t, parent) && other == t.right.node
    modifies root, PathNodes(k), Nodes(t)
    ensures At(root, k, BorrowedLeft(t), other)
  {
    assert Nodes(t.right) <= Nodes(t) && Nodes(t.right.right) <= Nodes(t.right);
    PaintRight(other, parent.color, root, k, t, parent);
    ghost var s := t.right.(color := t.color);
    Paint(parent, Black, root, k, t.(right := s));
    ghost var t1 := t.(right := s, color := Black);
    GoRight(root, k, t1, parent);
    ghost var ks := InRight(k, t.left, parent, Black);
    var outer := other.right;
    PaintRight(outer, Black, root, ks, s, other);
    Climb(root, ks, s.(right := s.right.(color := Black)), other);
    RotateLeft(parent, root, k, t1.(right := s.(right := s.right.(color := Black))));
  }

  /** The last rotation, seen from the whole tree. */
  method ExchangeLeft(node: Node?, parent: Node, other: Node, root: Root, ghost k: Path, ghost t: Tree)
    returns (ghost tree: Tree)
    requires k.InLeft? && k.right.Branch? && k.right.right.Branch?
    requires At(root, k, t, node) && parent == k.node && other == k.right.node
    modifies root, Scope(k, t)
    ensures tree == Plug(k.up, BorrowedLeft(Joined(k, t)))
    ensures At(root, Top, tree, root.node) && SameNodes(Top, tree, k, t)
  {
    ghost var p := Joined(k, t);
    Climb(root, k, t, node);
    JoinedKeeps(k, t);
    BorrowLeft(parent, other, root, k.up, p);
    BorrowedLeftKeeps(p);
    ToTop(root, k.up, BorrowedLeft(p), other);
    PlugKeeps(k.up, BorrowedLeft(p));
    tree := Plug(k.up, BorrowedLeft(p));
  }

  /** The end of the loop: a red child of the black sibling on the right pays for the missing black. */
  method RepayLeft(node: Node?, parent: Node, black: Node, root: Root, ghost k: Path, ghost t: Tree)
    returns (ghost tree: Tree)
    requires EraseGap(k, t) && !IsRed(t) && k.InLeft? && !IsRed(k.right) && k.right.Branch?
    requires IsRed(k.right.left) || IsRed(k.right.right)
    requires At(root, k, t, node) && parent == k.node && black == k.right.node
    modifies root, Scope(k, t)
    ensures At(root, Top, tree, root.node) && RedBlack(tree) && SameNodes(Top, tree, k, t)
  {
    var other := black;
    Around(root, k, t, node);
    ShortHasSibling(k, t);
    ghost var k1 := k;
    if other.right == null || other.right.color == Black {
      SwingSiblingLeft(node, parent, other, root, k, t);
      TurnSiblingLeft(k.right);
      k1 := k.(right := LiftedLeft(k.right));
      other := parent.right;
      Around(root, k1, t, node);
    }
    BorrowLeftGap(k, t, k1.right);
    tree := ExchangeLeft(node, parent, other, root, k1, t);
  }

  /** The rest of a turn, once the sibling on the right is black. */
  method SettleLeft(node: Node?, parent: Node, other: Node, root: Root, ghost k: Path, ghost t: Tree)
    returns (next: Node?, up: Node?, done: bool, ghost k': Path, ghost t': Tree)
    requires EraseGap(k, t) && !IsRed(t) && k.InLeft? && !IsRed(k.right) && k.right.Branch?
    requires At(root, k, t, node) && parent == k.node && other == k.right.node
    modifies root, Scope(k, t)
    ensures At(root, k', t', next) && EraseGap(k', t') && SameNodes(k', t', k, t)
    ensures !done ==> up == Above(k') && k' == k.up && t'.Branch? && t'.color == k.color
    ensures done ==> k'.Top?
  {
    Around(root, k, t, node);
    ShortHasSibling(k, t);
    if (other.left == null || other.left.color == Black) && (other.right == null || other.right.color == Black) {
      ghost var k1 := k.(right := k.right.(color := Red));
      Climb(root, k, t, node);
      JoinedKeeps(k, t);
      JoinedKeeps(k1, t);
      PaintRight(other, Red, root, k.up, Joined(k, t), parent);
      ShiftUpGap(k, t);
      next, up, done := parent, parent.parent, false;
      k', t' := k.up, Joined(k1, t);
    } else {
      ghost var tree := RepayLeft(node, parent, other, root, k, t);
      next, up, done := root.node, null, true;
      k', t' := Top, tree;
    }
  }

  /** One turn of __rb_erase_color's loop when the position is a left child. */
  method EraseUnderLeft(node: Node?, parent: Node, root: Root, ghost k: Path, ghost t: Tree)
    returns (next: Node?, up: Node?, done: bool, ghost k': Path, ghost t': Tree)
    requires EraseGap(k, t) && !IsRed(t) && k.InLeft?
    requires At(root, k, t, node) && parent == k.node
    modifies root, Scope(k, t)
    ensures At(root, k', t', next) && EraseGap(k', t') && SameNodes(k', t', k, t)
    ensures !done ==> up == Above(k') && (IsRed(t') || Depth(k') < Depth(k))
    ensures done ==> k'.Top?
  {
    ghost var k1 := k;
    var other := parent.right;
    Around(root, k, t, node);
    ShortHasSibling(k, t);
    if other.color == Red {
      LiftSiblingLeft(node, parent, other, root, k, t);
      RedSiblingLeftGap(k, t);
      k1 := RedSiblingLeftPath(k);
      other := parent.right;
      Around(root, k1, t, node);
    }
    next, up, done, k', t' := SettleLeft(node, parent, other, root, k1, t);
  }

  /** A red sibling on the left is lifted above the parent. */
  method LiftSiblingRight(node: Node?, parent: Node, other: Node, root: Root, ghost k: Path, ghost t: Tree)
    requires k.InRight? && k.left.Branch? && At(root, k, t, node)
    requires parent == k.node && other == k.left.node
    modifies root, Scope(k, t)
    ensures At(root, RedSiblingRightPath(k), t, node)
    ensures SameNodes(RedSiblingRightPath(k), t, k, t)
  {
    Climb(root, k, t, node);
    JoinedKeeps(k, t);
    LiftLeft(parent, other, root, k.up, Joined(k, t));
    LiftedKeeps(Joined(k, t));
    ghost var k1 := RedSiblingRightPath(k);
    GoRight(root, k.up, Joined(k1.up, Joined(k1, t)), other);
    GoRight(root, k1.up, Joined(k1, t), parent);
    JoinedKeeps(k1.up, Joined(k1, t));
    JoinedKeeps(k1, t);
  }

  /** The sibling on the left is rotated, so that its left child is the red one. */
  method SwingSiblingRight(node: Node?, parent: Node, other: Node, root: Root, ghost k: Path, ghost t: Tree)
    requires k.InRight? && k.left.Branch? && k.left.right.Branch? && At(root, k, t, node)
    requires parent == k.node && other == k.left.node
    modifies root, Scope(k, t)
    ensures At(root, k.(left := LiftedRight(k.left)), t, node)
    ensures SameNodes(k.(left := LiftedRight(k.left)), t, k, t)
  {
    Climb(root, k, t, node);
    JoinedKeeps(k, t);
    GoLeft(root, k.up, Joined(k, t), parent);
    JoinedKeeps(InLeft(k.up, k.node, k.color, t), k.left);
    var inner := other.right;
    LiftRight(other, inner, root, InLeft(k.up, k.node, k.color, t), k.left);
    LiftedKeeps(k.left);
    ghost var k1 := k.(left := LiftedRight(k.left));
    Climb(root, InLeft(k.up, k.node, k.color, t), k1.left, inner);
    GoRight(root, k.up, Joined(k1, t), parent);
    JoinedKeeps(InLeft(k.up, k.node, k.color, t), k1.left);
    JoinedKeeps(k1, t);
  }

  /** The sibling on the left takes the parent's colour and place. */
  method BorrowRight(parent: Node, other: Node, root: Root, ghost k: Path, ghost t: Tree)
    requires t.Branch? && t.left.Branch? && t.left.left.Branch?
    requires At(root, k, t, parent) && other == t.left.node
    modifies root, PathNodes(k), Nodes(t)
    ensures At(root, k, BorrowedRight(t), other)
  {
    assert Nodes(t.left) <= Nodes(t) && Nodes(t.left.left) <= Nodes(t.left);
    PaintLeft(other, parent.color, root, k, t, parent);
    ghost var s := t.left.(color := t.color);
    Paint(parent, Black, root, k, t.(left := s));
    ghost var t1 := t.(left := s, color := Black);
    GoLeft(root, k, t1, parent);
    ghost var ks := InLeft(k, parent, Black, t.right);
    var outer := other.left;
    PaintLeft(outer, Black, root, ks, s, other);
    Climb(root, ks, s.(left := s.left.(color := Black)), other);
    RotateRight(parent, root, k, t1.(left := s.(left := s.left.(color := Black))));
  }

  /** The last rotation, seen from the whole tree. */
  method ExchangeRight(node: Node?, parent: Node, other: Node, root: Root, ghost k: Path, ghost t: Tree)
    returns (ghost tree: Tree)
    requires k.InRight? && k.left.Branch? && k.left.left.Branch?
    requires At(root, k, t, node) && parent == k.node && other == k.left.node
    modifies root, Scope(k, t)
    ensures tree == Plug(k.up, BorrowedRight(Joined(k, t)))
    ensures At(root, Top, tree, root.node) && SameNodes(Top, tree, k, t)
  {
    ghost var p := Joined(k, t);
    Climb(root, k, t, node);
    JoinedKeeps(k, t);
    BorrowRight(parent, other, root, k.up, p);
    BorrowedRightKeeps(p);
    ToTop(root, k.up, BorrowedRight(p), other);
    PlugKeeps(k.up, BorrowedRight(p));
    tree := Plug(k.up, BorrowedRight(p));
  }

  /** The end of the loop: a red child of the black sibling on the left pays for the missing black. */
  method RepayRight(node: Node?, parent: Node, black: Node, root: Root, ghost k: Path, ghost t: Tree)
    returns (ghost tree: Tree)
    requires EraseGap(k, t) && !IsRed(t) && k.InRight? && !IsRed(k.left) && k.left.Branch?
    requires IsRed(k.left.left) || IsRed(k.left.right)
    requires At(root, k, t, node) && parent == k.node && black == k.left.node
    modifies root, Scope(k, t)
    ensures At(root, Top, tree, root.node) && RedBlack(tree) && SameNodes(Top, tree, k, t)
  {
    var other := black;
    Around(root, k, t, node);
    ShortHasSibling(k, t);
    ghost var k1 := k;
    if other.left == null || other.left.color == Black {
      SwingSiblingRight(node, parent, other, root, k, t);
      TurnSiblingRight(k.left);
      k1 := k.(left := LiftedRight(k.left));
      other := parent.left;
      Around(root, k1, t, node);
    }
    BorrowRightGap(k, t, k1.left);
    tree := ExchangeRight(node, parent, other, root, k1, t);
  }

  /** The rest of a turn, once the sibling on the left is black. */
  method SettleRight(node: Node?, parent: Node, other: Node, root: Root, ghost k: Path, ghost t: Tree)
    returns (next: Node?, up: Node?, done: bool, ghost k': Path, ghost t': Tree)
    requires EraseGap(k, t) && !IsRed(t) && k.InRight? && !IsRed(k.left) && k.left.Branch?
    requires At(root, k, t, node) && parent == k.node && other == k.left.node
    modifies root, Scope(k, t)
    ensures At(root, k', t', next) && EraseGap(k', t') && SameNodes(k', t', k, t)
    ensures !done ==> up == Above(k') && k' == k.up && t'.Branch? && t'.color == k.color
    ensures done ==> k'.Top?
  {
    Around(root, k, t, node);
    ShortHasSibling(k, t);
    if (other.left == null || other.left.color == Black) && (other.right == null || other.right.color == Black) {
      ghost var k1 := k.(left := k.left.(color := Red));
      Climb(root, k, t, node);
      JoinedKeeps(k, t);
      JoinedKeeps(k1, t);
      PaintLeft(other, Red, root, k.up, Joined(k, t), parent);
      ShiftUpGap(k, t);
      next, up, done := parent, parent.parent, false;
      k', t' := k.up, Joined(k1, t);
    } else {
      ghost var tree := RepayRight(node, parent, other, root, k, t);
      next, up, done := root.node, null, true;
      k', t' := Top, tree;
    }
  }

  /** One turn of __rb_erase_color's loop when the position is a right child. */
  method EraseUnderRight(node: Node?, parent: Node, root: Root, ghost k: Path, ghost t: Tree)
    returns (next: Node?, up: Node?, done: bool, ghost k': Path, ghost t': Tree)
    requires EraseGap(k, t) && !IsRed(t) && k.InRight?
    requires At(root, k, t, node) && parent == k.node
    modifies root, Scope(k, t)
    ensures At(root, k', t', next) && EraseGap(k', t') && SameNodes(k', t', k, t)
    ensures !done ==> up == Above(k') && (IsRed(t') || Depth(k') < Depth(k))
    ensures done ==> k'.Top?
  {
    ghost var k1 := k;
    var other := parent.left;
    Around(root, k, t, node);
    ShortHasSibling(k, t);
    if other.color == Red {
      LiftSiblingRight(node, parent, other, root, k, t);
      RedSiblingRightGap(k, t);
      k1 := RedSiblingRightPath(k);
      other := parent.left;
      Around(root, k1, t, node);
    }
    next, up, done, k', t' := SettleRight(node, parent, other, root, k1, t);
  }

  lemma {:induction false} RootOnPath(root: Root, k: Path, x: Node?)
    requires !k.Top? && RepPath(k, x, root)
    ensures root.node != null && root.node in PathNodes(k)
  {
    match k
    case InLeft(up, n, _, _) => if !up.Top? { RootOnPath(root, up, n); }
    case InRight(up, _, n, _) => if !up.Top? { RootOnPath(root, up, n); }
  }

  /** The end of __rb_erase_color: the node at the position turns black. */
  method CloseGap(node: Node?, root: Root, ghost k: Path, ghost t: Tree) returns (ghost tree: Tree)
    requires At(root, k, t, node)
    modifies if node == null then {} else {node}
    ensures tree == Plug(k, Blackened(t)) && At(root, Top, tree, root.node)
    ensures InOrder(tree) == Before(k) + InOrder(t) + After(k) && Nodes(tree) == Scope(k, t)
  {
    if node != null {
      Paint(node, Black, root, k, t);
    }
    ghost var t1 := Blackened(t);
    ToTop(root, k, t1, node);
    PlugInOrder(k, t1);
    PlugNodes(k, t1);
    tree := Plug(k, t1);
  }

  /** One turn of __rb_erase_color's loop. */
  method EraseTurn(node: Node?, parent: Node, root: Root, ghost k: Path, ghost t: Tree)
    returns (next: Node?, up: Node?, done: bool, ghost k': Path, ghost t': Tree)
    requires EraseGap(k, t) && !IsRed(t) && !k.Top?
    requires At(root, k, t, node) && parent == k.node
    modifies root, Scope(k, t)
    ensures At(root, k', t', next) && EraseGap(k', t') && SameNodes(k', t', k, t)
    ensures !done ==> up == Above(k') && (IsRed(t') || Depth(k') < Depth(k))
    ensures done ==> k'.Top?
  {
    Around(root, k, t, node);
    ShortHasSibling(k, t);
    if parent.left == node {
      next, up, done, k', t' := EraseUnderLeft(node, parent, root, k, t);
    } else {
      next, up, done, k', t' := EraseUnderRight(node, parent, root, k, t);
    }
  }

  /** __rb_erase_color: a position one black short becomes a red-black tree with the same nodes in the same order. */
  method EraseColor(node0: Node?, parent0: Node?, root: Root, ghost k0: Path, ghost t0: Tree) returns (ghost tree: Tree)
    requires At(root, k0, t0, node0) && EraseGap(k0, t0) && parent0 == Above(k0)
    modifies root, Scope(k0, t0)
    ensures At(root, Top, tree, root.node) && RedBlack(tree)
    ensures InOrder(tree) == Before(k0) + InOrder(t0) + After(k0) && Nodes(tree) == Scope(k0, t0)
  {
    var node, parent := node0, parent0;
    ghost var k, t := k0, t0;
    while (node == null || node.color == Black) && node != root.node
      invariant At(root, k, t, node) && EraseGap(k, t) && SameNodes(k, t, k0, t0)
      invariant k.Top? || parent == Above(k)
      decreases if IsRed(t) then 0 else Depth(k) + 1
    {
      var done;
      ghost var k', t';
      node, parent, done, k', t' := EraseTurn(node, parent, root, k, t);
      k, t := k', t';
      if done {
        break;
      }
    }
    if !k.Top? {
      RootOnPath(root, k, node);
    }
    EraseGapClosed(k, t);
    tree := CloseGap(node, root, k, t);
  }

  /** A node with at most one child is replaced by that child. */
  method Unlink(node: Node, child: Node?, root: Root, ghost k: Path, ghost t: Tree)
    requires t.Branch? && At(root, k, t, node)
    requires if t.left.Leaf? then child == node.right else t.right.Leaf? && child == node.left
    modifies root, Scope(k, t)
    ensures At(root, k, if t.left.Leaf? then t.right else t.left, child)
  {
    assert allocated(Nodes(t)) && allocated(PathNodes(k));
    var parent := node.parent;
    ghost var u := if t.left.Leaf? then t.right else t.left;
    assert Distinct(u) && Nodes(u) <= Nodes(t) && RepTree(u, child, node);
    Adopt(child, parent, u, node);
    Relink(node, child, parent, root, k);
  }

  /** Node m takes the colour, the parent and the children of node. */
  method TakeLinks(node: Node, m: Node, ghost t: Tree)
    requires t.Branch? && Distinct(t) && RepTree(t, node, node.parent) && m !in Nodes(t)
    modifies Nodes(t), m
    ensures RepTree(t.(node := m), m, old(node.parent)) && Distinct(t.(node := m))
  {
    assert Distinct(t.left) && Distinct(t.right) && Nodes(t.left) <= Nodes(t) && Nodes(t.right) <= Nodes(t);
    m.right := node.right;
    if node.right != null {
      node.right.parent := m;
    }
    m.parent := node.parent;
    m.color := node.color;
    m.left := node.left;
    assert RepTree(t.right, m.right, m) && RepTree(t.left, m.left, node);
    if node.left != null {
      node.left.parent := m;
    }
    assert RepTree(t.right, m.right, m) && RepTree(t.left, m.left, m);
  }

  /** Node m takes the place of node. */
  method TakePlace(node: Node, m: Node, root: Root, ghost k: Path, ghost t: Tree)
    requires t.Branch? && At(root, k, t, node) && m !in Scope(k, t)
    modifies root, Scope(k, t), m
    ensures At(root, k, t.(node := m), m)
  {
    assert allocated(Nodes(t)) && allocated(PathNodes(k));
    Relink(node, m, node.parent, root, k);
    TakeLinks(node, m, t);
    assert Nodes(t.(node := m)) == Nodes(t) - {node} + {m};
  }

  /** The loop that walks down the left children. */
  method Leftmost(start: Node, root: Root, ghost base: Path, ghost t: Tree)
    returns (m: Node, ghost s: Path, ghost u: Tree)
    requires t.Branch? && At(root, base, t, start)
    ensures u.Branch? && u.left.Leaf? && At(root, Wrap(s, base), u, m)
    ensures LeftSpine(s) && Plug(s, u) == t
  {
    m, s, u := start, Top, t;
    while m.left != null
      invariant u.Branch? && At(root, Wrap(s, base), u, m)
      invariant LeftSpine(s) && Plug(s, u) == t
      decreases u
    {
      GoLeft(root, Wrap(s, base), u, m);
      m := m.left;
      s, u := InLeft(s, u.node, u.color, u.right), u.left;
    }
  }

  /** The successor m of node is taken out of its place and put in node's. */
  method MoveSuccessor(node: Node, m: Node, root: Root, ghost s: Path, ghost k: Path, ghost t: Tree, ghost u: Tree)
    requires t.Branch? && u.Branch? && u.left.Leaf? && Plug(s, u) == t.right && Apart(k, t) && node == t.node
    requires At(root, Wrap(s, InRight(k, t.left, node, t.color)), u, m)
    modifies root, Scope(k, t)
    ensures At(root, SuccessorPath(s, k, t, m), u.right, RootOf(u.right))
  {
    SuccessorScope(s, k, t, u);
    ghost var base := InRight(k, t.left, node, t.color);
    ghost var rest := t.(right := Plug(s, u.right));
    Unlink(m, m.right, root, Wrap(s, base), u);
    ToTop(root, Wrap(s, base), u.right, RootOf(u.right));
    WrapPlug(s, base, u.right);
    FromTop(root, k, rest);
    TakePlace(node, m, root, k, rest);
    ToTop(root, k, rest.(node := m), m);
    WrapPlug(s, InRight(k, t.left, m, t.color), u.right);
    FromTop(root, SuccessorPath(s, k, t, m), u.right);
  }

  /** rb_erase up to its last step, for a node with two children. */
  method EraseInner(node: Node, root: Root, ghost k: Path, ghost t: Tree)
    returns (child: Node?, parent: Node?, color: Color, ghost k': Path, ghost t': Tree)
    requires t.Branch? && t.left.Branch? && t.right.Branch?
    requires At(root, k, t, node) && RedBlack(Plug(k, t))
    modifies root, Scope(k, t)
    ensures At(root, k', t', child) && parent == Above(k')
    ensures if color == Black then EraseGap(k', t') else RedBlack(Plug(k', t'))
    ensures Before(k') + InOrder(t') + After(k') == Before(k) + (InOrder(t.left) + InOrder(t.right)) + After(k)
    ensures Scope(k', t') == Scope(k, t) - {node}
  {
    ghost var base := InRight(k, t.left, node, t.color);
    GoRight(root, k, t, node);
    var m;
    ghost var s, u;
    m, s, u := Leftmost(node.right, root, base, t.right);
    child, parent, color := m.right, m.parent, m.color;
    SuccessorScopeAfter(s, k, t, u);
    SuccessorOrder(s, k, t, u);
    SuccessorGap(s, k, t, u);
    MoveSuccessor(node, m, root, s, k, t, u);
    if parent == node {
      parent := m;
    }
    k', t' := SuccessorPath(s, k, t, m), u.right;
  }

  /** rb_erase up to its last step, for a node with at most one child. */
  method EraseOuter(node: Node, root: Root, ghost k: Path, ghost t: Tree)
    returns (child: Node?, parent: Node?, color: Color, ghost k': Path, ghost t': Tree)
    requires t.Branch? && (t.left.Leaf? || t.right.Leaf?)
    requires At(root, k, t, node) && RedBlack(Plug(k, t))
    modifies root, Scope(k, t)
    ensures At(root, k', t', child) && parent == Above(k')
    ensures if color == Black then EraseGap(k', t') else RedBlack(Plug(k', t'))
    ensures Before(k') + InOrder(t') + After(k') == Before(k) + (InOrder(t.left) + InOrder(t.right)) + After(k)
    ensures Scope(k', t') == Scope(k, t) - {node}
  {
    child := if node.left == null then node.right else node.left;
    parent, color := node.parent, node.color;
    SpliceGap(k, t);
    Unlink(node, child, root, k, t);
    k', t' := k, if t.left.Leaf? then t.right else t.left;
    assert InOrder(t') == InOrder(t.left) + InOrder(t.right);
    assert Nodes(t') == Nodes(t) - {node};
  }

  /** rb_erase: the node goes, and the rest keep their order in a red-black tree. */
  method Erase(node: Node, root: Root, ghost k: Path, ghost t: Tree) returns (ghost tree: Tree)
    requires t.Branch? && At(root, k, t, node) && RedBlack(Plug(k, t))
    modifies root, Scope(k, t)
    ensures At(root, Top, tree, root.node) && RedBlack(tree)
    ensures InOrder(tree) == Before(k) + (InOrder(t.left) + InOrder(t.right)) + After(k)
    ensures Nodes(tree) == Scope(k, t) - {node}
  {
    var child, parent, color;
    ghost var k', t';
    if node.left == null || node.right == null {
      child, parent, color, k', t' := EraseOuter(node, root, k, t);
    } else {
      child, parent, color, k', t' := EraseInner(node, root, k, t);
    }
    tree := FinishErase(child, parent, color, root, k', t');
  }

  lemma Regroup(a: seq<Node>, l: seq<Node>, x: Node, r: seq<Node>, c: seq<Node>)
    ensures a + (l + [x] + r) + c == (a + l) + [x] + (r + c) && a + (l + r) + c == (a + l) + (r + c)
  {
  }

  /** rb_erase of any node of a tree: it goes from its place in the order, and nothing else changes there. */
  method EraseAny(node: Node, root: Root, ghost t: Tree)
    returns (ghost tree: Tree, ghost a: seq<Node>, ghost c: seq<Node>)
    requires At(root, Top, t, root.node) && RedBlack(t) && node in Nodes(t)
    modifies root, Nodes(t)
    ensures At(root, Top, tree, root.node) && RedBlack(tree) && Nodes(tree) == Nodes(t) - {node}
    ensures InOrder(t) == a + [node] + c && InOrder(tree) == a + c
  {
    ghost var k, l, color, r := Locate(Top, t, node);
    ghost var u := Branch(l, node, color, r);
    FromTop(root, k, u);
    PlugNodes(k, u);
    PlugInOrder(k, u);
    a, c := Before(k) + InOrder(l), InOrder(r) + After(k);
    Regroup(Before(k), InOrder(l), node, InOrder(r), After(k));
    tree := Erase(node, root, k, u);
  }

  /** rb_erase's last step: the tree needs repair when a black node was taken out. */
  method FinishErase(child: Node?, parent: Node?, color: Color, root: Root, ghost k: Path, ghost t: Tree)
    returns (ghost tree: Tree)
    requires At(root, k, t, child) && parent == Above(k)
    requires if color == Black then EraseGap(k, t) else RedBlack(Plug(k, t))
    modifies root, Scope(k, t)
    ensures At(root, Top, tree, root.node) && RedBlack(tree)
    ensures InOrder(tree) == Before(k) + InOrder(t) + After(k) && Nodes(tree) == Scope(k, t)
  {
    if color == Black {
      tree := EraseColor(child, parent, root, k, t);
    } else {
      ToTop(root, k, t, child);
      PlugInOrder(k, t);
      PlugNodes(k, t);
      tree := Plug(k, t);
    }
  }

  // ---------- linking a new node ----------

  /** rb_link_node: the new red leaf at an empty position, reached through its parent's left or right link. */
  method LinkNode(node: Node, parent: Node?, asLeft: bool, root: Root, ghost k: Path)
    requires At(root, k, Leaf, null) && node !in PathNodes(k)
    requires parent == Above(k) && (parent != null ==> asLeft == k.InLeft?)
    modifies root, node, if parent == null then {} else {parent}
    ensures At(root, k, Branch(Leaf, node, Red, Leaf), node)
  {
    assert allocated(PathNodes(k));
    node.parent := parent;
    node.color := Red;
    node.left, node.right := null, null;
    if parent == null {
      root.node := node;
    } else if asLeft {
      parent.left := node;
    } else {
      parent.right := node;
    }
  }

  /** rb_link_node followed by rb_insert_color. */
  method Insert(node: Node, parent: Node?, asLeft: bool, root: Root, ghost k: Path) returns (ghost tree: Tree)
    requires At(root, k, Leaf, null) && node !in PathNodes(k) && RedBlack(Plug(k, Leaf))
    requires parent == Above(k) && (parent != null ==> asLeft == k.InLeft?)
    modifies root, node, PathNodes(k)
    ensures At(root, Top, tree, root.node) && RedBlack(tree)
    ensures InOrder(tree) == Before(k) + [node] + After(k)
    ensures Nodes(tree) == PathNodes(k) + {node}
  {
    UnplugRedBlack(k, Leaf);
    LinkNode(node, parent, asLeft, root, k);
    ghost var t := Branch(Leaf, node, Red, Leaf);
    assert InOrder(t) == [node] && Nodes(t) == {node};
    tree := InsertColor(node, root, k, t);
  }

  // ---------- walking in order ----------

  /** rb_first: the first node in order, or NULL for an empty tree. */
  method First(root: Root, ghost tree: Tree) returns (n: Node?)
    requires At(root, Top, tree, root.node)
    ensures tree.Leaf? <==> n == null
    ensures n != null ==> InOrder(tree) != [] && n == InOrder(tree)[0]
  {
    n := root.node;
    if n == null {
      return;
    }
    ghost var s, u;
    n, s, u := Leftmost(n, root, Top, tree);
    LeftSpineFirst(s);
    PlugInOrder(s, u);
    assert InOrder(u)[0] == n;
  }

  /** rb_next: the node after the given one in order, or NULL after the last; an unlinked node has none. */
  method Next(start: Node, root: Root, ghost k0: Path, ghost t0: Tree) returns (n: Node?)
    requires start.parent == start || (t0.Branch? && At(root, k0, t0, start))
    ensures start.parent == start ==> n == null
    ensures start.parent != start ==>
      var later := InOrder(t0.right) + After(k0); if later == [] then n == null else n == later[0]
  {
    if start.parent == start {
      return null;
    }
    if start.right != null {
      ghost var s, u;
      GoRight(root, k0, t0, start);
      n, s, u := Leftmost(start.right, root, InRight(k0, t0.left, t0.node, t0.color), t0.right);
      LeftSpineFirst(s);
      PlugInOrder(s, u);
      assert InOrder(u)[0] == n;
      return;
    }
    var node, parent := start, start.parent;
    ghost var k, t := k0, t0;
    while parent != null && node == parent.right
      invariant At(root, k, t, node) && t.Branch? && parent == Above(k) && After(k) == After(k0)
      decreases k
    {
      Around(root, k, t, node);
      Climb(root, k, t, node);
      k, t := k.up, Joined(k, t);
      node := parent;
      parent := node.parent;
    }
    if parent != null {
      Around(root, k, t, node);
    }
    n := parent;
  }
}
