/**
  oslib/src/rbtree.c as it runs: linked nodes, one shared sentinel, loops that rewrite fields.
  Each method is proved against the functions of `RedBlackModel`.
 */
module RedBlackHeap {
  import opened Common
  import opened RedBlackModel

  import opened RedBlackLinks

  /** The comparison callback: negative, zero or positive. */
  function Compare(a: int, b: int): (c: int)
    ensures (c < 0 <==> a < b) && (c == 0 <==> a == b)
  {
    if a < b then -1 else if a == b then 0 else 1
  }

  class RBTree {
    const nil: TreeNode
    var root: TreeNode
    var size: nat
    ghost var model: Tree<TreeNode>

    constructor ()
      ensures Valid() && fresh(nil) && model == Leaf
    {
      var n := new TreeNode(0);
      nil, root, size, model := n, n, 0, Leaf;
      new;
      nil.left, nil.right, nil.parent, nil.color := nil, nil, nil, Black;
    }

    ghost function Nodes(): set<TreeNode>
      reads this
    {
      Items(model) + {nil}
    }

    ghost predicate Valid()
      reads this, Nodes()
    {
      && Holds(Nodes(), Root, model) && nil.color == Black
      && ColorOf(model) == Black && Sorted(Inorder(model)) && size == |Inorder(model)|
    }

    /** The nodes of `S` are the sentinel and the tree with `t` at the end of `path`. */
    ghost predicate Holds(S: set<TreeNode>, path: Path<TreeNode>, t: Tree<TreeNode>)
      reads this, S
    {
      && nil in S && Items(t) + PathItems(path) <= S
      && nil.left == nil && nil.right == nil
      && Zip(Snap(S), nil, path, t)
      && root == RootOf(path, Top(t, nil))
    }

    /** The assignments of `left_rotate`. */
    method LeftLinks(x: TreeNode, ghost S: set<TreeNode>)
      requires nil in S && x in S && x.right in S && x.right.left in S && x.parent in S
      requires x.right != nil ==> x.right.left != x && x.right != x
      modifies this`root, S
      ensures Snap(S) == LeftRotated(old(Snap(S)), nil, x)
      ensures root == if old(x.right) != nil && old(x.parent) == nil then old(x.right) else old(root)
    {
      ghost var m := Snap(S);
      var y := x.right;
      if y == nil { return; }
      var b := y.left;
      SetRight(x, b, S);
      if b != nil {
        SetParentOf(b, x, S);
      }
      ghost var m2 := Snap(S);
      assert x.parent == old(x.parent);
      Relink(x, y, S);
      ghost var m3 := Snap(S);
      SetLeft(y, x, S);
      ghost var m4 := Snap(S);
      SetParentOf(x, y, S);
      assert m[x].right == y && m[y].left == b;
      assert m2 == MovedInner(m, nil, x, b, m[x].(right := b));
    }

    /** The assignments of `right_rotate`. */
    method RightLinks(x: TreeNode, ghost S: set<TreeNode>)
      requires nil in S && x in S && x.left in S && x.left.right in S && x.parent in S
      requires x.left != nil ==> x.left.right != x && x.left != x
      modifies this`root, S
      ensures Snap(S) == RightRotated(old(Snap(S)), nil, x)
      ensures root == if old(x.left) != nil && old(x.parent) == nil then old(x.left) else old(root)
    {
      ghost var m := Snap(S);
      var y := x.left;
      if y == nil { return; }
      var b := y.right;
      SetLeft(x, b, S);
      if b != nil {
        SetParentOf(b, x, S);
      }
      ghost var m2 := Snap(S);
      assert x.parent == old(x.parent);
      Relink(x, y, S);
      ghost var m3 := Snap(S);
      SetRight(y, x, S);
      ghost var m4 := Snap(S);
      SetParentOf(x, y, S);
      assert m[x].left == y && m[y].right == b;
      assert m2 == MovedInner(m, nil, x, b, m[x].(left := b));
    }

    /** `y` takes the place of `x` below the parent of `x`, or at the root. */
    method Relink(x: TreeNode, y: TreeNode, ghost S: set<TreeNode>)
      requires nil in S && x in S && y in S && x.parent in S
      modifies this`root, S`left, S`right, y`parent
      ensures Snap(S) == Relinked(old(Snap(S)), nil, x, y)
      ensures x.parent == old(x.parent)
      ensures root == if old(x.parent) == nil then y else old(root)
    {
      var p := x.parent;
      SetParentOf(y, p, S);
      if p != nil {
        ReplaceChild(p, x, y, S);
      } else {
        root := y;
      }
    }

    /** `left_rotate`: turns the subtree of `x`, and does nothing when there is no right child. */
    method LeftRotate(x: TreeNode, ghost S: set<TreeNode>, ghost path: Path<TreeNode>, ghost t: Tree<TreeNode>)
      requires Holds(S, path, t) && t.Node? && t.item == x
      modifies this`root, S
      ensures Holds(S, path, if t.right.Leaf? then t else RotatedLeft(t))
      ensures nil.color == old(nil.color) && Snap(S).Keys == old(Snap(S)).Keys
    {
      ghost var m := Snap(S);
      if t.right.Node? {
        LeftRotateZip(m, nil, path, t);
      }
      assert m[x].parent == Hole(path, nil);
      LeftLinks(x, S);
      assert Snap(S)[nil] == m[nil];
    }

    /** `right_rotate`: turns the subtree of `x`, and does nothing when there is no left child. */
    method RightRotate(x: TreeNode, ghost S: set<TreeNode>, ghost path: Path<TreeNode>, ghost t: Tree<TreeNode>)
      requires Holds(S, path, t) && t.Node? && t.item == x
      modifies this`root, S
      ensures Holds(S, path, if t.left.Leaf? then t else RotatedRight(t))
      ensures nil.color == old(nil.color) && Snap(S).Keys == old(Snap(S)).Keys
    {
      ghost var m := Snap(S);
      if t.left.Node? {
        RightRotateZip(m, nil, path, t);
      }
      assert m[x].parent == Hole(path, nil);
      RightLinks(x, S);
      assert Snap(S)[nil] == m[nil];
    }

    // ------------------------------------------------------------ moving the position

    lemma StepUp(S: set<TreeNode>, path: Path<TreeNode>, t: Tree<TreeNode>)
      requires !path.Root?
      ensures Holds(S, path, t) <==> Holds(S, path.up, UpOne(path, path.color, t, Sibling(path)))
    {
      ZipUp(Snap(S), nil, path, t);
    }

    function LeftPath(path: Path<TreeNode>, t: Tree<TreeNode>): Path<TreeNode>
      requires t.Node?
    {
      LeftOf(path, t.color, t.item, t.key, t.right)
    }

    function RightPath(path: Path<TreeNode>, t: Tree<TreeNode>): Path<TreeNode>
      requires t.Node?
    {
      RightOf(t.left, t.color, t.item, t.key, path)
    }

    lemma StepDown(S: set<TreeNode>, path: Path<TreeNode>, t: Tree<TreeNode>)
      requires Holds(S, path, t) && t.Node?
      ensures Holds(S, LeftPath(path, t), t.left) && Holds(S, RightPath(path, t), t.right)
    {
      StepUp(S, LeftPath(path, t), t.left);
      StepUp(S, RightPath(path, t), t.right);
    }

    /** The position of the sibling. */
    function Across(path: Path<TreeNode>, t: Tree<TreeNode>): Path<TreeNode>
      requires !path.Root?
    {
      if path.LeftOf? then RightOf(t, path.color, path.item, path.key, path.up)
      else LeftOf(path.up, path.color, path.item, path.key, t)
    }

    lemma StepAcross(S: set<TreeNode>, path: Path<TreeNode>, t: Tree<TreeNode>)
      requires !path.Root?
      ensures Holds(S, path, t) <==> Holds(S, Across(path, t), Sibling(path))
    {
      StepUp(S, path, t);
      StepUp(S, Across(path, t), Sibling(path));
    }

    /** What the pointers of the node at the position say. */
    lemma ReadNode(S: set<TreeNode>, path: Path<TreeNode>, t: Tree<TreeNode>)
      requires Holds(S, path, t)
      ensures t.Node? ==>
                && t.item in S && t.item != nil && t.item.left == Top(t.left, nil) && t.item.right == Top(t.right, nil)
                && t.item.parent == Hole(path, nil) && t.item.key == t.key && t.item.color == t.color
                && t.item.left in S && t.item.right in S && t.item.parent in S
                && (t.left.Node? ==> t.left.item != nil && t.left.item != t.item)
                && (t.right.Node? ==> t.right.item != nil && t.right.item != t.item)
                && (t.left.Node? && t.right.Node? ==> t.left.item != t.right.item)
      ensures !path.Root? ==>
                && path.item in S && path.item != nil && path.item.key == path.key && path.item.color == path.color
                && path.item.parent == Hole(path.up, nil) && path.item.parent in S
                && path.item.left == (if path.LeftOf? then Top(t, nil) else Top(path.left, nil))
                && path.item.right == (if path.RightOf? then Top(t, nil) else Top(path.right, nil))
                && path.item.left in S && path.item.right in S
                && (t.Node? ==> t.item != path.item && t.item != Top(Sibling(path), nil))
                && (Sibling(path).Node? ==> Sibling(path).item != nil && Sibling(path).item != path.item)
    {
      ghost var m := Snap(S);
      if t.Node? {
        assert m[t.item] == Fields(Hole(path, nil), Top(t.left, nil), Top(t.right, nil), t.key, t.color);
        assert t.left.Node? ==> t.left.item in Items(t.left);
        assert t.right.Node? ==> t.right.item in Items(t.right);
      }
      if !path.Root? {
        assert m[path.item].key == path.key;
        assert Sibling(path).Node? ==> Sibling(path).item in Items(Sibling(path));
        assert !path.up.Root? ==> path.up.item in PathItems(path.up);
      }
    }

    method Paint(x: TreeNode, c: Color, ghost S: set<TreeNode>, ghost path: Path<TreeNode>, ghost t: Tree<TreeNode>)
      requires Holds(S, path, t) && t.Node? && t.item == x
      modifies x`color
      ensures Holds(S, path, t.(color := c)) && nil.color == old(nil.color)
    {
      ghost var m := Snap(S);
      PaintZip(m, nil, path, t, c);
      SetColor(x, c, S);
    }

    // ------------------------------------------------------------ insertion

    /** A red uncle: both children of the grandparent are painted black and it is painted red. */
    method PaintFamily(p: TreeNode, u: TreeNode, g: TreeNode, ghost S: set<TreeNode>,
                       ghost path: Path<TreeNode>, ghost t: Tree<TreeNode>)
      requires Holds(S, path, t) && t.Node? && t.left.Node? && t.right.Node?
      requires g == t.item && {p, u} == {t.left.item, t.right.item}
      modifies p`color, u`color, g`color
      ensures Holds(S, path, Node(Red, Blacken(t.left), t.item, t.key, Blacken(t.right)))
      ensures nil.color == old(nil.color)
    {
      ReadNode(S, path, t);
      StepDown(S, path, t);
      ghost var l, r := LeftPath(path, t), RightPath(path, t);
      if u == g.left {
        Paint(u, Black, S, l, t.left);
        StepUp(S, l, Blacken(t.left));
        ghost var t1 := t.(left := Blacken(t.left));
        StepDown(S, path, t1);
        Paint(p, Black, S, RightPath(path, t1), t.right);
        StepUp(S, RightPath(path, t1), Blacken(t.right));
        Paint(g, Red, S, path, t1.(right := Blacken(t.right)));
      } else {
        Paint(u, Black, S, r, t.right);
        StepUp(S, r, Blacken(t.right));
        ghost var t1 := t.(right := Blacken(t.right));
        StepDown(S, path, t1);
        Paint(p, Black, S, LeftPath(path, t1), t.left);
        StepUp(S, LeftPath(path, t1), Blacken(t.left));
        Paint(g, Red, S, path, t1.(left := Blacken(t.left)));
      }
    }

    /** The black-uncle ending: the parent rises over the grandparent, black over red. */
    method LiftLeft(node: TreeNode, ghost S: set<TreeNode>, ghost up: Path<TreeNode>, ghost p: Tree<TreeNode>)
      requires Holds(S, up, p) && p.Node? && p.left.Node? && p.left.item == node && up.LeftOf?
      modifies this`root, S
      ensures Holds(S, up.up, Node(Black, p.left, p.item, p.key, Node(Red, p.right, up.item, up.key, up.right)))
      ensures node.parent == p.item && p.item.color == Black && p.item in S
      ensures nil.color == old(nil.color)
    {
      StepDown(S, up, p);
      ReadNode(S, LeftPath(up, p), p.left);
      var temp := node.parent;
      Paint(temp, Black, S, up, p);
      ReadNode(S, up, p.(color := Black));
      temp := temp.parent;
      StepUp(S, up, p.(color := Black));
      ghost var g := UpOne(up, up.color, p.(color := Black), Sibling(up));
      Paint(temp, Red, S, up.up, g);
      RightRotate(temp, S, up.up, g.(color := Red));
      ghost var s := RotatedRight(g.(color := Red));
      ReadNode(S, up.up, s);
      StepDown(S, up.up, s);
      ReadNode(S, LeftPath(up.up, s), s.left);
    }

    /** A black uncle on the right: node and parent lie left of the grandparent. */
    method RotateFromLeft(node: TreeNode, ghost S: set<TreeNode>, ghost path: Path<TreeNode>, ghost t: Tree<TreeNode>)
      returns (last: TreeNode)
      requires Holds(S, path, t) && t.Node? && t.item == node && RootBlack(path)
      requires !path.Root? && path.color == Red && path.up.LeftOf? && ColorOf(path.up.right) == Black
      modifies this`root, S
      ensures var s := InsertStep(path, t);
              s.Stop? && Holds(S, s.path, s.t) && last.parent == s.t.item && s.t.item in S && s.t.item.color == Black
      ensures nil.color == old(nil.color)
    {
      last := node;
      ReadNode(S, path, t);
      StepUp(S, path, t);
      ghost var p := UpOne(path, path.color, t, Sibling(path));
      if node == node.parent.right {
        last := node.parent;
        LeftRotate(last, S, path.up, p);
        p := RotatedLeft(p);
      }
      LiftLeft(last, S, path.up, p);
    }

    /** The same from the right: the parent rises over the grandparent, black over red. */
    method LiftRight(node: TreeNode, ghost S: set<TreeNode>, ghost up: Path<TreeNode>, ghost p: Tree<TreeNode>)
      requires Holds(S, up, p) && p.Node? && p.right.Node? && p.right.item == node && up.RightOf?
      modifies this`root, S
      ensures Holds(S, up.up, Node(Black, Node(Red, up.left, up.item, up.key, p.left), p.item, p.key, p.right))
      ensures node.parent == p.item && p.item.color == Black && p.item in S
      ensures nil.color == old(nil.color)
    {
      StepDown(S, up, p);
      ReadNode(S, RightPath(up, p), p.right);
      var temp := node.parent;
      Paint(temp, Black, S, up, p);
      ReadNode(S, up, p.(color := Black));
      temp := temp.parent;
      StepUp(S, up, p.(color := Black));
      ghost var g := UpOne(up, up.color, p.(color := Black), Sibling(up));
      Paint(temp, Red, S, up.up, g);
      LeftRotate(temp, S, up.up, g.(color := Red));
      ghost var s := RotatedLeft(g.(color := Red));
      ReadNode(S, up.up, s);
      StepDown(S, up.up, s);
      ReadNode(S, RightPath(up.up, s), s.right);
    }

    /** A black uncle on the left: node and parent lie right of the grandparent. */
    method RotateFromRight(node: TreeNode, ghost S: set<TreeNode>, ghost path: Path<TreeNode>, ghost t: Tree<TreeNode>)
      returns (last: TreeNode)
      requires Holds(S, path, t) && t.Node? && t.item == node && RootBlack(path)
      requires !path.Root? && path.color == Red && path.up.RightOf? && ColorOf(path.up.left) == Black
      modifies this`root, S
      ensures var s := InsertStep(path, t);
              s.Stop? && Holds(S, s.path, s.t) && last.parent == s.t.item && s.t.item in S && s.t.item.color == Black
      ensures nil.color == old(nil.color)
    {
      last := node;
      ReadNode(S, path, t);
      StepUp(S, path, t);
      ghost var p := UpOne(path, path.color, t, Sibling(path));
      if node == node.parent.left {
        last := node.parent;
        RightRotate(last, S, path.up, p);
        p := RotatedRight(p);
      }
      LiftRight(last, S, path.up, p);
    }

    lemma {:induction false} HoldsPlug(S: set<TreeNode>, path: Path<TreeNode>, t: Tree<TreeNode>)
      requires Holds(S, path, t)
      ensures Holds(S, Root, Plug(path, t))
    {
      if !path.Root? {
        StepUp(S, path, t);
        HoldsPlug(S, path.up, UpOne(path, path.color, t, Sibling(path)));
      }
    }

    lemma {:induction false} RootOnPath(path: Path<TreeNode>, top: TreeNode)
      ensures !path.Root? ==> RootOf(path, top) in PathItems(path)
    {
      if !path.Root? {
        RootOnPath(path.up, path.item);
      }
    }

    /** A parent on the left of the grandparent: the uncle decides. */
    method StepFromLeft(node: TreeNode, ghost S: set<TreeNode>, ghost path: Path<TreeNode>, ghost t: Tree<TreeNode>)
      returns (next: TreeNode)
      requires Holds(S, path, t) && t.Node? && t.item == node && RootBlack(path) && nil.color == Black
      requires !path.Root? && path.color == Red && path.up.LeftOf?
      modifies this`root, S
      ensures var s := InsertStep(path, t);
              && Holds(S, s.path, s.t)
              && (if s.GoOn? then next == s.t.item else next.parent in S && next.parent.color == Black)
      ensures nil.color == Black
    {
      ReadNode(S, path, t);
      StepUp(S, path, t);
      ghost var up := path.up;
      ghost var p := UpOne(path, path.color, t, Sibling(path));
      ReadNode(S, up, p);
      StepUp(S, up, p);
      ghost var g := UpOne(up, up.color, p, Sibling(up));
      StepDown(S, up.up, g);
      ReadNode(S, RightPath(up.up, g), g.right);
      var parent := node.parent;
      var grand := parent.parent;
      var temp := grand.right;
      if temp.color == Red {
        PaintFamily(parent, temp, grand, S, up.up, g);
        next := grand;
      } else {
        next := RotateFromLeft(node, S, path, t);
      }
    }

    /** A parent on the right of the grandparent: the uncle decides. */
    method StepFromRight(node: TreeNode, ghost S: set<TreeNode>, ghost path: Path<TreeNode>, ghost t: Tree<TreeNode>)
      returns (next: TreeNode)
      requires Holds(S, path, t) && t.Node? && t.item == node && RootBlack(path) && nil.color == Black
      requires !path.Root? && path.color == Red && path.up.RightOf?
      modifies this`root, S
      ensures var s := InsertStep(path, t);
              && Holds(S, s.path, s.t)
              && (if s.GoOn? then next == s.t.item else next.parent in S && next.parent.color == Black)
      ensures nil.color == Black
    {
      ReadNode(S, path, t);
      StepUp(S, path, t);
      ghost var up := path.up;
      ghost var p := UpOne(path, path.color, t, Sibling(path));
      ReadNode(S, up, p);
      StepUp(S, up, p);
      ghost var g := UpOne(up, up.color, p, Sibling(up));
      StepDown(S, up.up, g);
      ReadNode(S, LeftPath(up.up, g), g.left);
      var parent := node.parent;
      var grand := parent.parent;
      var temp := grand.left;
      if temp.color == Red {
        PaintFamily(parent, temp, grand, S, up.up, g);
        next := grand;
      } else {
        next := RotateFromRight(node, S, path, t);
      }
    }

    /** The body of the loop in `insert_fixup`. */
    method StepInsert(node: TreeNode, ghost S: set<TreeNode>, ghost path: Path<TreeNode>, ghost t: Tree<TreeNode>)
      returns (next: TreeNode)
      requires Holds(S, path, t) && t.Node? && t.item == node && RootBlack(path) && nil.color == Black
      requires !path.Root? && path.color == Red
      modifies this`root, S
      ensures var s := InsertStep(path, t);
              && Holds(S, s.path, s.t)
              && (if s.GoOn? then next == s.t.item else next.parent in S && next.parent.color == Black)
      ensures nil.color == Black
    {
      ReadNode(S, path, t);
      StepUp(S, path, t);
      ghost var p := UpOne(path, path.color, t, Sibling(path));
      ReadNode(S, path.up, p);
      ParentSide(S, path.up, p);
      hide InsertStep;
      hide Holds;
      var parent := node.parent;
      if parent == parent.parent.left {
        next := StepFromLeft(node, S, path, t);
      } else {
        next := StepFromRight(node, S, path, t);
      }
    }

    /** A node is the left child of its parent just when it stands there. */
    lemma ParentSide(S: set<TreeNode>, path: Path<TreeNode>, t: Tree<TreeNode>)
      requires Holds(S, path, t) && t.Node? && !path.Root?
      ensures t.item.parent == path.item && (t.item == path.item.left <==> path.LeftOf?)
    {
      ReadNode(S, path, t);
      StepUp(S, path, t);
      ReadNode(S, path.up, UpOne(path, path.color, t, Sibling(path)));
    }

    /** `insert_fixup`: ends with the tree that `RedBlackModel.InsertFixup` describes. */
    method FixInsert(start: TreeNode, ghost S: set<TreeNode>, ghost path0: Path<TreeNode>, ghost t0: Tree<TreeNode>)
      requires Holds(S, path0, t0) && t0.Node? && t0.item == start && RootBlack(path0) && nil.color == Black
      modifies this`root, S
      ensures Holds(S, Root, InsertFixup(path0, t0)) && nil.color == Black
    {
      var node := start;
      ghost var path, t, done := path0, t0, false;
      ghost var goal := InsertFixup(path0, t0);
      while node != root && node.parent.color == Red
        invariant Holds(S, path, t) && t.Node? && RootBlack(path) && nil.color == Black
        invariant !done ==> node == t.item && InsertFixup(path, t) == goal
        invariant done ==> node.parent.color == Black && goal == Blacken(Plug(path, t))
        decreases if done then 0 else 1 + PathLength(path)
      {
        ReadNode(S, path, t);
        InsertStepShorter(path, t);
        ghost var s := InsertStep(path, t);
        node := StepInsert(node, S, path, t);
        path, t, done := s.path, s.t, s.Stop?;
      }
      HoldsPlug(S, path, t);
      ReadNode(S, path, t);
      RootOnPath(path, t.item);
      Paint(root, Black, S, Root, Plug(path, t));
    }

    /** The search down the tree, with the position it has reached. */
    method Search(k: int)
      returns (node: TreeNode, parent: TreeNode, rv: int, ghost path: Path<TreeNode>, ghost t: Tree<TreeNode>)
      requires Valid()
      ensures Valid() && Holds(Nodes(), path, t) && (path, t) == Descend(Root, model, k)
      ensures node == Top(t, nil)
      ensures node == nil ==> parent == Hole(path, nil) && (!path.Root? ==> (rv < 0 <==> path.LeftOf?))
    {
      node, parent, rv, path, t := root, nil, 0, Root, model;
      while node != nil
        invariant Valid() && Holds(Nodes(), path, t) && Descend(path, t, k) == Descend(Root, model, k)
        invariant node == Top(t, nil) && parent == Hole(path, nil)
        invariant !path.Root? ==> (rv < 0 <==> path.LeftOf?)
        decreases t
      {
        ReadNode(Nodes(), path, t);
        rv := Compare(k, node.key);
        if rv == 0 { return; }
        StepDown(Nodes(), path, t);
        parent := node;
        if rv < 0 {
          node, path, t := node.left, LeftPath(path, t), t.left;
        } else {
          node, path, t := node.right, RightPath(path, t), t.right;
        }
      }
    }

    /** Hangs a new red node at the free position the search has found. */
    method Attach(element: TreeNode, parent: TreeNode, rv: int, ghost path: Path<TreeNode>)
      requires Holds(Nodes(), path, Leaf) && nil.color == Black && element !in Nodes()
      requires parent == Hole(path, nil) && (!path.Root? ==> (rv < 0 <==> path.LeftOf?))
      modifies this`root, Nodes(), element
      ensures Holds(Nodes() + {element}, path,
                    Node(if path.Root? then Black else Red, Leaf, element, old(element.key), Leaf))
      ensures nil.color == Black
    {
      ghost var m := Snap(Nodes());
      ReadNode(Nodes(), path, Leaf);
      element.color := Red;
      element.left, element.right := nil, nil;
      if parent != nil {
        element.parent := parent;
        if rv < 0 {
          parent.left := element;
        } else {
          parent.right := element;
        }
      } else {
        root := element;
        element.parent := nil;
        element.color := Black;
      }
      AttachZip(m, Snap(Nodes() + {element}), nil, path, element, element.key, element.color);
      RootOfSame(path, nil, element);
    }

    lemma {:induction false} RootOfSame(path: Path<TreeNode>, a: TreeNode, b: TreeNode)
      ensures !path.Root? ==> RootOf(path, a) == RootOf(path, b)
    {
    }

    method AttachAndFix(element: TreeNode, parent: TreeNode, rv: int, ghost path: Path<TreeNode>)
      requires Valid() && element !in Nodes()
      requires Descend(Root, model, element.key) == (path, Leaf) && Holds(Nodes(), path, Leaf)
      requires parent == Hole(path, nil) && (!path.Root? ==> (rv < 0 <==> path.LeftOf?))
      modifies this`root, Nodes(), element
      ensures Holds(Nodes() + {element}, Root, RedBlackModel.Insert(model, element, old(element.key)))
      ensures nil.color == Black
    {
      ghost var k := element.key;
      Attach(element, parent, rv, path);
      if parent != nil {
        FixInsert(element, Nodes() + {element}, path, Node(Red, Leaf, element, k, Leaf));
      }
    }

    /** `RBTREE_Insert`. */
    method Insert(element: TreeNode) returns (r: int)
      requires Valid() && element !in Nodes()
      modifies this, Nodes(), element
      ensures Valid() && element.key == old(element.key)
      ensures model == RedBlackModel.Insert(old(model), element, element.key)
      ensures r == if HasKey(old(Inorder(model)), element.key) then -1 else 0
      ensures Nodes() == if r == 0 then old(Nodes()) + {element} else old(Nodes())
    {
      ghost var k, before := element.key, model;
      DescendFinds(before, k);
      var node, parent, rv, path, t := Search(element.key);
      if node != nil {
        ReadNode(Nodes(), path, t);
        return -1;
      }
      assert t.Leaf? by { ReadNode(Nodes(), path, t); }
      Add(element, parent, rv, path);
      r := 0;
    }

    /** The new node where the search has ended. */
    method Add(element: TreeNode, parent: TreeNode, rv: int, ghost path: Path<TreeNode>)
      requires Valid() && element !in Nodes() && !HasKey(Inorder(model), element.key)
      requires Descend(Root, model, element.key) == (path, Leaf) && Holds(Nodes(), path, Leaf)
      requires parent == Hole(path, nil) && (!path.Root? ==> (rv < 0 <==> path.LeftOf?))
      modifies this, Nodes(), element
      ensures Valid() && element.key == old(element.key)
      ensures model == RedBlackModel.Insert(old(model), element, element.key)
      ensures Nodes() == old(Nodes()) + {element}
    {
      ghost var k, before := element.key, model;
      AttachAndFix(element, parent, rv, path);
      InsertFacts(before, element, k);
      model := RedBlackModel.Insert(before, element, k);
      assert Nodes() == old(Nodes()) + {element};
      ItemFields(Nodes(), Root, model, element, k);
      size := size + 1;
    }

    lemma InsertFacts(t: Tree<TreeNode>, x: TreeNode, k: int)
      requires ColorOf(t) == Black && Sorted(Inorder(t)) && !HasKey(Inorder(t), k)
      ensures var n := RedBlackModel.Insert(t, x, k);
              && ColorOf(n) == Black && Sorted(Inorder(n)) && |Inorder(n)| == |Inorder(t)| + 1
              && Items(n) == Items(t) + {x} && Entry(x, k) in Inorder(n)
    {
      InsertKeepsRedBlack(t, x, k);
      InsertItems(t, x, k);
      var i := InsertAdds(t, x, k);
      assert Inorder(RedBlackModel.Insert(t, x, k))[i] == Entry(x, k);
    }

    lemma {:induction false} ItemFields(S: set<TreeNode>, path: Path<TreeNode>, t: Tree<TreeNode>, x: TreeNode, k: int)
      requires Holds(S, path, t) && Entry(x, k) in Inorder(t)
      ensures x.key == k
      decreases t
    {
      if t.Node? {
        InorderParts(t);
        ReadNode(S, path, t);
        StepDown(S, path, t);
        if Entry(x, k) in Inorder(t.left) {
          ItemFields(S, LeftPath(path, t), t.left, x, k);
        } else if Entry(x, k) in Inorder(t.right) {
          ItemFields(S, RightPath(path, t), t.right, x, k);
        }
      }
    }

    // ------------------------------------------------------------ removal

    function Painted(t: Tree<TreeNode>, c: Color): Tree<TreeNode> {
      if t.Leaf? then t else t.(color := c)
    }

    /** Painting the node at a position, which may be the sentinel. */
    method PaintTop(x: TreeNode, c: Color, ghost S: set<TreeNode>, ghost path: Path<TreeNode>, ghost t: Tree<TreeNode>)
      requires Holds(S, path, t) && x == Top(t, nil)
      modifies x`color
      ensures Holds(S, path, Painted(t, c))
      ensures nil.color == if t.Leaf? then c else old(nil.color)
    {
      ghost var m := Snap(S);
      if t.Node? {
        PaintZip(m, nil, path, t, c);
      }
      SetColor(x, c, S);
      if t.Leaf? {
        ZipFrame(m, Snap(S), nil, path, t);
      }
    }

    /** Painting the right child of a node, where both may be the sentinel. */
    method PaintRight(x: TreeNode, c: Color, ghost S: set<TreeNode>, ghost path: Path<TreeNode>,
                      ghost t: Tree<TreeNode>)
      requires Holds(S, path, t) && x == Top(t, nil) && x.right in S
      modifies x.right`color
      ensures Holds(S, path, if t.Leaf? then t else t.(right := Painted(t.right, c)))
      ensures nil.color == if t.Leaf? || t.right.Leaf? then c else old(nil.color)
    {
      ReadNode(S, path, t);
      ghost var q, r := path, t;
      if t.Node? {
        StepDown(S, path, t);
        q, r := RightPath(path, t), t.right;
      }
      PaintTop(x.right, c, S, q, r);
      if t.Node? {
        StepUp(S, q, Painted(r, c));
      }
    }

    /** The same on the left. */
    method PaintLeft(x: TreeNode, c: Color, ghost S: set<TreeNode>, ghost path: Path<TreeNode>, ghost t: Tree<TreeNode>)
      requires Holds(S, path, t) && x == Top(t, nil) && x.left in S
      modifies x.left`color
      ensures Holds(S, path, if t.Leaf? then t else t.(left := Painted(t.left, c)))
      ensures nil.color == if t.Leaf? || t.left.Leaf? then c else old(nil.color)
    {
      ReadNode(S, path, t);
      ghost var q, r := path, t;
      if t.Node? {
        StepDown(S, path, t);
        q, r := LeftPath(path, t), t.left;
      }
      PaintTop(x.left, c, S, q, r);
      if t.Node? {
        StepUp(S, q, Painted(r, c));
      }
    }

    /** The parent is painted red and turned, so that node `t` moves down to the left. */
    method TurnLeft(node: TreeNode, ghost S: set<TreeNode>, ghost path: Path<TreeNode>, ghost t: Tree<TreeNode>)
      returns (temp: TreeNode)
      requires Holds(S, path, t) && t.Node? && t.item == node && path.LeftOf?
      modifies this`root, S
      ensures var w := path.right;
              var p := if w.Leaf? then LeftOf(path.up, Red, path.item, path.key, w)
                       else LeftOf(LeftOf(path.up, w.color, w.item, w.key, w.right), Red, path.item, path.key, w.left);
              Holds(S, p, t) && nil.color == old(nil.color) && temp == Top(p.right, nil)
    {
      ReadNode(S, path, t);
      StepUp(S, path, t);
      ghost var u := UpOne(path, path.color, t, path.right);
      Paint(node.parent, Red, S, path.up, u);
      u := u.(color := Red);
      StepDown(S, path.up, u);
      ReadNode(S, LeftPath(path.up, u), t);
      LeftRotate(node.parent, S, path.up, u);
      ghost var q := path.up;
      if u.right.Node? {
        u := RotatedLeft(u);
        StepDown(S, q, u);
        q := LeftPath(q, u);
        u := u.left;
      }
      StepDown(S, q, u);
      ReadNode(S, LeftPath(q, u), t);
      temp := node.parent.right;
    }

    /** A red sibling on the right (possibly the sentinel) is left behind. */
    method LeaveRedLeft(node: TreeNode, ghost S: set<TreeNode>, ghost path: Path<TreeNode>, ghost t: Tree<TreeNode>)
      returns (temp: TreeNode)
      requires Holds(S, path, t) && t.Node? && t.item == node && path.LeftOf?
      modifies this`root, S
      ensures var (p, n) := AwayFromRed(path, old(nil.color));
              Holds(S, p, t) && nil.color == n && temp == Top(Sibling(p), nil)
    {
      ReadNode(S, path, t);
      StepAcross(S, path, t);
      ghost var q, w := Across(path, t), path.right;
      ReadNode(S, q, w);
      temp := node.parent.right;
      if temp.color == Red {
        PaintTop(temp, Black, S, q, w);
        StepAcross(S, q, Painted(w, Black));
        temp := TurnLeft(node, S, path.(right := Painted(w, Black)), t);
      }
    }

    /** The sibling once its outer child is seen red; its own colour is about to be overwritten. */
    ghost predicate Straightened(o: Tree<TreeNode>, path: Path<TreeNode>, nilColor: Color)
      requires !path.Root? && Sibling(path).Node?
    {
      o.Node? && OuterRed(path, nilColor).Node? && o.(color := Red) == OuterRed(path, nilColor).(color := Red)
    }

    /** The inner child of the right sibling, painted black, comes above it, painted red. */
    function RaisedLeft(w: Tree<TreeNode>): Tree<TreeNode>
      requires w.Node?
    {
      var v := w.(left := Painted(w.left, Black), color := Red);
      if v.left.Leaf? then v else RotatedRight(v)
    }

    method RaiseLeft(x: TreeNode, ghost S: set<TreeNode>, ghost q: Path<TreeNode>, ghost w: Tree<TreeNode>)
      requires Holds(S, q, w) && w.Node? && x == w.item
      modifies this`root, S
      ensures Holds(S, q, RaisedLeft(w)) && nil.color == if w.left.Leaf? then Black else old(nil.color)
    {
      ReadNode(S, q, w);
      PaintLeft(x, Black, S, q, w);
      ghost var v := w.(left := Painted(w.left, Black));
      Paint(x, Red, S, q, v);
      RightRotate(x, S, q, v.(color := Red));
    }

    lemma RaisedLeftIsStraight(path: Path<TreeNode>, nilColor: Color)
      requires path.LeftOf? && path.right.Node? && Seen(path.right.right, nilColor) == Black
      ensures Straightened(RaisedLeft(path.right), path, nilColor)
    {
    }

    /** The outer child of the right sibling is seen black: its inner child is painted and rotated up. */
    method StraightenLeft(node: TreeNode, temp0: TreeNode, ghost S: set<TreeNode>, ghost path: Path<TreeNode>,
                          ghost t: Tree<TreeNode>)
      returns (temp: TreeNode, ghost o: Tree<TreeNode>)
      requires Holds(S, path, t) && t.Node? && t.item == node && path.LeftOf? && path.right.Node?
      requires temp0 == path.right.item && Seen(path.right.right, nil.color) == Black
      modifies this`root, S
      ensures Straightened(o, path, old(nil.color)) && Holds(S, path.(right := o), t)
      ensures temp == o.item && nil.color == if path.right.left.Leaf? then Black else old(nil.color)
    {
      ghost var w := path.right;
      RaisedLeftIsStraight(path, nil.color);
      StepAcross(S, path, t);
      hide Straightened;
      RaiseLeft(temp0, S, Across(path, t), w);
      o := RaisedLeft(w);
      StepAcross(S, Across(path, t), o);
      ReadNode(S, path.(right := o), t);
      temp := node.parent.right;
    }

    /** The last rotation, which lifts the right sibling over the parent (unless it is the sentinel). */
    method FinishLeft(node: TreeNode, temp: TreeNode, ghost S: set<TreeNode>, ghost path: Path<TreeNode>,
                      ghost t: Tree<TreeNode>)
      requires Holds(S, path, t) && t.Node? && t.item == node && path.LeftOf? && temp == Top(path.right, nil)
      modifies this`root, S
      ensures Holds(S, path.up, if path.right.Leaf? then UpOne(path, Black, t, Leaf) else Lifted(path, t, path.right))
      ensures nil.color == if path.right.Leaf? || path.right.right.Leaf? then Black else old(nil.color)
    {
      ReadNode(S, path, t);
      StepAcross(S, path, t);
      ghost var q, w := Across(path, t), path.right;
      ReadNode(S, q, w);
      PaintTop(temp, node.parent.color, S, q, w);
      w := Painted(w, path.color);
      ReadNode(S, q, w);
      PaintRight(temp, Black, S, q, w);
      if w.Node? {
        w := w.(right := Painted(w.right, Black));
      }
      StepAcross(S, q, w);
      ghost var p := path.(right := w);
      ReadNode(S, p, t);
      StepUp(S, p, t);
      ghost var u := UpOne(p, p.color, t, w);
      Paint(node.parent, Black, S, path.up, u);
      u := u.(color := Black);
      StepDown(S, path.up, u);
      ReadNode(S, LeftPath(path.up, u), t);
      LeftRotate(node.parent, S, path.up, u);
    }

    /** The colours the fix-up loop sees below the sibling. */
    lemma ReadChildren(S: set<TreeNode>, path: Path<TreeNode>, t: Tree<TreeNode>)
      requires Holds(S, path, t)
      ensures var x := Top(t, nil);
              && x.left in S && x.right in S && x.color == Seen(t, nil.color)
              && x.left.color == (if t.Leaf? then nil.color else Seen(t.left, nil.color))
              && x.right.color == (if t.Leaf? then nil.color else Seen(t.right, nil.color))
    {
      ReadNode(S, path, t);
      if t.Node? {
        StepDown(S, path, t);
        ReadNode(S, LeftPath(path, t), t.left);
        ReadNode(S, RightPath(path, t), t.right);
      }
    }

    /** The loop body after the sibling's own redness is dealt with; node `t` is a left child. */
    method RebalanceLeft(node: TreeNode, temp0: TreeNode, ghost S: set<TreeNode>, ghost path: Path<TreeNode>,
                         ghost t: Tree<TreeNode>)
      returns (next: TreeNode)
      requires Holds(S, path, t) && t.Node? && t.item == node && path.LeftOf? && temp0 == Top(path.right, nil)
      modifies this`root, S
      ensures var (s, n) := Rebalance(path, t, old(nil.color));
              Holds(S, s.path, s.t) && nil.color == n && next == if s.GoOn? then s.t.item else root
    {
      var temp := temp0;
      StepAcross(S, path, t);
      ghost var q, w := Across(path, t), path.right;
      ReadChildren(S, q, w);
      ReadNode(S, q, w);
      if temp.left.color == Black && temp.right.color == Black {
        PaintTop(temp, Red, S, q, w);
        StepAcross(S, q, Painted(w, Red));
        ghost var p := path.(right := Painted(w, Red));
        ReadNode(S, p, t);
        StepUp(S, p, t);
        next := node.parent;
      } else {
        ghost var o := w;
        if temp.right.color == Black {
          temp, o := StraightenLeft(node, temp, S, path, t);
        }
        FinishLeft(node, temp, S, path.(right := o), t);
        next := root;
      }
    }

    /** The parent is painted red and turned, so that node `t` moves down to the right. */
    method TurnRight(node: TreeNode, ghost S: set<TreeNode>, ghost path: Path<TreeNode>, ghost t: Tree<TreeNode>)
      returns (temp: TreeNode)
      requires Holds(S, path, t) && t.Node? && t.item == node && path.RightOf?
      modifies this`root, S
      ensures var w := path.left;
              var p := if w.Leaf? then RightOf(w, Red, path.item, path.key, path.up)
                       else RightOf(w.right, Red, path.item, path.key,
                                    RightOf(w.left, w.color, w.item, w.key, path.up));
              Holds(S, p, t) && nil.color == old(nil.color) && temp == Top(p.left, nil)
    {
      ReadNode(S, path, t);
      StepUp(S, path, t);
      ghost var u := UpOne(path, path.color, t, path.left);
      Paint(node.parent, Red, S, path.up, u);
      u := u.(color := Red);
      StepDown(S, path.up, u);
      ReadNode(S, RightPath(path.up, u), t);
      RightRotate(node.parent, S, path.up, u);
      ghost var q := path.up;
      if u.left.Node? {
        u := RotatedRight(u);
        StepDown(S, q, u);
        q := RightPath(q, u);
        u := u.right;
      }
      StepDown(S, q, u);
      ReadNode(S, RightPath(q, u), t);
      temp := node.parent.left;
    }

    /** A red sibling on the left (possibly the sentinel) is left behind. */
    method LeaveRedRight(node: TreeNode, ghost S: set<TreeNode>, ghost path: Path<TreeNode>, ghost t: Tree<TreeNode>)
      returns (temp: TreeNode)
      requires Holds(S, path, t) && t.Node? && t.item == node && path.RightOf?
      modifies this`root, S
      ensures var (p, n) := AwayFromRed(path, old(nil.color));
              Holds(S, p, t) && nil.color == n && temp == Top(Sibling(p), nil)
    {
      ReadNode(S, path, t);
      StepAcross(S, path, t);
      ghost var q, w := Across(path, t), path.left;
      ReadNode(S, q, w);
      temp := node.parent.left;
      if temp.color == Red {
        PaintTop(temp, Black, S, q, w);
        StepAcross(S, q, Painted(w, Black));
        temp := TurnRight(node, S, path.(left := Painted(w, Black)), t);
      }
    }

    /** The inner child of the left sibling, painted black, comes above it, painted red. */
    function RaisedRight(w: Tree<TreeNode>): Tree<TreeNode>
      requires w.Node?
    {
      var v := w.(right := Painted(w.right, Black), color := Red);
      if v.right.Leaf? then v else RotatedLeft(v)
    }

    method RaiseRight(x: TreeNode, ghost S: set<TreeNode>, ghost q: Path<TreeNode>, ghost w: Tree<TreeNode>)
      requires Holds(S, q, w) && w.Node? && x == w.item
      modifies this`root, S
      ensures Holds(S, q, RaisedRight(w)) && nil.color == if w.right.Leaf? then Black else old(nil.color)
    {
      ReadNode(S, q, w);
      PaintRight(x, Black, S, q, w);
      ghost var v := w.(right := Painted(w.right, Black));
      Paint(x, Red, S, q, v);
      LeftRotate(x, S, q, v.(color := Red));
    }

    lemma RaisedRightIsStraight(path: Path<TreeNode>, nilColor: Color)
      requires path.RightOf? && path.left.Node? && Seen(path.left.left, nilColor) == Black
      ensures Straightened(RaisedRight(path.left), path, nilColor)
    {
    }

    /** The outer child of the left sibling is seen black: its inner child is painted and rotated up. */
    method StraightenRight(node: TreeNode, temp0: TreeNode, ghost S: set<TreeNode>, ghost path: Path<TreeNode>,
                           ghost t: Tree<TreeNode>)
      returns (temp: TreeNode, ghost o: Tree<TreeNode>)
      requires Holds(S, path, t) && t.Node? && t.item == node && path.RightOf? && path.left.Node?
      requires temp0 == path.left.item && Seen(path.left.left, nil.color) == Black
      modifies this`root, S
      ensures Straightened(o, path, old(nil.color)) && Holds(S, path.(left := o), t)
      ensures temp == o.item && nil.color == if path.left.right.Leaf? then Black else old(nil.color)
    {
      ghost var w := path.left;
      RaisedRightIsStraight(path, nil.color);
      StepAcross(S, path, t);
      hide Straightened;
      RaiseRight(temp0, S, Across(path, t), w);
      o := RaisedRight(w);
      StepAcross(S, Across(path, t), o);
      ReadNode(S, path.(left := o), t);
      temp := node.parent.left;
    }

    /** The last rotation, which lifts the left sibling over the parent (unless it is the sentinel). */
    method FinishRight(node: TreeNode, temp: TreeNode, ghost S: set<TreeNode>, ghost path: Path<TreeNode>,
                       ghost t: Tree<TreeNode>)
      requires Holds(S, path, t) && t.Node? && t.item == node && path.RightOf? && temp == Top(path.left, nil)
      modifies this`root, S
      ensures Holds(S, path.up, if path.left.Leaf? then UpOne(path, Black, t, Leaf) else Lifted(path, t, path.left))
      ensures nil.color == if path.left.Leaf? || path.left.left.Leaf? then Black else old(nil.color)
    {
      ReadNode(S, path, t);
      StepAcross(S, path, t);
      ghost var q, w := Across(path, t), path.left;
      ReadNode(S, q, w);
      PaintTop(temp, node.parent.color, S, q, w);
      w := Painted(w, path.color);
      ReadNode(S, q, w);
      PaintLeft(temp, Black, S, q, w);
      if w.Node? {
        w := w.(left := Painted(w.left, Black));
      }
      StepAcross(S, q, w);
      ghost var p := path.(left := w);
      ReadNode(S, p, t);
      StepUp(S, p, t);
      ghost var u := UpOne(p, p.color, t, w);
      Paint(node.parent, Black, S, path.up, u);
      u := u.(color := Black);
      StepDown(S, path.up, u);
      ReadNode(S, RightPath(path.up, u), t);
      RightRotate(node.parent, S, path.up, u);
    }

    /** The loop body after the sibling's own redness is dealt with; node `t` is a right child. */
    method RebalanceRight(node: TreeNode, temp0: TreeNode, ghost S: set<TreeNode>, ghost path: Path<TreeNode>,
                          ghost t: Tree<TreeNode>)
      returns (next: TreeNode)
      requires Holds(S, path, t) && t.Node? && t.item == node && path.RightOf? && temp0 == Top(path.left, nil)
      modifies this`root, S
      ensures var (s, n) := Rebalance(path, t, old(nil.color));
              Holds(S, s.path, s.t) && nil.color == n && next == if s.GoOn? then s.t.item else root
    {
      var temp := temp0;
      StepAcross(S, path, t);
      ghost var q, w := Across(path, t), path.left;
      ReadChildren(S, q, w);
      ReadNode(S, q, w);
      if temp.right.color == Black && temp.left.color == Black {
        PaintTop(temp, Red, S, q, w);
        StepAcross(S, q, Painted(w, Red));
        ghost var p := path.(left := Painted(w, Red));
        ReadNode(S, p, t);
        StepUp(S, p, t);
        next := node.parent;
      } else {
        ghost var o := w;
        if temp.left.color == Black {
          temp, o := StraightenRight(node, temp, S, path, t);
        }
        FinishRight(node, temp, S, path.(left := o), t);
        next := root;
      }
    }

    /** The body of the loop in `delete_fixup`. */
    method StepDelete(node: TreeNode, ghost S: set<TreeNode>, ghost path: Path<TreeNode>, ghost t: Tree<TreeNode>)
      returns (next: TreeNode)
      requires Holds(S, path, t) && t.Node? && t.item == node && !path.Root?
      modifies this`root, S
      ensures var (s, n) := DeleteStep(path, t, old(nil.color));
              Holds(S, s.path, s.t) && nil.color == n && next == if s.GoOn? then s.t.item else root
    {
      ReadNode(S, path, t);
      ghost var (p, n) := AwayFromRed(path, nil.color);
      if node.parent.left == node {
        var temp := LeaveRedLeft(node, S, path, t);
        next := RebalanceLeft(node, temp, S, p, t);
      } else {
        var temp := LeaveRedRight(node, S, path, t);
        next := RebalanceRight(node, temp, S, p, t);
      }
    }

    /** `delete_fixup`: ends, whatever the colours, with the tree that `RedBlackModel.DeleteFixup` describes. */
    method FixDelete(start: TreeNode, ghost S: set<TreeNode>, ghost path0: Path<TreeNode>, ghost t0: Tree<TreeNode>)
      requires Holds(S, path0, t0) && t0.Node? && t0.item == start
      modifies this`root, S
      ensures Holds(S, Root, DeleteFixup(path0, t0, old(nil.color)))
    {
      var node := start;
      ghost var path, t, done := path0, t0, false;
      ghost var goal := DeleteFixup(path0, t0, nil.color);
      while node != root && node.color == Black
        invariant Holds(S, path, t) && t.Node?
        invariant !done ==> node == t.item && DeleteFixup(path, t, nil.color) == goal
        invariant done ==> node == root && goal == Blacken(Plug(path, t))
        decreases if done then 0 else 1 + DeleteMeasure(path, t)
      {
        ReadNode(S, path, t);
        DeleteStepDown(path, t, nil.color);
        ghost var (s, n) := DeleteStep(path, t, nil.color);
        node := StepDelete(node, S, path, t);
        path, t, done := s.path, s.t, s.Stop?;
      }
      ReadNode(S, path, t);
      RootOnPath(path, t.item);
      if done {
        HoldsPlug(S, path, t);
        path, t := Root, Plug(path, t);
      }
      Paint(node, Black, S, path, t);
      HoldsPlug(S, path, t.(color := Black));
    }

    lemma {:induction false} HoldsDescend(S: set<TreeNode>, path: Path<TreeNode>, t: Tree<TreeNode>, k: int)
      requires Holds(S, path, t)
      ensures var (p, s) := Descend(path, t, k); Holds(S, p, s)
      decreases t
    {
      if t.Node? && k != t.key {
        StepDown(S, path, t);
        if k < t.key {
          HoldsDescend(S, LeftPath(path, t), t.left, k);
        } else {
          HoldsDescend(S, RightPath(path, t), t.right, k);
        }
      }
    }

    /** A node of the tree is found at the position its key leads to. */
    lemma {:induction false} Locate(x: TreeNode)
      requires Valid() && x in Items(model)
      ensures var (p, s) := Descend(Root, model, x.key);
              s.Node? && s.item == x && s.key == x.key && Holds(Nodes(), p, s)
    {
      var s := Inorder(model);
      ItemsAreListed(model);
      var i :| 0 <= i < |s| && s[i].item == x;
      assert s[i] == Entry(x, s[i].key);
      ItemFields(Nodes(), Root, model, x, s[i].key);
      DescendFinds(model, x.key);
      HoldsDescend(Nodes(), Root, model, x.key);
      var found := Descend(Root, model, x.key).1;
      if found.Node? {
        var j :| 0 <= j < |s| && s[j] == Entry(found.item, x.key);
        assert s[i].key == s[j].key;
      }
    }

    /** The `for` loop of `RBTREE_Erase`: down to the least node of the right subtree. */
    method Successor(node: TreeNode, ghost S: set<TreeNode>, ghost path: Path<TreeNode>, ghost t: Tree<TreeNode>)
      returns (succ: TreeNode, ghost p: Path<TreeNode>, ghost y: Tree<TreeNode>)
      requires Holds(S, path, t) && t.Node? && t.item == node && t.right.Node?
      ensures (p, y) == Leftmost(RightPath(path, t), t.right) && Holds(S, p, y) && succ == y.item
    {
      ReadNode(S, path, t);
      StepDown(S, path, t);
      succ, p, y := node.right, RightPath(path, t), t.right;
      ReadNode(S, p, y);
      while succ.left != nil
        invariant Holds(S, p, y) && y.Node? && succ == y.item && succ.left == Top(y.left, nil)
        invariant y.left.Node? ==> y.left.item != nil
        invariant Leftmost(p, y) == Leftmost(RightPath(path, t), t.right)
        decreases y
      {
        StepDown(S, p, y);
        succ, p, y := succ.left, LeftPath(p, y), y.left;
        ReadNode(S, p, y);
      }
    }

    /** Takes a node with at most one child out of its place. */
    method SpliceOut(succ: TreeNode, ghost S: set<TreeNode>, ghost path: Path<TreeNode>, ghost y: Tree<TreeNode>)
      returns (child: TreeNode)
      requires Holds(S, path, y) && y.Node? && y.item == succ && (y.left.Leaf? || y.right.Leaf?)
      modifies this`root, S`left, S`right, S`parent
      ensures Holds(S, path, OnlyChild(y)) && child == Top(OnlyChild(y), nil)
    {
      ReadNode(S, path, y);
      ghost var m := Snap(S);
      SpliceZip(m, nil, path, y);
      child := if succ.left != nil then succ.left else succ.right;
      var parent := succ.parent;
      SetParentOf(child, parent, S);
      if parent != nil {
        ReplaceChild(parent, succ, child, S);
      } else {
        root := child;
      }
      RootOfSame(path, succ, child);
      assert m[nil].left == nil && m[nil].right == nil;
      assert Snap(S)[nil].left == nil && Snap(S)[nil].right == nil;
    }

    /** The assignments that give `succ` the fields of `node` and redirect its neighbours. */
    method TakeOverLinks(node: TreeNode, succ: TreeNode, ghost S: set<TreeNode>)
      requires node in S && succ in S && node.parent in S && node.left in S && node.right in S
      requires succ != node && node.parent != node
      modifies S`left, S`right, S`parent, succ`color
      ensures Snap(S) == TakenOver(old(Snap(S)), nil, node, succ)
    {
      ghost var m := Snap(S);
      succ.parent, succ.left, succ.right, succ.color := node.parent, node.left, node.right, node.color;
      assert Snap(S) == m[succ := m[node].(key := m[succ].key)];
      var parent, l, r := node.parent, node.left, node.right;
      if parent != nil {
        ReplaceChild(parent, node, succ, S);
      }
      assert node.left == l && node.right == r;
      if node.left != nil {
        SetParentOf(node.left, succ, S);
      }
      if node.right != nil {
        SetParentOf(node.right, succ, S);
      }
    }

    /** `succ`, already out of the tree, takes over the place and the colour of `node`. */
    method TakeOver(node: TreeNode, succ: TreeNode, ghost S: set<TreeNode>, ghost path: Path<TreeNode>,
                    ghost t: Tree<TreeNode>)
      requires Holds(S, path, t) && t.Node? && t.item == node
      requires succ in S && succ != nil && succ !in Items(t) && succ !in PathItems(path)
      modifies this`root, S`left, S`right, S`parent, succ`color
      ensures Holds(S, path, Node(t.color, t.left, succ, old(succ.key), t.right))
      ensures succ.color == t.color && nil.color == old(nil.color)
    {
      ReadNode(S, path, t);
      ghost var m := Snap(S);
      TakeOverZip(m, nil, path, t, succ);
      TakeOverLinks(node, succ, S);
      if root == node {
        root := succ;
      }
      RootOnPath(path, node);
      RootOfSame(path, node, succ);
      ghost var n := Node(t.color, t.left, succ, m[succ].key, t.right);
      TakenOverNil(m, path, t, succ);
      assert Snap(S)[nil].left == nil && Snap(S)[nil].right == nil;
      ReadNode(S, path, n);
    }

    lemma TakenOverNil(m: Links, path: Path<TreeNode>, t: Tree<TreeNode>, y: TreeNode)
      requires t.Node? && Zip(m, nil, path, t) && nil in m && y in m && y != nil
      requires t.item in m && m[t.item].parent in m && m[t.item].left in m && m[t.item].right in m
      ensures TakenOver(m, nil, t.item, y)[nil] == m[nil]
      ensures TakenOver(m, nil, t.item, y).Keys == m.Keys
    {
    }

    /** The position of the least node, with that node gone, is a position of what remains. */
    lemma {:induction false} ClimbLeast(S: set<TreeNode>, q: Path<TreeNode>, r: Tree<TreeNode>)
      requires r.Node?
      ensures var (p, y) := Leftmost(q, r); Holds(S, p, y.right) <==> Holds(S, q, WithoutLeast(r))
      decreases r
    {
      if r.left.Node? {
        ClimbLeast(S, LeftPath(q, r), r.left);
        StepUp(S, LeftPath(q, r), WithoutLeast(r.left));
      }
    }

    lemma {:induction false} LeastItem(q: Path<TreeNode>, r: Tree<TreeNode>)
      requires r.Node? && Distinct(r)
      ensures var y := Leftmost(q, r).1; y.item in Items(r) && y.item !in Items(WithoutLeast(r))
      ensures Items(WithoutLeast(r)) <= Items(r)
      decreases r
    {
      if r.left.Node? {
        LeastItem(LeftPath(q, r), r.left);
      }
    }

    /** The two-children case: the successor is spliced out and takes over the place of `node`. */
    method MoveSuccessor(node: TreeNode, ghost S: set<TreeNode>, ghost path: Path<TreeNode>, ghost t: Tree<TreeNode>)
      returns (succ: TreeNode, child: TreeNode)
      requires Holds(S, path, t) && t.Node? && t.item == node && t.left.Node? && t.right.Node?
      modifies this`root, S
      ensures var y := Leftmost(Root, t.right).1;
              var p := Leftmost(RightOf(t.left, t.color, y.item, y.key, path), t.right).0;
              && Holds(S, p, y.right) && child == Top(y.right, nil)
              && succ in S && succ.color == t.color && nil.color == old(nil.color)
    {
      ghost var rest := WithoutLeast(t.right);
      ghost var y;
      succ, child, y := DetachSuccessor(node, S, path, t);
      TakeOver(node, succ, S, path, t.(right := rest));
      ghost var n := Node(t.color, t.left, succ, y.key, rest);
      StepDown(S, path, n);
      ghost var q := RightOf(t.left, t.color, succ, y.key, path);
      LeftmostSame(Root, q, t.right);
      ClimbLeast(S, q, t.right);
    }

    /** The successor is found and spliced out. */
    method DetachSuccessor(node: TreeNode, ghost S: set<TreeNode>, ghost path: Path<TreeNode>, ghost t: Tree<TreeNode>)
      returns (succ: TreeNode, child: TreeNode, ghost y: Tree<TreeNode>)
      requires Holds(S, path, t) && t.Node? && t.item == node && t.right.Node?
      modifies this`root, S`left, S`right, S`parent
      ensures y == Leftmost(Root, t.right).1 && succ == y.item && child == Top(y.right, nil)
      ensures Holds(S, path, t.(right := WithoutLeast(t.right)))
      ensures succ in S && succ != nil && succ.key == y.key
      ensures succ !in Items(t.(right := WithoutLeast(t.right))) && succ !in PathItems(path)
    {
      ghost var q := RightPath(path, t);
      LeastItem(q, t.right);
      ghost var p;
      succ, p, y := Successor(node, S, path, t);
      LeftmostSame(Root, q, t.right);
      ReadNode(S, p, y);
      child := SpliceOut(succ, S, p, y);
      ClimbLeast(S, q, t.right);
      StepUp(S, q, WithoutLeast(t.right));
    }

    /** The end of `RBTREE_Erase`: the colour test, the fix-up, and the sentinel black again. */
    method FinishErase(succ: TreeNode, child: TreeNode, ghost S: set<TreeNode>, ghost p: Path<TreeNode>,
                       ghost c: Tree<TreeNode>)
      requires Holds(S, p, c) && child == Top(c, nil) && nil.color == Black
      modifies this`root, S
      ensures Holds(S, Root, Splice(p, old(succ.color), c)) && nil.color == Black
    {
      ReadNode(S, p, c);
      if succ.color == Black {
        if child != nil {
          FixDelete(child, S, p, c);
        } else {
          HoldsPlug(S, p, c);
        }
        ghost var m := Snap(S);
        ghost var t := Splice(p, Black, c);
        nil.color := Black;
        ZipFrame(m, Snap(S), nil, Root, t);
      } else {
        HoldsPlug(S, p, c);
      }
    }

    method EraseNode(node: TreeNode, ghost S: set<TreeNode>, ghost path: Path<TreeNode>, ghost t: Tree<TreeNode>)
      requires Holds(S, path, t) && t.Node? && t.item == node && nil.color == Black
      modifies this`root, S
      ensures Holds(S, Root, EraseAt(path, t)) && nil.color == Black
    {
      ReadNode(S, path, t);
      if node.left == nil || node.right == nil {
        var child := SpliceOut(node, S, path, t);
        FinishErase(node, child, S, path, OnlyChild(t));
      } else {
        var succ, child := MoveSuccessor(node, S, path, t);
        ghost var y := Leftmost(Root, t.right).1;
        FinishErase(succ, child, S, Leftmost(RightOf(t.left, t.color, y.item, y.key, path), t.right).0, y.right);
      }
    }

    /** `RBTREE_Erase`. */
    method Erase(node: TreeNode) returns (r: TreeNode)
      requires Valid() && node in Items(model)
      modifies this, Nodes()
      ensures Valid() && r == node
      ensures Nodes() == old(Nodes()) - {node}
      ensures var (p, t) := Descend(Root, old(model), old(node.key));
              t.Node? && t.item == node && model == EraseAt(p, t)
    {
      ghost var S, before := Nodes(), model;
      Locate(node);
      ghost var (p, t) := Descend(Root, before, node.key);
      EraseFacts(before, node, node.key);
      EraseNode(node, S, p, t);
      model := EraseAt(p, t);
      Shrink(S, Nodes(), model);
      size := size - 1;
      r := node;
    }

    /** Nodes outside the tree do not matter. */
    lemma Shrink(S: set<TreeNode>, T: set<TreeNode>, t: Tree<TreeNode>)
      requires Holds(S, Root, t) && T <= S && T == Items(t) + {nil}
      ensures Holds(T, Root, t)
    {
      ZipFrame(Snap(S), Snap(T), nil, Root, t);
    }

    lemma EraseFacts(before: Tree<TreeNode>, x: TreeNode, k: int)
      requires ColorOf(before) == Black && Sorted(Inorder(before))
      requires var t := Descend(Root, before, k).1; t.Node? && t.item == x && Distinct(before)
      ensures var (p, t) := Descend(Root, before, k);
              var n := EraseAt(p, t);
              && ColorOf(n) == Black && Sorted(Inorder(n)) && |Inorder(n)| == |Inorder(before)| - 1
              && Items(n) == Items(before) - {x}
    {
      var (p, t) := Descend(Root, before, k);
      var i := EraseTakesOut(p, t);
      PlugRoot(p, t);
      EraseBlackRoot(p, t);
      ErasedItems(before, EraseAt(p, t), i);
    }

    // ------------------------------------------------------------ looking around

    /** `RBTREE_First`: the node listed first, or null. */
    method First() returns (r: TreeNode?)
      requires Valid()
      ensures r == if Inorder(model) == [] then null else Inorder(model)[0].item
    {
      var node := root;
      ghost var path, t := Root, model;
      ReadNode(Nodes(), path, t);
      while node.left != nil
        invariant Valid() && Holds(Nodes(), path, t) && node == Top(t, nil)
        invariant (path.Root? || t.Node?) && Before(path) == [] && Inorder(model) == Around(path, t)
        decreases t
      {
        ReadNode(Nodes(), path, t);
        StepDown(Nodes(), path, t);
        BeforeAfterParts(LeftPath(path, t));
        node, path, t := node.left, LeftPath(path, t), t.left;
      }
      ReadNode(Nodes(), path, t);
      AroundParts(path, t);
      if t.Node? {
        InorderParts(t);
      }
      return if node != nil then node else null;
    }

    /** Up past every node of which this is the right subtree. */
    method ClimbRight(start: TreeNode, ghost path0: Path<TreeNode>, ghost t0: Tree<TreeNode>) returns (temp: TreeNode)
      requires Valid() && Holds(Nodes(), path0, t0) && t0.Node? && start == t0.item
      ensures if After(path0) == [] then temp == nil else temp == After(path0)[0].item && temp != nil
    {
      var node := start;
      ghost var path, t := path0, t0;
      ReadNode(Nodes(), path, t);
      temp := node.parent;
      while temp != nil && temp.right == node
        invariant Valid() && Holds(Nodes(), path, t) && t.Node? && node == t.item && temp == Hole(path, nil)
        invariant After(path) == After(path0)
        decreases PathLength(path)
      {
        ReadNode(Nodes(), path, t);
        StepUp(Nodes(), path, t);
        ReadNode(Nodes(), path.up, UpOne(path, path.color, t, Sibling(path)));
        t := UpOne(path, path.color, t, Sibling(path));
        path := path.up;
        node := temp;
        temp := temp.parent;
      }
      ReadNode(Nodes(), path, t);
    }

    /** `RBTREE_Next`: the node listed after `node`, or null after the last one. */
    method Next(node: TreeNode) returns (r: TreeNode?)
      requires Valid() && node in Items(model)
      ensures forall i :: 0 <= i < |Inorder(model)| && Inorder(model)[i].item == node ==>
                r == if i + 1 < |Inorder(model)| then Inorder(model)[i + 1].item else null
    {
      Locate(node);
      ghost var (p, t) := Descend(Root, model, node.key);
      ReadNode(Nodes(), p, t);
      PlugInorder(p, t);
      NextEntry(p, t);
      var next: TreeNode;
      if node.right != nil {
        next := node.right;
        StepDown(Nodes(), p, t);
        ghost var q, s := RightPath(p, t), t.right;
        ReadNode(Nodes(), q, s);
        while next.left != nil
          invariant Valid() && Holds(Nodes(), q, s) && s.Node? && next == s.item
          invariant Listing(s, After(q)) == Listing(t.right, After(p))
          decreases s
        {
          ReadNode(Nodes(), q, s);
          StepDown(Nodes(), q, s);
          next, q, s := next.left, LeftPath(q, s), s.left;
        }
        ReadNode(Nodes(), q, s);
        assert Listing(t.right, After(p))[0].item == next;
      } else {
        next := ClimbRight(node, p, t);
      }
      return if next != nil then next else null;
    }

    lemma NextEntry(p: Path<TreeNode>, t: Tree<TreeNode>)
      requires t.Node? && Inorder(model) == Around(p, t) && Distinct(model)
      ensures var rest := Listing(t.right, After(p));
              forall i :: 0 <= i < |Inorder(model)| && Inorder(model)[i].item == t.item ==>
                Inorder(model)[i + 1..] == rest
    {
      var rest := Listing(t.right, After(p));
      var a := Before(p) + Inorder(t.left);
      AroundSplit(p, t);
      ListedOnce(model);
      assert Inorder(model)[|a|].item == t.item;
      assert (a + [Entry(t.item, t.key)] + rest)[|a| + 1..] == rest;
    }

    lemma AroundSplit(p: Path<TreeNode>, t: Tree<TreeNode>)
      requires t.Node?
      ensures Around(p, t)
           == (Before(p) + Inorder(t.left)) + [Entry(t.item, t.key)] + Listing(t.right, After(p))
    {
      AroundParts(p, t);
      InorderParts(t);
      ListingAppend(t.right, [], After(p));
      assert [] + After(p) == After(p);
      var b, l, e, r, a := Before(p), Inorder(t.left), [Entry(t.item, t.key)], Inorder(t.right), After(p);
      assert b + (l + e + r) + a == (b + l) + e + (r + a);
    }

    /** `RBTREE_Find`. */
    method Find(k: int) returns (r: TreeNode?)
      requires Valid()
      ensures r == null <==> !HasKey(Inorder(model), k)
      ensures r != null ==> var x: TreeNode := r; Entry(x, k) in Inorder(model)
    {
      var node, parent, rv, path, t := Search(k);
      DescendFinds(model, k);
      ReadNode(Nodes(), path, t);
      return if node != nil then node else null;
    }

    /** `RBTREE_HeightMax` below a node of the tree. */
    method HeightMaxBelow(node: TreeNode, ghost S: set<TreeNode>, ghost path: Path<TreeNode>, ghost t: Tree<TreeNode>)
      returns (h: nat)
      requires Holds(S, path, t) && node == Top(t, nil)
      ensures Holds(S, path, t) && h + 1 == if t.Leaf? then 1 else Height(t)
      decreases t
    {
      ReadNode(S, path, t);
      var l, r := 0, 0;
      if node.left != nil {
        StepDown(S, path, t);
        l := HeightMaxBelow(node.left, S, LeftPath(path, t), t.left);
        StepUp(S, LeftPath(path, t), t.left);
        l := l + 1;
      }
      if node.right != nil {
        StepDown(S, path, t);
        r := HeightMaxBelow(node.right, S, RightPath(path, t), t.right);
        StepUp(S, RightPath(path, t), t.right);
        r := r + 1;
      }
      h := if l > r then l else r;
    }

    /** `RBTREE_HeightMax` of the whole tree: logarithmic as long as the tree is red-black. */
    method HeightMax() returns (h: nat)
      requires Valid()
      ensures size > 0 ==> h + 1 == Height(model)
      ensures size > 0 && RedBlack(model) ==> size + 1 >= Power2((h + 2) / 2)
    {
      h := HeightMaxBelow(root, Nodes(), Root, model);
      if RedBlack(model) {
        HeightIsLogarithmic(model);
      }
    }
  }
}
