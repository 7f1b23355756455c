/**
  How the linked nodes of oslib/src/rbtree.c represent a tree value.

  `Links` is a snapshot of the fields of a set of nodes.  `Zip` says that a snapshot holds the
  tree that has `t` at the end of `path`: every child and parent pointer, colour and key agrees,
  no node occurs twice, and the shared sentinel `nil` stands for every missing child and for the
  parent of the root.  The lemmas follow single assignments and rotations from snapshot to snapshot.
 */
module RedBlackLinks {
  import opened RedBlackModel

  class TreeNode {
    var parent: TreeNode
    var left: TreeNode
    var right: TreeNode
    var key: int
    var color: Color

    constructor (k: int)
      ensures key == k
    {
      parent, left, right, key, color := this, this, this, k, Black;
    }
  }

  datatype Fields = Fields(parent: TreeNode, left: TreeNode, right: TreeNode, key: int, color: Color)

  type Links = map<TreeNode, Fields>

  ghost function Snap(S: set<TreeNode>): Links
    reads S
  {
    map n | n in S :: Fields(n.parent, n.left, n.right, n.key, n.color)
  }

  method SetLeft(x: TreeNode, v: TreeNode, ghost S: set<TreeNode>)
    requires x in S
    modifies x`left
    ensures x.left == v && Snap(S) == old(Snap(S))[x := old(Snap(S)[x]).(left := v)]
  {
    x.left := v;
  }

  method SetRight(x: TreeNode, v: TreeNode, ghost S: set<TreeNode>)
    requires x in S
    modifies x`right
    ensures x.right == v && Snap(S) == old(Snap(S))[x := old(Snap(S)[x]).(right := v)]
  {
    x.right := v;
  }

  method SetParentOf(x: TreeNode, v: TreeNode, ghost S: set<TreeNode>)
    requires x in S
    modifies x`parent
    ensures x.parent == v && Snap(S) == old(Snap(S))[x := old(Snap(S)[x]).(parent := v)]
  {
    x.parent := v;
  }

  method SetColor(x: TreeNode, c: Color, ghost S: set<TreeNode>)
    requires x in S
    modifies x`color
    ensures x.color == c && Snap(S) == old(Snap(S))[x := old(Snap(S)[x]).(color := c)]
  {
    x.color := c;
  }

  function Top(t: Tree<TreeNode>, nil: TreeNode): TreeNode {
    if t.Leaf? then nil else t.item
  }

  function Hole(path: Path<TreeNode>, nil: TreeNode): TreeNode {
    if path.Root? then nil else path.item
  }

  /** The root of the whole tree. */
  function RootOf(path: Path<TreeNode>, top: TreeNode): TreeNode
  {
    if path.Root? then top else RootOf(path.up, path.item)
  }

  function Items(t: Tree<TreeNode>): set<TreeNode> {
    if t.Leaf? then {} else Items(t.left) + {t.item} + Items(t.right)
  }

  function PathItems(path: Path<TreeNode>): set<TreeNode> {
    if path.Root? then {} else Items(Sibling(path)) + {path.item} + PathItems(path.up)
  }

  ghost predicate Distinct(t: Tree<TreeNode>) {
    t.Node? ==> Distinct(t.left) && Distinct(t.right)
                && t.item !in Items(t.left) && t.item !in Items(t.right) && Items(t.left) !! Items(t.right)
  }

  ghost predicate PathDistinct(path: Path<TreeNode>) {
    !path.Root? ==> Distinct(Sibling(path)) && PathDistinct(path.up)
                    && path.item !in Items(Sibling(path)) && path.item !in PathItems(path.up)
                    && Items(Sibling(path)) !! PathItems(path.up)
  }

  ghost predicate Shape(m: Links, nil: TreeNode, t: Tree<TreeNode>, parent: TreeNode) {
    t.Node? ==> t.item in m
                && m[t.item] == Fields(parent, Top(t.left, nil), Top(t.right, nil), t.key, t.color)
                && Shape(m, nil, t.left, t.item) && Shape(m, nil, t.right, t.item)
  }

  ghost predicate PathShape(m: Links, nil: TreeNode, path: Path<TreeNode>, child: TreeNode) {
    match path
    case Root => true
    case LeftOf(up, c, x, k, r) =>
      && x in m && m[x] == Fields(Hole(up, nil), child, Top(r, nil), k, c)
      && Shape(m, nil, r, x) && PathShape(m, nil, up, x)
    case RightOf(l, c, x, k, up) =>
      && x in m && m[x] == Fields(Hole(up, nil), Top(l, nil), child, k, c)
      && Shape(m, nil, l, x) && PathShape(m, nil, up, x)
  }

  ghost predicate Apart(nil: TreeNode, path: Path<TreeNode>, t: Tree<TreeNode>) {
    && Distinct(t) && PathDistinct(path) && Items(t) !! PathItems(path)
    && nil !in Items(t) && nil !in PathItems(path)
  }

  ghost predicate Zip(m: Links, nil: TreeNode, path: Path<TreeNode>, t: Tree<TreeNode>) {
    && Apart(nil, path, t)
    && Shape(m, nil, t, Hole(path, nil)) && PathShape(m, nil, path, Top(t, nil))
  }

  /** Taking the position one step up changes nothing. */
  lemma {:induction false} ZipUp(m: Links, nil: TreeNode, path: Path<TreeNode>, t: Tree<TreeNode>)
    requires !path.Root?
    ensures Zip(m, nil, path, t) <==> Zip(m, nil, path.up, UpOne(path, path.color, t, Sibling(path)))
    ensures Items(UpOne(path, path.color, t, Sibling(path))) + PathItems(path.up) == Items(t) + PathItems(path)
  {
    var u := UpOne(path, path.color, t, Sibling(path));
    assert Items(u) == Items(t) + {path.item} + Items(Sibling(path));
  }

  lemma {:induction false} ShapeFrame(m: Links, m': Links, nil: TreeNode, t: Tree<TreeNode>, p: TreeNode)
    requires Shape(m, nil, t, p)
    requires forall n :: n in Items(t) && n in m ==> n in m' && m'[n] == m[n]
    ensures Shape(m', nil, t, p)
  {
    if t.Node? {
      ShapeFrame(m, m', nil, t.left, t.item);
      ShapeFrame(m, m', nil, t.right, t.item);
    }
  }

  lemma {:induction false} PathFrame(m: Links, m': Links, nil: TreeNode, path: Path<TreeNode>, c: TreeNode)
    requires PathShape(m, nil, path, c)
    requires forall n :: n in PathItems(path) && n in m ==> n in m' && m'[n] == m[n]
    ensures PathShape(m', nil, path, c)
  {
    if !path.Root? {
      ShapeFrame(m, m', nil, Sibling(path), path.item);
      PathFrame(m, m', nil, path.up, path.item);
    }
  }

  lemma {:induction false} ZipFrame(m: Links, m': Links, nil: TreeNode, path: Path<TreeNode>, t: Tree<TreeNode>)
    requires Zip(m, nil, path, t)
    requires forall n :: n in Items(t) + PathItems(path) && n in m ==> n in m' && m'[n] == m[n]
    ensures Zip(m', nil, path, t)
  {
    ShapeFrame(m, m', nil, t, Hole(path, nil));
    PathFrame(m, m', nil, path, Top(t, nil));
  }

  function Paint(m: Links, n: TreeNode, c: Color): Links
    requires n in m
  {
    m[n := m[n].(color := c)]
  }

  lemma {:induction false} PaintZip(m: Links, nil: TreeNode, path: Path<TreeNode>, t: Tree<TreeNode>, c: Color)
    requires t.Node? && Zip(m, nil, path, t)
    ensures t.item in m && Zip(Paint(m, t.item, c), nil, path, t.(color := c))
  {
    var m' := Paint(m, t.item, c);
    ShapeFrame(m, m', nil, t.left, t.item);
    ShapeFrame(m, m', nil, t.right, t.item);
    PathFrame(m, m', nil, path, t.item);
    assert Items(t.(color := c)) == Items(t);
  }

  /** Giving a subtree another parent touches its root only. */
  lemma {:induction false} Reparent(m: Links, nil: TreeNode, t: Tree<TreeNode>, p: TreeNode, q: TreeNode)
    requires t.Node? && Shape(m, nil, t, p) && Distinct(t)
    ensures Shape(m[t.item := m[t.item].(parent := q)], nil, t, q)
  {
    var m' := m[t.item := m[t.item].(parent := q)];
    ShapeFrame(m, m', nil, t.left, t.item);
    ShapeFrame(m, m', nil, t.right, t.item);
  }

  function SetParent(m: Links, n: TreeNode, p: TreeNode): Links
    requires n in m
  {
    m[n := m[n].(parent := p)]
  }

  /** The assignment to the parent's left or right field that replaces child `x` by `y`. */
  function Redirect(m: Links, p: TreeNode, x: TreeNode, y: TreeNode): Links
    requires p in m
  {
    if m[p].left == x then m[p := m[p].(left := y)] else m[p := m[p].(right := y)]
  }

  /** With another node on top, the rest of the tree changes in one field. */
  lemma {:induction false} RedirectPath(m: Links, nil: TreeNode, path: Path<TreeNode>, x: TreeNode, y: TreeNode)
    requires !path.Root? && PathShape(m, nil, path, x) && PathDistinct(path)
    requires x !in PathItems(path) && x != nil && nil !in PathItems(path)
    ensures PathShape(Redirect(m, path.item, x, y), nil, path, y)
    ensures forall n :: n in m && n != path.item ==> Redirect(m, path.item, x, y)[n] == m[n]
  {
    var m' := Redirect(m, path.item, x, y);
    ShapeFrame(m, m', nil, Sibling(path), path.item);
    PathFrame(m, m', nil, path.up, path.item);
    assert Sibling(path).Node? ==> Sibling(path).item in PathItems(path);
  }

  /** The inner grandchild `b` goes over to `x`, whose fields become `f`. */
  function MovedInner(m: Links, nil: TreeNode, x: TreeNode, b: TreeNode, f: Fields): Links
    requires b in m
  {
    var m1 := m[x := f];
    if b != nil then m1[b := m1[b].(parent := x)] else m1
  }

  /** `y` takes the place of `x` below the parent of `x`. */
  function Relinked(m: Links, nil: TreeNode, x: TreeNode, y: TreeNode): Links
    requires x in m && y in m && m[x].parent in m
  {
    var p := m[x].parent;
    var m1 := m[y := m[y].(parent := p)];
    if p != nil then Redirect(m1, p, x, y) else m1
  }

  /** `left_rotate` on a snapshot, one field at a time. */
  function LeftRotated(m: Links, nil: TreeNode, x: TreeNode): Links
    requires x in m && m[x].right in m && m[m[x].right].left in m && m[x].parent in m
  {
    var y := m[x].right;
    if y == nil then m else
    var b := m[y].left;
    var m1 := MovedInner(m, nil, x, b, m[x].(right := b));
    var m2 := Relinked(m1, nil, x, y);
    var m3 := m2[y := m2[y].(left := x)];
    m3[x := m3[x].(parent := y)]
  }

  /** `right_rotate` on a snapshot. */
  function RightRotated(m: Links, nil: TreeNode, x: TreeNode): Links
    requires x in m && m[x].left in m && m[m[x].left].right in m && m[x].parent in m
  {
    var y := m[x].left;
    if y == nil then m else
    var b := m[y].right;
    var m1 := MovedInner(m, nil, x, b, m[x].(left := b));
    var m2 := Relinked(m1, nil, x, y);
    var m3 := m2[y := m2[y].(right := x)];
    m3[x := m3[x].(parent := y)]
  }

  ghost predicate LeftHeavy(t: Tree<TreeNode>) {
    t.Node? && t.left.Node?
  }

  ghost predicate RightHeavy(t: Tree<TreeNode>) {
    t.Node? && t.right.Node?
  }

  function RotatedLeft(t: Tree<TreeNode>): Tree<TreeNode>
    requires RightHeavy(t)
  {
    var y := t.right;
    Node(y.color, Node(t.color, t.left, t.item, t.key, y.left), y.item, y.key, y.right)
  }

  function RotatedRight(t: Tree<TreeNode>): Tree<TreeNode>
    requires LeftHeavy(t)
  {
    var y := t.left;
    Node(y.color, y.left, y.item, y.key, Node(t.color, y.right, t.item, t.key, t.right))
  }

  lemma {:induction false} ZipMembers(m: Links, nil: TreeNode, path: Path<TreeNode>, t: Tree<TreeNode>)
    requires Zip(m, nil, path, t)
    ensures Items(t) <= m.Keys && PathItems(path) <= m.Keys
  {
    ShapeMembers(m, nil, t, Hole(path, nil));
    PathMembers(m, nil, path, Top(t, nil));
  }

  lemma {:induction false} ShapeMembers(m: Links, nil: TreeNode, t: Tree<TreeNode>, p: TreeNode)
    requires Shape(m, nil, t, p)
    ensures Items(t) <= m.Keys
  {
    if t.Node? {
      ShapeMembers(m, nil, t.left, t.item);
      ShapeMembers(m, nil, t.right, t.item);
    }
  }

  lemma {:induction false} PathMembers(m: Links, nil: TreeNode, path: Path<TreeNode>, c: TreeNode)
    requires PathShape(m, nil, path, c)
    ensures PathItems(path) <= m.Keys
  {
    if !path.Root? {
      ShapeMembers(m, nil, Sibling(path), path.item);
      PathMembers(m, nil, path.up, path.item);
    }
  }

  lemma LeftRotatedFields(m: Links, nil: TreeNode, x: TreeNode)
    requires x in m && m[x].right in m && m[m[x].right].left in m && m[x].parent in m
    requires var y, p := m[x].right, m[x].parent;
             var b := m[y].left;
             x != y && y != nil && p != x && p != y && b != x && b != y && (b != nil ==> b != p)
    ensures var y, p := m[x].right, m[x].parent;
            var b := m[y].left;
            var m' := LeftRotated(m, nil, x);
            && m'.Keys == m.Keys
            && m'[x] == m[x].(right := b, parent := y)
            && m'[y] == m[y].(parent := p, left := x)
            && (b != nil ==> m'[b] == m[b].(parent := x))
            && (p != nil ==> m'[p] == Redirect(m, p, x, y)[p])
            && (forall n | n in m && n != x && n != y && (n != b || b == nil) && (n != p || p == nil) ::
                  m'[n] == m[n])
  {
  }

  lemma {:induction false} LeftRotateShape(m: Links, m': Links, nil: TreeNode, t: Tree<TreeNode>, p: TreeNode)
    requires RightHeavy(t) && Distinct(t) && Shape(m, nil, t, p) && nil !in Items(t) && p !in Items(t)
    requires t.item in m && t.right.item in m
    requires var x, y := t.item, t.right.item;
             var b := Top(t.right.left, nil);
             && m'.Keys == m.Keys
             && m'[x] == m[x].(right := b, parent := y)
             && m'[y] == m[y].(parent := p, left := x)
             && (b != nil ==> b in m && m'[b] == m[b].(parent := x))
             && (forall n :: n in m && n in Items(t) && n != x && n != y && n != b ==> m'[n] == m[n])
    ensures Shape(m', nil, RotatedLeft(t), p)
  {
    var x, y := t.item, t.right.item;
    var a, b, d := t.left, t.right.left, t.right.right;
    assert Distinct(t.right) && Shape(m, nil, t.right, x);
    assert Distinct(b) && Shape(m, nil, b, y);
    assert Items(t.right) == Items(b) + {y} + Items(d);
    assert b.Node? ==> Items(b) == Items(b.left) + {b.item} + Items(b.right);
    ShapeFrame(m, m', nil, a, x);
    ShapeFrame(m, m', nil, d, y);
    if b.Node? {
      ShapeFrame(m, m', nil, b.left, b.item);
      ShapeFrame(m, m', nil, b.right, b.item);
    }
    assert Shape(m', nil, b, x);
  }

  lemma LeftRotateDistinct(t: Tree<TreeNode>)
    requires RightHeavy(t) && Distinct(t)
    ensures Distinct(RotatedLeft(t)) && Items(RotatedLeft(t)) == Items(t)
  {
    var r := RotatedLeft(t);
    assert Items(t.right) == Items(t.right.left) + {t.right.item} + Items(t.right.right);
    assert Items(r.left) == Items(t.left) + {t.item} + Items(t.right.left);
  }

  /** A rotation turns the subtree at the position and leaves the rest of the tree alone. */
  lemma {:induction false} LeftRotateZip(m: Links, nil: TreeNode, path: Path<TreeNode>, t: Tree<TreeNode>)
    requires RightHeavy(t) && Zip(m, nil, path, t) && nil in m
    ensures t.item in m && m[t.item].right == t.right.item && m[t.item].parent == Hole(path, nil)
    ensures t.right.item in m && m[t.right.item].left == Top(t.right.left, nil)
    ensures Top(t.right.left, nil) in m && Hole(path, nil) in m
    ensures Zip(LeftRotated(m, nil, t.item), nil, path, RotatedLeft(t))
    ensures Items(RotatedLeft(t)) == Items(t) && LeftRotated(m, nil, t.item).Keys == m.Keys
    ensures forall n :: n in m && n !in Items(t) && (path.Root? || n != path.item) ==>
              LeftRotated(m, nil, t.item)[n] == m[n]
  {
    ZipMembers(m, nil, path, t);
    var x, y := t.item, t.right.item;
    var b := t.right.left;
    assert Shape(m, nil, t.right, x);
    assert Items(t.right) == Items(b) + {y} + Items(t.right.right);
    assert b.Node? ==> b.item in Items(b);
    assert Distinct(t.right) && y !in Items(b);
    LeftRotatedFields(m, nil, x);
    var m' := LeftRotated(m, nil, x);
    LeftRotateDistinct(t);
    LeftRotateShape(m, m', nil, t, Hole(path, nil));
    if !path.Root? {
      RedirectPath(m, nil, path, x, y);
      PathFrame(Redirect(m, path.item, x, y), m', nil, path, y);
    }
  }

  lemma RightRotatedFields(m: Links, nil: TreeNode, x: TreeNode)
    requires x in m && m[x].left in m && m[m[x].left].right in m && m[x].parent in m
    requires var y, p := m[x].left, m[x].parent;
             var b := m[y].right;
             x != y && y != nil && p != x && p != y && b != x && b != y && (b != nil ==> b != p)
    ensures var y, p := m[x].left, m[x].parent;
            var b := m[y].right;
            var m' := RightRotated(m, nil, x);
            && m'.Keys == m.Keys
            && m'[x] == m[x].(left := b, parent := y)
            && m'[y] == m[y].(parent := p, right := x)
            && (b != nil ==> m'[b] == m[b].(parent := x))
            && (p != nil ==> m'[p] == Redirect(m, p, x, y)[p])
            && (forall n | n in m && n != x && n != y && (n != b || b == nil) && (n != p || p == nil) ::
                  m'[n] == m[n])
  {
  }

  lemma {:induction false} RightRotateShape(m: Links, m': Links, nil: TreeNode, t: Tree<TreeNode>, p: TreeNode)
    requires LeftHeavy(t) && Distinct(t) && Shape(m, nil, t, p) && nil !in Items(t) && p !in Items(t)
    requires t.item in m && t.left.item in m
    requires var x, y := t.item, t.left.item;
             var b := Top(t.left.right, nil);
             && m'.Keys == m.Keys
             && m'[x] == m[x].(left := b, parent := y)
             && m'[y] == m[y].(parent := p, right := x)
             && (b != nil ==> b in m && m'[b] == m[b].(parent := x))
             && (forall n :: n in m && n in Items(t) && n != x && n != y && n != b ==> m'[n] == m[n])
    ensures Shape(m', nil, RotatedRight(t), p)
  {
    var x, y := t.item, t.left.item;
    var a, b, d := t.right, t.left.right, t.left.left;
    assert Distinct(t.left) && Shape(m, nil, t.left, x);
    assert Distinct(b) && Shape(m, nil, b, y);
    assert Items(t.left) == Items(b) + {y} + Items(d);
    assert b.Node? ==> Items(b) == Items(b.left) + {b.item} + Items(b.right);
    ShapeFrame(m, m', nil, a, x);
    ShapeFrame(m, m', nil, d, y);
    if b.Node? {
      ShapeFrame(m, m', nil, b.left, b.item);
      ShapeFrame(m, m', nil, b.right, b.item);
    }
    assert Shape(m', nil, b, x);
  }

  lemma RightRotateDistinct(t: Tree<TreeNode>)
    requires LeftHeavy(t) && Distinct(t)
    ensures Distinct(RotatedRight(t)) && Items(RotatedRight(t)) == Items(t)
  {
    var r := RotatedRight(t);
    assert Items(t.left) == Items(t.left.right) + {t.left.item} + Items(t.left.left);
    assert Items(r.right) == Items(t.right) + {t.item} + Items(t.left.right);
  }

  /** The same to the right. */
  lemma {:induction false} RightRotateZip(m: Links, nil: TreeNode, path: Path<TreeNode>, t: Tree<TreeNode>)
    requires LeftHeavy(t) && Zip(m, nil, path, t) && nil in m
    ensures t.item in m && m[t.item].left == t.left.item && m[t.item].parent == Hole(path, nil)
    ensures t.left.item in m && m[t.left.item].right == Top(t.left.right, nil)
    ensures Top(t.left.right, nil) in m && Hole(path, nil) in m
    ensures Zip(RightRotated(m, nil, t.item), nil, path, RotatedRight(t))
    ensures Items(RotatedRight(t)) == Items(t) && RightRotated(m, nil, t.item).Keys == m.Keys
    ensures forall n :: n in m && n !in Items(t) && (path.Root? || n != path.item) ==>
              RightRotated(m, nil, t.item)[n] == m[n]
  {
    ZipMembers(m, nil, path, t);
    var x, y := t.item, t.left.item;
    var b := t.left.right;
    assert Shape(m, nil, t.left, x);
    assert Items(t.left) == Items(b) + {y} + Items(t.left.left);
    assert b.Node? ==> b.item in Items(b);
    assert Distinct(t.left) && y !in Items(b);
    RightRotatedFields(m, nil, x);
    var m' := RightRotated(m, nil, x);
    RightRotateDistinct(t);
    RightRotateShape(m, m', nil, t, Hole(path, nil));
    if !path.Root? {
      RedirectPath(m, nil, path, x, y);
      PathFrame(Redirect(m, path.item, x, y), m', nil, path, y);
    }
  }

  /** Puts child `y` where child `x` was. */
  method ReplaceChild(p: TreeNode, x: TreeNode, y: TreeNode, ghost S: set<TreeNode>)
    requires p in S
    modifies p`left, p`right
    ensures Snap(S) == Redirect(old(Snap(S)), p, x, y)
  {
    if p.left == x {
      SetLeft(p, y, S);
    } else {
      SetRight(p, y, S);
    }
  }

  /** A new leaf at a free position; `f` are the fields of the new node. */
  lemma {:induction false} AttachZip(m: Links, m': Links, nil: TreeNode, path: Path<TreeNode>, x: TreeNode, k: int,
                                     c: Color)
    requires Zip(m, nil, path, Leaf) && x != nil && x !in PathItems(path)
    requires x in m' && m'[x] == Fields(Hole(path, nil), nil, nil, k, c)
    requires !path.Root? ==>
               (path.item in m && path.item in m'
                && m'[path.item] == if path.LeftOf? then m[path.item].(left := x) else m[path.item].(right := x))
    requires forall n :: n in m && n != x && (path.Root? || n != path.item) ==> n in m' && m'[n] == m[n]
    ensures Zip(m', nil, path, Node(c, Leaf, x, k, Leaf))
  {
    var t := Node(c, Leaf, x, k, Leaf);
    assert Items(t) == {x};
    if !path.Root? {
      ShapeFrame(m, m', nil, Sibling(path), path.item);
      PathFrame(m, m', nil, path.up, path.item);
    }
  }

  ghost function EntryItems(s: seq<Entry<TreeNode>>): set<TreeNode> {
    set i | 0 <= i < |s| :: s[i].item
  }

  lemma EntryItemsAppend(a: seq<Entry<TreeNode>>, b: seq<Entry<TreeNode>>)
    ensures EntryItems(a + b) == EntryItems(a) + EntryItems(b)
  {
    var s := a + b;
    forall x | x in EntryItems(a) + EntryItems(b) ensures x in EntryItems(s) {
      if x in EntryItems(a) {
        var i :| 0 <= i < |a| && a[i].item == x;
        assert s[i].item == x;
      } else {
        var i :| 0 <= i < |b| && b[i].item == x;
        assert s[|a| + i].item == x;
      }
    }
  }

  lemma {:induction false} ItemsAreListed(t: Tree<TreeNode>)
    ensures Items(t) == EntryItems(Inorder(t))
  {
    if t.Node? {
      ItemsAreListed(t.left);
      ItemsAreListed(t.right);
      InorderParts(t);
      var e := [Entry(t.item, t.key)];
      assert e[0].item == t.item;
      assert EntryItems(e) == {t.item};
      EntryItemsAppend(Inorder(t.left) + e, Inorder(t.right));
      EntryItemsAppend(Inorder(t.left), e);
    }
  }

  /** An inserted tree has the old nodes and the new one. */
  lemma InsertItems(t: Tree<TreeNode>, x: TreeNode, k: int)
    requires ColorOf(t) == Black && Sorted(Inorder(t)) && !HasKey(Inorder(t), k)
    ensures Items(RedBlackModel.Insert(t, x, k)) == Items(t) + {x}
    ensures |Inorder(RedBlackModel.Insert(t, x, k))| == |Inorder(t)| + 1
  {
    var i := InsertAdds(t, x, k);
    var s := Inorder(t);
    var e := [Entry(x, k)];
    ItemsAreListed(t);
    ItemsAreListed(RedBlackModel.Insert(t, x, k));
    assert s == s[..i] + s[i..];
    EntryItemsAppend(s[..i], s[i..]);
    EntryItemsAppend(s[..i] + e, s[i..]);
    EntryItemsAppend(s[..i], e);
    assert e[0].item == x;
    assert EntryItems(e) == {x};
  }

  function OnlyChild(y: Tree<TreeNode>): Tree<TreeNode>
    requires y.Node?
  {
    if y.left.Node? then y.left else y.right
  }

  /** `child` has the parent `p`, and is where `x` was below `p`. */
  function SplicedOut(m: Links, nil: TreeNode, x: TreeNode, child: TreeNode, p: TreeNode): Links
    requires child in m && p in m
  {
    var m1 := SetParent(m, child, p);
    if p != nil then Redirect(m1, p, x, child) else m1
  }

  /** Splicing out a node with at most one child puts that child at the position. */
  lemma {:induction false} SpliceZip(m: Links, nil: TreeNode, path: Path<TreeNode>, y: Tree<TreeNode>)
    requires y.Node? && (y.left.Leaf? || y.right.Leaf?) && Zip(m, nil, path, y) && nil in m
    ensures Top(OnlyChild(y), nil) in m && Hole(path, nil) in m
    ensures Zip(SplicedOut(m, nil, y.item, Top(OnlyChild(y), nil), Hole(path, nil)), nil, path, OnlyChild(y))
  {
    ZipMembers(m, nil, path, y);
    var c := OnlyChild(y);
    var child, p := Top(c, nil), Hole(path, nil);
    assert c.Node? ==> child in Items(c) && child in Items(y);
    assert Items(c) <= Items(y);
    assert !path.Root? ==> p in PathItems(path);
    var m1 := SetParent(m, child, p);
    var m2 := SplicedOut(m, nil, y.item, child, p);
    if c.Node? {
      Reparent(m, nil, c, y.item, p);
      ShapeFrame(m1, m2, nil, c, p);
    }
    PathFrame(m, m1, nil, path, y.item);
    if !path.Root? {
      RedirectPath(m1, nil, path, y.item, child);
    }
  }

  /** `y`, which is outside the tree, takes over the place of `t.item` with all its links. */
  function TakenOver(m: Links, nil: TreeNode, x: TreeNode, y: TreeNode): Links
    requires x in m && y in m && m[x].parent in m && m[x].left in m && m[x].right in m
  {
    var f := m[x];
    var m1 := m[y := f.(key := m[y].key)];
    var m2 := if f.parent != nil then Redirect(m1, f.parent, x, y) else m1;
    var m3 := if f.left != nil then SetParent(m2, f.left, y) else m2;
    if f.right != nil then SetParent(m3, f.right, y) else m3
  }

  lemma {:induction false} TakeOverZip(m: Links, nil: TreeNode, path: Path<TreeNode>, t: Tree<TreeNode>, y: TreeNode)
    requires t.Node? && Zip(m, nil, path, t) && nil in m
    requires y in m && y != nil && y !in Items(t) && y !in PathItems(path)
    ensures t.item in m && m[t.item].parent in m && m[t.item].left in m && m[t.item].right in m
    ensures Zip(TakenOver(m, nil, t.item, y), nil, path, Node(t.color, t.left, y, m[y].key, t.right))
    ensures Items(Node(t.color, t.left, y, m[y].key, t.right)) == Items(t) - {t.item} + {y}
  {
    ZipMembers(m, nil, path, t);
    var x := t.item;
    var m' := TakenOver(m, nil, x, y);
    var n := Node(t.color, t.left, y, m[y].key, t.right);
    assert Items(t) == Items(t.left) + {x} + Items(t.right);
    assert t.left.Node? ==> t.left.item in Items(t.left);
    assert t.right.Node? ==> t.right.item in Items(t.right);
    assert !path.Root? ==> path.item in PathItems(path);
    TakeOverChild(m, m', nil, t.left, x, y);
    TakeOverChild(m, m', nil, t.right, x, y);
    if !path.Root? {
      RedirectPath(m, nil, path, x, y);
      PathFrame(Redirect(m, path.item, x, y), m', nil, path, y);
    }
  }

  lemma {:induction false} TakeOverChild(m: Links, m': Links, nil: TreeNode, c: Tree<TreeNode>, x: TreeNode,
                                         y: TreeNode)
    requires Shape(m, nil, c, x) && Distinct(c)
    requires c.Node? ==> c.item in m && c.item in m' && m'[c.item] == m[c.item].(parent := y)
    requires forall n :: n in m && n in Items(c) && n != Top(c, nil) ==> n in m' && m'[n] == m[n]
    ensures Shape(m', nil, c, y)
  {
    if c.Node? {
      Reparent(m, nil, c, x, y);
      ShapeFrame(m[c.item := m[c.item].(parent := y)], m', nil, c, y);
    }
  }

  /** A tree without repetition lists every node once. */
  lemma {:induction false} ListedOnce(t: Tree<TreeNode>)
    requires Distinct(t)
    ensures forall i, j :: 0 <= i < j < |Inorder(t)| ==> Inorder(t)[i].item != Inorder(t)[j].item
  {
    if t.Node? {
      ListedOnce(t.left);
      ListedOnce(t.right);
      InorderParts(t);
      ItemsAreListed(t.left);
      ItemsAreListed(t.right);
      var l, r := Inorder(t.left), Inorder(t.right);
      assert forall i :: 0 <= i < |l| ==> l[i].item in Items(t.left);
      assert forall i :: 0 <= i < |r| ==> r[i].item in Items(t.right);
    }
  }

  lemma WithoutEntry(a: seq<Entry<TreeNode>>, e: Entry<TreeNode>, b: seq<Entry<TreeNode>>)
    requires forall i :: 0 <= i < |a| ==> a[i].item != e.item
    requires forall i :: 0 <= i < |b| ==> b[i].item != e.item
    ensures EntryItems(a + b) == EntryItems(a + [e] + b) - {e.item}
  {
    assert [e][0].item == e.item;
    assert EntryItems([e]) == {e.item};
    EntryItemsAppend(a, b);
    EntryItemsAppend(a + [e], b);
    EntryItemsAppend(a, [e]);
  }

  /** Taking one position out of the listing takes one node out of the tree. */
  lemma ErasedItems(before: Tree<TreeNode>, after: Tree<TreeNode>, i: nat)
    requires Distinct(before) && i < |Inorder(before)|
    requires Inorder(after) == Inorder(before)[..i] + Inorder(before)[i + 1..]
    ensures Items(after) == Items(before) - {Inorder(before)[i].item}
  {
    ListedOnce(before);
    ItemsAreListed(before);
    ItemsAreListed(after);
    hide Inorder;
    hide Items;
    hide Distinct;
    hide EntryItems;
    var s := Inorder(before);
    var front, back := s[..i], s[i + 1..];
    assert s == front + [s[i]] + back;
    assert forall j :: 0 <= j < |front| ==> front[j] == s[j];
    assert forall j :: 0 <= j < |back| ==> back[j] == s[i + 1 + j];
    WithoutEntry(front, s[i], back);
  }
}
