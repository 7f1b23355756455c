/**
  Red-black trees as values, for oslib/src/rbtree.c.

  A `Tree` carries at every node the colour, the node's identity (`item`) and its key.
  A `Path` is the rest of a tree around one position, from the position up to the root,
  so that following a parent pointer is taking one step along the path.  The functions
  below say, on values, what the C loops do to the linked nodes: they take the same
  branches, in the same order.  `RedBlackHeap` proves that the pointer code computes them.
 */
module RedBlackModel {
  import opened Common

  datatype Color = Black | Red

  datatype Tree<N> = Leaf | Node(color: Color, left: Tree<N>, item: N, key: int, right: Tree<N>)

  /** The position is the left (right) child of `item`; `up` is the path of `item` itself. */
  datatype Path<N> =
    | Root
    | LeftOf(up: Path<N>, color: Color, item: N, key: int, right: Tree<N>)
    | RightOf(left: Tree<N>, color: Color, item: N, key: int, up: Path<N>)

  datatype Entry<N> = Entry(item: N, key: int)

  function Plug<N>(path: Path<N>, t: Tree<N>): Tree<N> {
    match path
    case Root => t
    case LeftOf(up, c, x, k, r) => Plug(up, Node(c, t, x, k, r))
    case RightOf(l, c, x, k, up) => Plug(up, Node(c, l, x, k, t))
  }

  /** The entries of `t` in key order, with `rest` after them. */
  function Listing<N>(t: Tree<N>, rest: seq<Entry<N>>): seq<Entry<N>> {
    match t
    case Leaf => rest
    case Node(c, l, x, k, r) => Listing(l, [Entry(x, k)] + Listing(r, rest))
  }

  function Inorder<N>(t: Tree<N>): seq<Entry<N>> {
    Listing(t, [])
  }

  /** `mid` with what lies left of the position before it. */
  function Front<N>(path: Path<N>, mid: seq<Entry<N>>): seq<Entry<N>> {
    match path
    case Root => mid
    case LeftOf(up, c, x, k, r) => Front(up, mid)
    case RightOf(l, c, x, k, up) => Front(up, Listing(l, [Entry(x, k)] + mid))
  }

  /** What lies right of the position. */
  function After<N>(path: Path<N>): seq<Entry<N>> {
    match path
    case Root => []
    case LeftOf(up, c, x, k, r) => [Entry(x, k)] + Listing(r, After(up))
    case RightOf(l, c, x, k, up) => After(up)
  }

  /** All the entries of the tree that has `t` at the position. */
  function Around<N>(path: Path<N>, t: Tree<N>): seq<Entry<N>> {
    Front(path, Listing(t, After(path)))
  }

  function ColorOf<N>(t: Tree<N>): Color {
    if t.Leaf? then Black else t.color
  }

  function Blacken<N>(t: Tree<N>): Tree<N> {
    if t.Leaf? then t else t.(color := Black)
  }

  function PathLength<N>(path: Path<N>): nat {
    if path.Root? then 0 else 1 + PathLength(path.up)
  }

  predicate RootBlack<N>(path: Path<N>) {
    path.Root? || (if path.up.Root? then path.color == Black else RootBlack(path.up))
  }

  lemma {:induction false} PlugInorder<N>(path: Path<N>, t: Tree<N>)
    ensures Inorder(Plug(path, t)) == Around(path, t)
  {
    match path
    case Root =>
    case LeftOf(up, c, x, k, r) => PlugInorder(up, Node(c, t, x, k, r));
    case RightOf(l, c, x, k, up) => PlugInorder(up, Node(c, l, x, k, t));
  }

  // ---------------------------------------------------------------- the red-black conditions

  predicate NoRedRed<N>(t: Tree<N>) {
    t.Leaf? || (NoRedRed(t.left) && NoRedRed(t.right)
                && (t.color == Red ==> ColorOf(t.left) == Black && ColorOf(t.right) == Black))
  }

  /** Black nodes on the leftmost way down; on every way down, when the tree is `Balanced`. */
  function BlackHeight<N>(t: Tree<N>): nat {
    if t.Leaf? then 0 else BlackHeight(t.left) + (if t.color == Black then 1 else 0)
  }

  predicate Balanced<N>(t: Tree<N>) {
    t.Leaf? || (Balanced(t.left) && Balanced(t.right) && BlackHeight(t.left) == BlackHeight(t.right))
  }

  predicate RedBlack<N>(t: Tree<N>) {
    ColorOf(t) == Black && NoRedRed(t) && Balanced(t)
  }

  /** Putting a tree of black height `h` and colour `c` at the position keeps everything in order. */
  predicate Accepts<N>(path: Path<N>, h: nat, c: Color) {
    match path
    case Root => c == Black
    case LeftOf(up, pc, x, k, r) =>
      && NoRedRed(r) && Balanced(r) && BlackHeight(r) == h
      && (pc == Red ==> c == Black && ColorOf(r) == Black)
      && Accepts(up, h + (if pc == Black then 1 else 0), pc)
    case RightOf(l, pc, x, k, up) =>
      && NoRedRed(l) && Balanced(l) && BlackHeight(l) == h
      && (pc == Red ==> c == Black && ColorOf(l) == Black)
      && Accepts(up, h + (if pc == Black then 1 else 0), pc)
  }

  lemma {:induction false} PlugRedBlack<N>(path: Path<N>, t: Tree<N>)
    ensures RedBlack(Plug(path, t))
        <==> NoRedRed(t) && Balanced(t) && Accepts(path, BlackHeight(t), ColorOf(t))
  {
    match path
    case Root =>
    case LeftOf(up, c, x, k, r) => PlugRedBlack(up, Node(c, t, x, k, r));
    case RightOf(l, c, x, k, up) => PlugRedBlack(up, Node(c, l, x, k, t));
  }

  // ---------------------------------------------------------------- insertion

  /** One pass of the loop goes on from a new position, or was the last one. */
  datatype Step<N> = GoOn(path: Path<N>, t: Tree<N>) | Stop(path: Path<N>, t: Tree<N>)

  /** The loop body of `insert_fixup`: node `t` and its parent are red, so it has a grandparent. */
  function InsertStep<N>(path: Path<N>, t: Tree<N>): Step<N>
    requires t.Node? && RootBlack(path) && !path.Root? && path.color == Red
  {
    match path
    case LeftOf(LeftOf(up, gc, g, gk, uncle), pc, p, pk, pr) =>
      if ColorOf(uncle) == Red then
        GoOn(up, Node(Red, Node(Black, t, p, pk, pr), g, gk, Blacken(uncle)))
      else
        Stop(up, Node(Black, t, p, pk, Node(Red, pr, g, gk, uncle)))
    case RightOf(pl, pc, p, pk, LeftOf(up, gc, g, gk, uncle)) =>
      if ColorOf(uncle) == Red then
        GoOn(up, Node(Red, Node(Black, pl, p, pk, t), g, gk, Blacken(uncle)))
      else
        Stop(up, Node(Black, Node(pc, pl, p, pk, t.left), t.item, t.key, Node(Red, t.right, g, gk, uncle)))
    case RightOf(pl, pc, p, pk, RightOf(uncle, gc, g, gk, up)) =>
      if ColorOf(uncle) == Red then
        GoOn(up, Node(Red, Blacken(uncle), g, gk, Node(Black, pl, p, pk, t)))
      else
        Stop(up, Node(Black, Node(Red, uncle, g, gk, pl), p, pk, t))
    case LeftOf(RightOf(uncle, gc, g, gk, up), pc, p, pk, pr) =>
      if ColorOf(uncle) == Red then
        GoOn(up, Node(Red, Blacken(uncle), g, gk, Node(Black, t, p, pk, pr)))
      else
        Stop(up, Node(Black, Node(Red, uncle, g, gk, t.left), t.item, t.key, Node(pc, t.right, p, pk, pr)))
  }

  lemma {:induction false} InsertStepShorter<N>(path: Path<N>, t: Tree<N>)
    requires t.Node? && RootBlack(path) && !path.Root? && path.color == Red
    ensures var s := InsertStep(path, t);
            s.t.Node? && RootBlack(s.path) && PathLength(s.path) < PathLength(path)
  {
    assert !path.up.Root?;
    assert path.up.up.Root? || RootBlack(path.up.up);
  }

  /** `insert_fixup`, from node `t` (coloured red) at the position: the whole tree afterwards. */
  function InsertFixup<N>(path: Path<N>, t: Tree<N>): Tree<N>
    requires t.Node? && RootBlack(path)
    decreases PathLength(path)
  {
    if path.Root? || path.color == Black then
      Blacken(Plug(path, t))
    else
      InsertStepShorter(path, t);
      var s := InsertStep(path, t);
      if s.GoOn? then InsertFixup(s.path, s.t) else Blacken(Plug(s.path, s.t))
  }

  /** A step rearranges the subtree of the grandparent and keeps its entries in order. */
  lemma {:induction false} InsertStepInorder<N>(path: Path<N>, t: Tree<N>)
    requires t.Node? && RootBlack(path) && !path.Root? && path.color == Red
    ensures var s := InsertStep(path, t);
            Around(s.path, s.t) == Around(path, t)
  {
    var (p, pk, g, gk) := (path.item, path.key, path.up.item, path.up.key);
    var up := path.up.up;
    var rest := After(up);
    var uncle := if path.up.LeftOf? then path.up.right else path.up.left;
    var sibling := if path.LeftOf? then path.right else path.left;
    BlackenListing(uncle, rest);
    var below := After(path.up);
    assert path.up.LeftOf? ==> below == [Entry(g, gk)] + Listing(uncle, rest);
    assert path.LeftOf? ==> After(path) == [Entry(p, pk)] + Listing(sibling, below);
    var mid0 := Listing(t, After(path));
    var mid1 := if path.LeftOf? then mid0 else Listing(sibling, [Entry(p, pk)] + mid0);
    var mid2 := if path.up.LeftOf? then mid1 else Listing(uncle, [Entry(g, gk)] + mid1);
    assert Front(path, mid0) == Front(path.up, mid1) == Front(up, mid2);
    match path
    case LeftOf(LeftOf(_, _, _, _, _), pc, _, _, _) =>
      Unfold(Black, t, p, pk, sibling, [Entry(g, gk)] + Listing(uncle, rest));
      Unfold(Red, sibling, g, gk, uncle, rest);
      Unfold(Red, Node(Black, t, p, pk, sibling), g, gk, Blacken(uncle), rest);
      Unfold(Black, t, p, pk, Node(Red, sibling, g, gk, uncle), rest);
    case RightOf(_, pc, _, _, LeftOf(_, _, _, _, _)) =>
      Unfold(Black, sibling, p, pk, t, [Entry(g, gk)] + Listing(uncle, rest));
      Unfold(t.color, t.left, t.item, t.key, t.right, [Entry(g, gk)] + Listing(uncle, rest));
      Unfold(Red, t.right, g, gk, uncle, rest);
      Unfold(pc, sibling, p, pk, t.left,
             [Entry(t.item, t.key)] + Listing(t.right, [Entry(g, gk)] + Listing(uncle, rest)));
    case RightOf(_, pc, _, _, RightOf(_, _, _, _, _)) =>
      Unfold(Black, sibling, p, pk, t, rest);
      Unfold(Red, uncle, g, gk, sibling, [Entry(p, pk)] + Listing(t, rest));
      BlackenListing(uncle, [Entry(g, gk)] + Listing(sibling, [Entry(p, pk)] + Listing(t, rest)));
    case LeftOf(RightOf(_, _, _, _, _), pc, _, _, _) =>
      var last := [Entry(p, pk)] + Listing(sibling, rest);
      Unfold(Black, t, p, pk, sibling, rest);
      Unfold(t.color, t.left, t.item, t.key, t.right, last);
      Unfold(pc, t.right, p, pk, sibling, rest);
      Unfold(Red, uncle, g, gk, t.left, [Entry(t.item, t.key)] + Listing(t.right, last));
      BlackenListing(uncle, [Entry(g, gk)] + Listing(t, last));
  }

  lemma Unfold<N>(c: Color, l: Tree<N>, x: N, k: int, r: Tree<N>, rest: seq<Entry<N>>)
    ensures Listing(Node(c, l, x, k, r), rest) == Listing(l, [Entry(x, k)] + Listing(r, rest))
  {
  }

  lemma BlackenListing<N>(t: Tree<N>, rest: seq<Entry<N>>)
    ensures Listing(Blacken(t), rest) == Listing(t, rest)
  {
  }

  /** Fixing up after an insertion moves no entry. */
  lemma {:induction false} InsertFixupInorder<N>(path: Path<N>, t: Tree<N>)
    requires t.Node? && RootBlack(path)
    ensures Inorder(InsertFixup(path, t)) == Around(path, t)
    decreases PathLength(path)
  {
    if path.Root? || path.color == Black {
      PlugInorder(path, t);
    } else {
      InsertStepShorter(path, t);
      InsertStepInorder(path, t);
      var s := InsertStep(path, t);
      if s.GoOn? {
        InsertFixupInorder(s.path, s.t);
      } else {
        PlugInorder(s.path, s.t);
      }
    }
  }

  /** All but one thing is in order: the red node `t` may have a red parent. */
  predicate InsertReady<N>(path: Path<N>, t: Tree<N>) {
    && t.Node? && t.color == Red && NoRedRed(t) && Balanced(t)
    && RootBlack(path) && Accepts(path, BlackHeight(t), Black)
  }

  lemma AcceptsBlack<N>(path: Path<N>, h: nat, c: Color)
    requires Accepts(path, h, c)
    ensures Accepts(path, h, Black)
  {
  }

  predicate Good<N>(t: Tree<N>) {
    NoRedRed(t) && Balanced(t)
  }

  lemma GoodNode<N>(c: Color, l: Tree<N>, x: N, k: int, r: Tree<N>)
    requires Good(l) && Good(r) && BlackHeight(l) == BlackHeight(r)
    requires c == Red ==> ColorOf(l) == Black && ColorOf(r) == Black
    ensures Good(Node(c, l, x, k, r))
    ensures BlackHeight(Node(c, l, x, k, r)) == BlackHeight(l) + (if c == Black then 1 else 0)
  {
  }

  lemma GoodBlacken<N>(t: Tree<N>)
    requires Good(t)
    ensures Good(Blacken(t)) && ColorOf(Blacken(t)) == Black
    ensures BlackHeight(Blacken(t)) == BlackHeight(t) + (if ColorOf(t) == Red then 1 else 0)
  {
  }

  lemma {:induction false} InsertStepReady<N>(path: Path<N>, t: Tree<N>)
    requires InsertReady(path, t) && !path.Root? && path.color == Red
    ensures var s := InsertStep(path, t);
            if s.GoOn? then InsertReady(s.path, s.t)
            else ColorOf(s.t) == Black && Good(s.t) && Accepts(s.path, BlackHeight(s.t), Black)
  {
    InsertStepShorter(path, t);
    var (p, pk, g, gk) := (path.item, path.key, path.up.item, path.up.key);
    var h := BlackHeight(t);
    assert Accepts(path.up, h, Red);
    assert path.up.color == Black;
    AcceptsBlack(path.up.up, h + 1, Black);
    var sibling := if path.LeftOf? then path.right else path.left;
    var uncle := if path.up.LeftOf? then path.up.right else path.up.left;
    assert Good(sibling) && BlackHeight(sibling) == h && ColorOf(sibling) == Black;
    assert Good(uncle) && BlackHeight(uncle) == h;
    if ColorOf(uncle) == Red {
      GoodBlacken(uncle);
      if path.LeftOf? {
        GoodNode(Black, t, p, pk, sibling);
      } else {
        GoodNode(Black, sibling, p, pk, t);
      }
      var parent := if path.LeftOf? then Node(Black, t, p, pk, sibling) else Node(Black, sibling, p, pk, t);
      if path.up.LeftOf? {
        GoodNode(Red, parent, g, gk, Blacken(uncle));
      } else {
        GoodNode(Red, Blacken(uncle), g, gk, parent);
      }
    } else {
      assert Good(t.left) && Good(t.right);
      InsertRotateReady(path, t, h);
    }
  }

  lemma {:induction false} InsertRotateReady<N>(path: Path<N>, t: Tree<N>, h: nat)
    requires t.Node? && RootBlack(path) && !path.Root? && path.color == Red
    requires t.color == Red && Good(t) && BlackHeight(t) == h
    requires ColorOf(if path.up.LeftOf? then path.up.right else path.up.left) == Black
    requires var sibling := if path.LeftOf? then path.right else path.left;
             Good(sibling) && BlackHeight(sibling) == h && ColorOf(sibling) == Black
    requires var uncle := if path.up.LeftOf? then path.up.right else path.up.left;
             Good(uncle) && BlackHeight(uncle) == h
    ensures var s := InsertStep(path, t).t;
            ColorOf(s) == Black && Good(s) && BlackHeight(s) == h + 1
  {
    var (p, pk, g, gk) := (path.item, path.key, path.up.item, path.up.key);
    assert Good(t.left) && Good(t.right) && BlackHeight(t.right) == h;
    assert ColorOf(t.left) == Black && ColorOf(t.right) == Black;
    match path
    case LeftOf(LeftOf(_, _, _, _, uncle), _, _, _, pr) =>
      GoodNode(Red, pr, g, gk, uncle);
      GoodNode(Black, t, p, pk, Node(Red, pr, g, gk, uncle));
    case RightOf(pl, _, _, _, LeftOf(_, _, _, _, uncle)) =>
      GoodNode(Red, pl, p, pk, t.left);
      GoodNode(Red, t.right, g, gk, uncle);
      GoodNode(Black, Node(Red, pl, p, pk, t.left), t.item, t.key, Node(Red, t.right, g, gk, uncle));
    case RightOf(pl, _, _, _, RightOf(uncle, _, _, _, _)) =>
      GoodNode(Red, uncle, g, gk, pl);
      GoodNode(Black, Node(Red, uncle, g, gk, pl), p, pk, t);
    case LeftOf(RightOf(uncle, _, _, _, _), _, _, _, pr) =>
      GoodNode(Red, uncle, g, gk, t.left);
      GoodNode(Red, t.right, p, pk, pr);
      GoodNode(Black, Node(Red, uncle, g, gk, t.left), t.item, t.key, Node(Red, t.right, p, pk, pr));
  }

  /** `insert_fixup` restores the red-black conditions, whatever the tree around the new node. */
  lemma {:induction false} InsertFixupRedBlack<N>(path: Path<N>, t: Tree<N>)
    requires InsertReady(path, t)
    ensures RedBlack(InsertFixup(path, t))
    decreases PathLength(path)
  {
    if path.Root? {
    } else if path.color == Black {
      PlugRedBlack(path, t);
    } else {
      InsertStepShorter(path, t);
      InsertStepReady(path, t);
      var s := InsertStep(path, t);
      if s.GoOn? {
        InsertFixupRedBlack(s.path, s.t);
      } else {
        PlugRedBlack(s.path, s.t);
      }
    }
  }

  // ---------------------------------------------------------------- searching

  ghost predicate Sorted<N>(s: seq<Entry<N>>) {
    forall i, j :: 0 <= i < j < |s| ==> s[i].key < s[j].key
  }

  /** The loop shared by `RBTREE_Find` and `RBTREE_Insert`: down to an equal key or off the tree. */
  function Descend<N>(path: Path<N>, t: Tree<N>, k: int): (r: (Path<N>, Tree<N>))
    ensures Plug(r.0, r.1) == Plug(path, t)
    ensures r.1.Leaf? || r.1.key == k
    ensures RootBlack(path) && (path.Root? ==> ColorOf(t) == Black) ==> RootBlack(r.0)
    decreases t
  {
    if t.Leaf? || k == t.key then (path, t)
    else if k < t.key then Descend(LeftOf(path, t.color, t.item, t.key, t.right), t.left, k)
    else Descend(RightOf(t.left, t.color, t.item, t.key, path), t.right, k)
  }

  lemma {:induction false} ListingAppend<N>(t: Tree<N>, a: seq<Entry<N>>, b: seq<Entry<N>>)
    ensures Listing(t, a + b) == Listing(t, a) + b
  {
    if t.Node? {
      ListingAppend(t.right, a, b);
      var e := [Entry(t.item, t.key)];
      assert e + (Listing(t.right, a) + b) == (e + Listing(t.right, a)) + b;
      ListingAppend(t.left, e + Listing(t.right, a), b);
    }
  }

  lemma {:induction false} FrontAppend<N>(path: Path<N>, a: seq<Entry<N>>, b: seq<Entry<N>>)
    ensures Front(path, a + b) == Front(path, a) + b
  {
    match path
    case Root =>
    case LeftOf(up, c, x, k, r) => FrontAppend(up, a, b);
    case RightOf(l, c, x, k, up) =>
      assert [Entry(x, k)] + (a + b) == ([Entry(x, k)] + a) + b;
      ListingAppend(l, [Entry(x, k)] + a, b);
      FrontAppend(up, Listing(l, [Entry(x, k)] + a), b);
  }

  function Before<N>(path: Path<N>): seq<Entry<N>> {
    Front(path, [])
  }

  lemma AroundParts<N>(path: Path<N>, t: Tree<N>)
    ensures Around(path, t) == Before(path) + Inorder(t) + After(path)
  {
    assert [] + After(path) == After(path);
    ListingAppend(t, [], After(path));
    assert [] + (Inorder(t) + After(path)) == Inorder(t) + After(path);
    FrontAppend(path, [], Inorder(t) + After(path));
  }

  lemma InorderParts<N>(t: Tree<N>)
    requires t.Node?
    ensures Inorder(t) == Inorder(t.left) + [Entry(t.item, t.key)] + Inorder(t.right)
  {
    var rest := [Entry(t.item, t.key)] + Inorder(t.right);
    assert [] + rest == rest;
    ListingAppend(t.left, [], rest);
  }

  lemma BeforeAfterParts<N>(path: Path<N>)
    requires !path.Root?
    ensures path.LeftOf? ==> Before(path) == Before(path.up)
                             && After(path) == [Entry(path.item, path.key)] + Inorder(path.right) + After(path.up)
    ensures path.RightOf? ==> After(path) == After(path.up)
                              && Before(path) == Before(path.up) + Inorder(path.left) + [Entry(path.item, path.key)]
  {
    var e := [Entry(path.item, path.key)];
    if path.LeftOf? {
      var rest := After(path.up);
      assert [] + rest == rest;
      ListingAppend(path.right, [], rest);
      assert e + (Inorder(path.right) + rest) == e + Inorder(path.right) + rest;
    } else {
      var l := Inorder(path.left);
      assert [] + e == e + [] == e;
      ListingAppend(path.left, [], e);
      assert [] + (l + e) == l + e;
      FrontAppend(path.up, [], l + e);
      assert Before(path.up) + (l + e) == Before(path.up) + l + e;
    }
  }

  ghost predicate Below<N>(s: seq<Entry<N>>, k: int) {
    forall i :: 0 <= i < |s| ==> s[i].key < k
  }

  ghost predicate Above<N>(s: seq<Entry<N>>, k: int) {
    forall i :: 0 <= i < |s| ==> k < s[i].key
  }

  lemma SortedAround<N>(a: seq<Entry<N>>, e: Entry<N>, b: seq<Entry<N>>)
    ensures Sorted(a + [e] + b) <==> Sorted(a) && Sorted(b) && Below(a, e.key) && Above(b, e.key)
  {
    var s := a + [e] + b;
    if Sorted(s) {
      assert forall i :: 0 <= i < |a| ==> a[i] == s[i];
      assert s[|a|] == e;
      assert forall i :: 0 <= i < |b| ==> b[i] == s[|a| + 1 + i];
    }
    if Sorted(a) && Sorted(b) && Below(a, e.key) && Above(b, e.key) {
      forall i, j | 0 <= i < j < |s| ensures s[i].key < s[j].key {
        if i > |a| {
          assert s[i] == b[i - |a| - 1] && s[j] == b[j - |a| - 1];
        } else if j > |a| {
          assert s[j] == b[j - |a| - 1];
        }
      }
    }
  }

  /** The search stops between the smaller and the greater keys. */
  lemma {:induction false} DescendBetween<N>(path: Path<N>, t: Tree<N>, k: int)
    requires Sorted(Around(path, t)) && Below(Before(path), k) && Above(After(path), k)
    ensures var (p, s) := Descend(path, t, k); Below(Before(p), k) && Above(After(p), k)
    decreases t
  {
    if t.Node? && k != t.key {
      AroundParts(path, t);
      InorderParts(t);
      var e := Entry(t.item, t.key);
      var l, r := Before(path) + Inorder(t.left), Inorder(t.right) + After(path);
      assert Around(path, t) == l + [e] + r;
      SortedAround(l, e, r);
      if k < t.key {
        var p := LeftOf(path, t.color, t.item, t.key, t.right);
        BeforeAfterParts(p);
        assert After(p) == [e] + r;
        assert Above(r, k);
        DescendBetween(p, t.left, k);
      } else {
        var p := RightOf(t.left, t.color, t.item, t.key, path);
        BeforeAfterParts(p);
        assert Before(p) == l + [e];
        assert Below(l, k);
        DescendBetween(p, t.right, k);
      }
    }
  }

  ghost predicate HasKey<N>(s: seq<Entry<N>>, k: int) {
    exists i :: 0 <= i < |s| && s[i].key == k
  }

  lemma NoKey<N>(a: seq<Entry<N>>, b: seq<Entry<N>>, k: int)
    requires Below(a, k) && Above(b, k)
    ensures !HasKey(a + b, k)
  {
  }

  lemma SortedSplit<N>(a: seq<Entry<N>>, b: seq<Entry<N>>)
    requires Sorted(a + b)
    ensures Sorted(a) && Sorted(b)
  {
    assert forall j :: 0 <= j < |a| ==> a[j] == (a + b)[j];
    assert forall j :: 0 <= j < |b| ==> b[j] == (a + b)[|a| + j];
  }

  lemma {:induction false} DescendHit<N>(t: Tree<N>, k: int)
    requires Descend(Root, t, k).1.Node?
    ensures var (p, s) := Descend(Root, t, k);
            Inorder(t) == (Before(p) + Inorder(s.left)) + [Entry(s.item, k)] + (Inorder(s.right) + After(p))
  {
    var (p, s) := Descend(Root, t, k);
    PlugInorder(p, s);
    AroundParts(p, s);
    InorderParts(s);
    var l, e, r := Inorder(s.left), [Entry(s.item, k)], Inorder(s.right);
    assert Before(p) + (l + e + r) + After(p) == (Before(p) + l) + e + (r + After(p));
  }

  lemma {:induction false} DescendMiss<N>(t: Tree<N>, k: int)
    requires Sorted(Inorder(t)) && Descend(Root, t, k).1.Leaf?
    ensures var p := Descend(Root, t, k).0;
            Inorder(t) == Before(p) + After(p) && Below(Before(p), k) && Above(After(p), k)
  {
    var (p, s) := Descend(Root, t, k);
    PlugInorder<N>(Root, t);
    PlugInorder(p, s);
    AroundParts(p, s);
    DescendBetween(Root, t, k);
  }

  /** A tree in key order holds key `k` exactly when the search ends at a node, the one with that key. */
  lemma {:induction false} DescendFinds<N>(t: Tree<N>, k: int)
    requires Sorted(Inorder(t))
    ensures var s := Descend(Root, t, k).1;
            if s.Leaf? then !HasKey(Inorder(t), k) else Entry(s.item, k) in Inorder(t) && HasKey(Inorder(t), k)
  {
    var (p, s) := Descend(Root, t, k);
    if s.Node? {
      DescendHit(t, k);
      var l := Before(p) + Inorder(s.left);
      assert Inorder(t)[|l|] == Entry(s.item, k);
    } else {
      DescendMiss(t, k);
      NoKey(Before(p), After(p), k);
    }
  }

  /** `RBTREE_Insert`: the tree afterwards; a tree that holds the key already stays as it is. */
  function Insert<N>(t: Tree<N>, x: N, k: int): Tree<N>
    requires ColorOf(t) == Black
  {
    var (p, s) := Descend(Root, t, k);
    if s.Node? then t else InsertFixup(p, Node(Red, Leaf, x, k, Leaf))
  }

  /** A new key enters the sorted listing at its place, and nothing else moves. */
  lemma {:induction false} InsertAdds<N>(t: Tree<N>, x: N, k: int) returns (i: nat)
    requires ColorOf(t) == Black && Sorted(Inorder(t)) && !HasKey(Inorder(t), k)
    ensures i <= |Inorder(t)|
    ensures Inorder(Insert(t, x, k)) == Inorder(t)[..i] + [Entry(x, k)] + Inorder(t)[i..]
    ensures Sorted(Inorder(Insert(t, x, k)))
  {
    var (p, s) := Descend(Root, t, k);
    DescendFinds(t, k);
    DescendMiss(t, k);
    var n := Node(Red, Leaf, x, k, Leaf);
    InsertFixupInorder(p, n);
    AroundParts(p, n);
    var b, a := Before(p), After(p);
    i := |b|;
    InorderParts(n);
    assert [] + [Entry(x, k)] + [] == [Entry(x, k)];
    assert (b + a)[..i] == b;
    assert (b + a)[i..] == a;
    SortedSplit(Before(p), After(p));
    SortedAround(Before(p), Entry(x, k), After(p));
  }

  lemma {:induction false} FixupBlackRoot<N>(path: Path<N>, t: Tree<N>)
    requires t.Node? && RootBlack(path)
    ensures ColorOf(InsertFixup(path, t)) == Black
    decreases PathLength(path)
  {
    if !path.Root? && path.color == Red {
      InsertStepShorter(path, t);
      if InsertStep(path, t).GoOn? {
        FixupBlackRoot(InsertStep(path, t).path, InsertStep(path, t).t);
      }
    }
  }

  /** Insertion keeps the root black, and keeps a red-black tree one. */
  lemma {:induction false} InsertKeepsRedBlack<N>(t: Tree<N>, x: N, k: int)
    requires ColorOf(t) == Black
    ensures ColorOf(Insert(t, x, k)) == Black
    ensures RedBlack(t) ==> RedBlack(Insert(t, x, k))
  {
    var (p, s) := Descend(Root, t, k);
    if s.Leaf? {
      FixupBlackRoot(p, Node(Red, Leaf, x, k, Leaf));
      if RedBlack(t) {
        PlugRedBlack(p, s);
        InsertFixupRedBlack(p, Node(Red, Leaf, x, k, Leaf));
      }
    }
  }

  // ---------------------------------------------------------------- height

  /** Nodes on the longest way down: one more than `RBTREE_HeightMax` of a tree that is not empty. */
  function Height<N>(t: Tree<N>): nat {
    if t.Leaf? then 0 else 1 + (if Height(t.left) > Height(t.right) then Height(t.left) else Height(t.right))
  }

  lemma {:induction false} Power2Monotone(a: nat, b: nat)
    requires a <= b
    ensures Power2(a) <= Power2(b)
    decreases b
  {
    if a < b {
      Power2Monotone(a, b - 1);
    }
  }

  lemma {:induction false} HeightBounds<N>(t: Tree<N>)
    requires NoRedRed(t) && Balanced(t)
    ensures Height(t) <= 2 * BlackHeight(t) + (if ColorOf(t) == Red then 1 else 0)
    ensures Power2(BlackHeight(t)) <= |Inorder(t)| + 1
  {
    if t.Node? {
      HeightBounds(t.left);
      HeightBounds(t.right);
      InorderParts(t);
    }
  }

  /** A red-black tree of height h has at least 2^ceil(h/2) - 1 entries. */
  lemma HeightIsLogarithmic<N>(t: Tree<N>)
    requires RedBlack(t)
    ensures |Inorder(t)| + 1 >= Power2((Height(t) + 1) / 2)
  {
    HeightBounds(t);
    Power2Monotone((Height(t) + 1) / 2, BlackHeight(t));
  }

  // ---------------------------------------------------------------- removal

  /**
    `nil` is the colour of the shared sentinel.  The C loop paints the sentinel like any other
    node, so inside `delete_fixup` a missing child can count as red.
   */
  function Seen<N>(t: Tree<N>, nil: Color): Color {
    if t.Leaf? then nil else t.color
  }

  function Sibling<N>(path: Path<N>): Tree<N>
    requires !path.Root?
  {
    if path.LeftOf? then path.right else path.left
  }

  /** The first `if` of the loop: a red sibling is painted black, the parent red, and the parent rotated. */
  function AwayFromRed<N>(path: Path<N>, nil: Color): (r: (Path<N>, Color))
    requires !path.Root?
    ensures !r.0.Root? && r.0.LeftOf? == path.LeftOf?
  {
    var w := Sibling(path);
    if Seen(w, nil) == Black then
      (path, nil)
    else if w.Leaf? then
      (path.(color := Red), Black)
    else if path.LeftOf? then
      (LeftOf(LeftOf(path.up, Black, w.item, w.key, w.right), Red, path.item, path.key, w.left), nil)
    else
      (RightOf(w.right, Red, path.item, path.key, RightOf(w.left, Black, w.item, w.key, path.up)), nil)
  }

  /** The sibling with its outer child seen red: its red inner child is rotated above it if need be. */
  function OuterRed<N>(path: Path<N>, nil: Color): (w: Tree<N>)
    requires !path.Root? && Sibling(path).Node?
    ensures w.Node?
  {
    var w := Sibling(path);
    var inner, outer := if path.LeftOf? then w.left else w.right, if path.LeftOf? then w.right else w.left;
    if Seen(outer, nil) == Red || inner.Leaf? then w
    else if path.LeftOf? then
      Node(Black, inner.left, inner.item, inner.key, Node(Red, inner.right, w.item, w.key, w.right))
    else
      Node(Black, Node(Red, w.left, w.item, w.key, inner.left), inner.item, inner.key, inner.right)
  }

  /** The subtree of the parent after the last rotation. */
  function Lifted<N>(path: Path<N>, t: Tree<N>, w: Tree<N>): Tree<N>
    requires !path.Root? && w.Node?
  {
    if path.LeftOf? then
      Node(path.color, Node(Black, t, path.item, path.key, w.left), w.item, w.key, Blacken(w.right))
    else
      Node(path.color, Blacken(w.left), w.item, w.key, Node(Black, w.right, path.item, path.key, t))
  }

  function UpOne<N>(path: Path<N>, c: Color, t: Tree<N>, w: Tree<N>): Tree<N>
    requires !path.Root?
  {
    if path.LeftOf? then Node(c, t, path.item, path.key, w) else Node(c, w, path.item, path.key, t)
  }

  /** The rest of the loop body, with the sibling no longer red (unless it is the sentinel). */
  function Rebalance<N>(path: Path<N>, t: Tree<N>, nil: Color): (Step<N>, Color)
    requires !path.Root?
  {
    var w := Sibling(path);
    if w.Leaf? then
      if nil == Black then (GoOn(path.up, UpOne(path, path.color, t, w)), Red)
      else (Stop(path.up, UpOne(path, Black, t, w)), Black)
    else if Seen(w.left, nil) == Black && Seen(w.right, nil) == Black then
      (GoOn(path.up, UpOne(path, path.color, t, w.(color := Red))), nil)
    else
      var o := OuterRed(path, nil);
      var paintsNil := if path.LeftOf? then o.right.Leaf? || (w.left.Leaf? && Seen(w.right, nil) == Black)
                       else o.left.Leaf? || (w.right.Leaf? && Seen(w.left, nil) == Black);
      (Stop(path.up, Lifted(path, t, o)), if paintsNil then Black else nil)
  }

  function DeleteStep<N>(path: Path<N>, t: Tree<N>, nil: Color): (Step<N>, Color)
    requires !path.Root?
  {
    var (p, n) := AwayFromRed(path, nil);
    Rebalance(p, t, n)
  }

  function DeleteMeasure<N>(path: Path<N>, t: Tree<N>): nat {
    if ColorOf(t) == Red then 0 else PathLength(path) + 1
  }

  lemma DeleteStepDown<N>(path: Path<N>, t: Tree<N>, nil: Color)
    requires t.Node? && t.color == Black && !path.Root?
    ensures var s := DeleteStep(path, t, nil).0;
            s.t.Node? && (s.GoOn? ==> DeleteMeasure(s.path, s.t) < DeleteMeasure(path, t))
    ensures RootBlack(path) ==> RootBlack(DeleteStep(path, t, nil).0.path)
  {
  }

  /** `delete_fixup`, from node `t` at the position: the whole tree afterwards, and it always ends. */
  function DeleteFixup<N>(path: Path<N>, t: Tree<N>, nil: Color): Tree<N>
    requires t.Node?
    decreases DeleteMeasure(path, t)
  {
    if path.Root? || t.color == Red then
      Plug(path, Blacken(t))
    else
      DeleteStepDown(path, t, nil);
      var (s, n) := DeleteStep(path, t, nil);
      if s.GoOn? then DeleteFixup(s.path, s.t, n) else Blacken(Plug(s.path, s.t))
  }

  lemma RotateListing<N>(a: Tree<N>, x: N, k: int, b: Tree<N>, y: N, m: int, d: Tree<N>, rest: seq<Entry<N>>)
    ensures forall c1, c2, c3, c4 ::
              Listing(Node(c1, a, x, k, Node(c2, b, y, m, d)), rest)
              == Listing(Node(c3, Node(c4, a, x, k, b), y, m, d), rest)
  {
    forall c1, c2, c3, c4
      ensures Listing(Node(c1, a, x, k, Node(c2, b, y, m, d)), rest)
           == Listing(Node(c3, Node(c4, a, x, k, b), y, m, d), rest)
    {
      Unfold(c1, a, x, k, Node(c2, b, y, m, d), rest);
      Unfold(c2, b, y, m, d, rest);
      Unfold(c3, Node(c4, a, x, k, b), y, m, d, rest);
      Unfold(c4, a, x, k, b, [Entry(y, m)] + Listing(d, rest));
    }
  }

  /** Moving the position up to the parent, with any colour given to the parent. */
  lemma AroundUp<N>(path: Path<N>, t: Tree<N>, c: Color)
    requires !path.Root?
    ensures Around(path.up, UpOne(path, c, t, Sibling(path))) == Around(path, t)
  {
  }

  lemma AroundSame<N>(path: Path<N>, s: Tree<N>, t: Tree<N>)
    requires Listing(s, After(path)) == Listing(t, After(path))
    ensures Around(path, s) == Around(path, t)
  {
  }

  lemma {:induction false} AwayFromRedInorder<N>(path: Path<N>, t: Tree<N>, nil: Color)
    requires !path.Root?
    ensures Around(AwayFromRed(path, nil).0, t) == Around(path, t)
  {
    var w := Sibling(path);
    var p := AwayFromRed(path, nil).0;
    if Seen(w, nil) == Red && w.Node? {
      AroundUp(path, t, Black);
      AroundUp(p, t, Red);
      AroundUp(p.up, UpOne(p, Red, t, Sibling(p)), Black);
      if path.LeftOf? {
        RotateListing(t, path.item, path.key, w.left, w.item, w.key, w.right, After(path.up));
      } else {
        RotateListing(w.left, w.item, w.key, w.right, path.item, path.key, t, After(path.up));
      }
      assert w == Node(w.color, w.left, w.item, w.key, w.right);
      AroundSame(path.up, UpOne(path, Black, t, w), UpOne(p.up, Black, UpOne(p, Red, t, Sibling(p)), Sibling(p.up)));
    } else {
      AroundUp(path, t, path.color);
      AroundUp(p, t, path.color);
    }
  }

  lemma {:induction false} OuterRedListing<N>(path: Path<N>, nil: Color, rest: seq<Entry<N>>)
    requires !path.Root? && Sibling(path).Node?
    ensures Listing(OuterRed(path, nil), rest) == Listing(Sibling(path), rest)
  {
    var w := Sibling(path);
    var inner, outer := if path.LeftOf? then w.left else w.right, if path.LeftOf? then w.right else w.left;
    if Seen(outer, nil) == Black && inner.Node? {
      assert w == Node(w.color, w.left, w.item, w.key, w.right);
      assert inner == Node(inner.color, inner.left, inner.item, inner.key, inner.right);
      if path.LeftOf? {
        RotateListing(inner.left, inner.item, inner.key, inner.right, w.item, w.key, w.right, rest);
      } else {
        RotateListing(w.left, w.item, w.key, inner.left, inner.item, inner.key, inner.right, rest);
      }
    }
  }

  lemma {:induction false} LiftedListing<N>(path: Path<N>, t: Tree<N>, w: Tree<N>, rest: seq<Entry<N>>)
    requires !path.Root? && w.Node?
    ensures Listing(Lifted(path, t, w), rest) == Listing(UpOne(path, Black, t, w), rest)
  {
    if path.LeftOf? {
      RotateListing(t, path.item, path.key, w.left, w.item, w.key, w.right, rest);
      Unfold(path.color, Node(Black, t, path.item, path.key, w.left), w.item, w.key, w.right, rest);
      Unfold(path.color, Node(Black, t, path.item, path.key, w.left), w.item, w.key, Blacken(w.right), rest);
      BlackenListing(w.right, rest);
    } else {
      var after := [Entry(w.item, w.key)] + Listing(Node(Black, w.right, path.item, path.key, t), rest);
      RotateListing(w.left, w.item, w.key, w.right, path.item, path.key, t, rest);
      Unfold(path.color, w.left, w.item, w.key, Node(Black, w.right, path.item, path.key, t), rest);
      Unfold(path.color, Blacken(w.left), w.item, w.key, Node(Black, w.right, path.item, path.key, t), rest);
      BlackenListing(w.left, after);
    }
    assert w == Node(w.color, w.left, w.item, w.key, w.right);
  }

  lemma UpOneListing<N>(path: Path<N>, c: Color, t: Tree<N>, w: Tree<N>, v: Tree<N>, rest: seq<Entry<N>>)
    requires !path.Root?
    requires forall m :: Listing(w, m) == Listing(v, m)
    ensures Listing(UpOne(path, c, t, w), rest) == Listing(UpOne(path, Black, t, v), rest)
  {
    assert Listing(w, rest) == Listing(v, rest);
    assert path.RightOf? ==> Listing(UpOne(path, c, t, w), rest)
                             == Listing(w, [Entry(path.item, path.key)] + Listing(t, rest));
  }

  lemma {:induction false} RebalanceInorder<N>(path: Path<N>, t: Tree<N>, nil: Color)
    requires !path.Root?
    ensures var s := Rebalance(path, t, nil).0; Around(s.path, s.t) == Around(path, t)
  {
    var w := Sibling(path);
    var s := Rebalance(path, t, nil).0;
    var rest := After(path.up);
    AroundUp(path, t, Black);
    if w.Leaf? {
      UpOneListing(path, s.t.color, t, w, w, rest);
    } else if Seen(w.left, nil) == Black && Seen(w.right, nil) == Black {
      UpOneListing(path, s.t.color, t, w.(color := Red), w, rest);
    } else {
      var o := OuterRed(path, nil);
      LiftedListing(path, t, o, rest);
      forall m ensures Listing(o, m) == Listing(w, m) {
        OuterRedListing(path, nil, m);
      }
      UpOneListing(path, Black, t, o, w, rest);
    }
    AroundSame(path.up, s.t, UpOne(path, Black, t, w));
  }

  /** Fixing up after a removal moves no entry, whatever the colours it meets. */
  lemma {:induction false} DeleteFixupInorder<N>(path: Path<N>, t: Tree<N>, nil: Color)
    requires t.Node?
    ensures Inorder(DeleteFixup(path, t, nil)) == Around(path, t)
    decreases DeleteMeasure(path, t)
  {
    if path.Root? || t.color == Red {
      PlugInorder(path, Blacken(t));
      BlackenListing(t, After(path));
    } else {
      DeleteStepDown(path, t, nil);
      AwayFromRedInorder(path, t, nil);
      var (p, n) := AwayFromRed(path, nil);
      RebalanceInorder(p, t, n);
      var (s, m) := DeleteStep(path, t, nil);
      if s.GoOn? {
        DeleteFixupInorder(s.path, s.t, m);
      } else {
        PlugInorder(s.path, s.t);
        BlackenListing(Plug(s.path, s.t), []);
      }
    }
  }

  lemma {:induction false} PlugRoot<N>(path: Path<N>, t: Tree<N>)
    requires RootBlack(path)
    ensures ColorOf(Plug(path, t)) == if path.Root? then ColorOf(t) else Black
  {
    match path
    case Root =>
    case LeftOf(up, c, x, k, r) => PlugRoot(up, Node(c, t, x, k, r));
    case RightOf(l, c, x, k, up) => PlugRoot(up, Node(c, l, x, k, t));
  }

  lemma {:induction false} DeleteFixupBlackRoot<N>(path: Path<N>, t: Tree<N>, nil: Color)
    requires t.Node? && RootBlack(path)
    ensures ColorOf(DeleteFixup(path, t, nil)) == Black
    decreases DeleteMeasure(path, t)
  {
    if !path.Root? && t.color == Black {
      DeleteStepDown(path, t, nil);
      var (s, n) := DeleteStep(path, t, nil);
      if s.GoOn? {
        DeleteFixupBlackRoot(s.path, s.t, n);
      }
    } else {
      PlugRoot(path, Blacken(t));
    }
  }

  /** The leftmost node of `t`, as a subtree, and its position below `path`. */
  function Leftmost<N>(path: Path<N>, t: Tree<N>): (r: (Path<N>, Tree<N>))
    requires t.Node?
    ensures Plug(r.0, r.1) == Plug(path, t)
    ensures r.1.Node? && r.1.left.Leaf?
    ensures !path.Root? && RootBlack(path) ==> !r.0.Root? && RootBlack(r.0)
    ensures Listing(r.1, After(r.0)) == Listing(t, After(path))
    ensures Before(r.0) == Before(path)
    decreases t
  {
    if t.left.Leaf? then (path, t) else Leftmost(LeftOf(path, t.color, t.item, t.key, t.right), t.left)
  }

  /** `child` takes the spliced-out place; the colour tested is the one of the node that moved. */
  function Splice<N>(path: Path<N>, color: Color, child: Tree<N>): Tree<N> {
    if color == Black && child.Node? then DeleteFixup(path, child, Black) else Plug(path, child)
  }

  /** `RBTREE_Erase` of the node `t` at the position. */
  function EraseAt<N>(path: Path<N>, t: Tree<N>): Tree<N>
    requires t.Node?
  {
    if t.left.Leaf? || t.right.Leaf? then
      Splice(path, t.color, if t.left.Node? then t.left else t.right)
    else
      var y := Leftmost(Root, t.right).1;
      var p := Leftmost(RightOf(t.left, t.color, y.item, y.key, path), t.right).0;
      Splice(p, t.color, y.right)
  }

  lemma {:induction false} LeftmostSame<N>(p: Path<N>, q: Path<N>, t: Tree<N>)
    requires t.Node?
    ensures Leftmost(p, t).1 == Leftmost(q, t).1
    decreases t
  {
    if t.left.Node? {
      LeftmostSame(LeftOf(p, t.color, t.item, t.key, t.right), LeftOf(q, t.color, t.item, t.key, t.right), t.left);
    }
  }

  lemma {:induction false} SpliceInorder<N>(path: Path<N>, color: Color, child: Tree<N>)
    ensures Inorder(Splice(path, color, child)) == Before(path) + Inorder(child) + After(path)
  {
    AroundParts(path, child);
    if color == Black && child.Node? {
      DeleteFixupInorder(path, child, Black);
    } else {
      PlugInorder(path, child);
    }
  }

  /** Erasing a node takes exactly its entry out of the listing. */
  lemma {:induction false} EraseInorder<N>(path: Path<N>, t: Tree<N>)
    requires t.Node?
    ensures Inorder(EraseAt(path, t)) == Before(path) + Inorder(t.left) + Inorder(t.right) + After(path)
  {
    if t.left.Leaf? || t.right.Leaf? {
      SpliceInorder(path, t.color, if t.left.Node? then t.left else t.right);
    } else {
      var y := Leftmost(Root, t.right).1;
      var q := RightOf(t.left, t.color, y.item, y.key, path);
      LeftmostSame(Root, q, t.right);
      var p := Leftmost(q, t.right).0;
      SpliceInorder(p, t.color, y.right);
      BeforeAfterParts(q);
      LeftmostSuffix(q, t.right);
      var e := [Entry(y.item, y.key)];
      Regroup(Before(path), Inorder(t.left), e, Inorder(y.right), After(p), Inorder(t.right), After(path));
    }
  }

  lemma LeftmostSuffix<N>(path: Path<N>, t: Tree<N>)
    requires t.Node?
    ensures var (p, y) := Leftmost(path, t);
            [Entry(y.item, y.key)] + Inorder(y.right) + After(p) == Inorder(t) + After(path)
  {
    var (p, y) := Leftmost(path, t);
    var e := [Entry(y.item, y.key)];
    assert [] + After(path) == After(path);
    ListingAppend(t, [], After(path));
    assert Inorder(t) + After(path) == Listing(t, After(path));
    assert [] + After(p) == After(p);
    ListingAppend(y.right, [], After(p));
    Unfold(y.color, y.left, y.item, y.key, y.right, After(p));
    assert Listing(y, After(p)) == e + (Inorder(y.right) + After(p));
    assert e + (Inorder(y.right) + After(p)) == e + Inorder(y.right) + After(p);
  }

  lemma Regroup<A>(b: seq<A>, l: seq<A>, e: seq<A>, y: seq<A>, p: seq<A>, r: seq<A>, a: seq<A>)
    requires e + y + p == r + a
    ensures (b + l + e) + y + p == b + l + r + a
  {
    assert (b + l + e) + y + p == (b + l) + (e + y + p);
    assert b + l + r + a == (b + l) + (r + a);
  }

  lemma {:induction false} EraseBlackRoot<N>(path: Path<N>, t: Tree<N>)
    requires t.Node? && ColorOf(Plug(path, t)) == Black && RootBlack(path)
    requires path.Root? ==> t.color == Black
    ensures ColorOf(EraseAt(path, t)) == Black
  {
    if t.left.Leaf? || t.right.Leaf? {
      var child := if t.left.Node? then t.left else t.right;
      if t.color == Black && child.Node? {
        DeleteFixupBlackRoot(path, child, Black);
      } else {
        PlugRoot(path, child);
      }
    } else {
      var y := Leftmost(Root, t.right).1;
      var q := RightOf(t.left, t.color, y.item, y.key, path);
      var p := Leftmost(q, t.right).0;
      if t.color == Black && y.right.Node? {
        DeleteFixupBlackRoot(p, y.right, Black);
      } else {
        PlugRoot(p, y.right);
      }
    }
  }

  // ---------------------------------------------------------------- when removal keeps the balance

  /** The node that leaves its place: `t` itself, or the least node of its right subtree. */
  function Spliced<N>(t: Tree<N>): (y: Tree<N>)
    requires t.Node?
    ensures y.Node? && (y.left.Leaf? || y.right.Leaf?)
  {
    if t.left.Leaf? || t.right.Leaf? then t else Leftmost(Root, t.right).1
  }

  /** What a caller can test before the call: the removal of `t` will leave a red-black tree. */
  predicate ErasesSafely<N>(path: Path<N>, t: Tree<N>)
    requires t.Node?
  {
    var y := Spliced(t);
    var inPlace := t.left.Leaf? || t.right.Leaf?;
    || y.color == Red
    || ((y.left.Node? || y.right.Node?) && (inPlace || t.color == Black))
    || (inPlace && path.Root?)
  }

  /** In a tree in order, the one child of a node without the other is a red node without children. */
  lemma OneChildIsRed<N>(y: Tree<N>)
    requires Good(y) && y.Node? && (y.left.Leaf? || y.right.Leaf?)
    ensures var child := if y.left.Node? then y.left else y.right;
            child.Node? ==> child.color == Red && y.color == Black && BlackHeight(child) == 0 && BlackHeight(y) == 1
    ensures BlackHeight(y) == if y.color == Black then 1 else 0
  {
  }

  lemma {:induction false} SpliceRedBlack<N>(path: Path<N>, y: Tree<N>, color: Color)
    requires y.Node? && (y.left.Leaf? || y.right.Leaf?) && RedBlack(Plug(path, y))
    ensures var child := if y.left.Node? then y.left else y.right;
            RedBlack(Splice(path, color, child))
            <==> y.color == Red || (child.Node? && color == Black) || (path.Root? && child.Leaf?)
  {
    var child := if y.left.Node? then y.left else y.right;
    PlugRedBlack(path, y);
    OneChildIsRed(y);
    if color == Black && child.Node? {
      GoodBlacken(child);
      PlugRedBlack(path, Blacken(child));
    } else {
      PlugRedBlack(path, child);
      if y.color == Red {
        AcceptsBlack(path, 0, Red);
      }
    }
  }

  lemma {:induction false} PlugRelabel<N>(path: Path<N>, c: Color, l: Tree<N>, x: N, k: int, y: N, m: int, r: Tree<N>)
    ensures RedBlack(Plug(path, Node(c, l, x, k, r))) <==> RedBlack(Plug(path, Node(c, l, y, m, r)))
  {
    PlugRedBlack(path, Node(c, l, x, k, r));
    PlugRedBlack(path, Node(c, l, y, m, r));
  }

  /**
    Removal from a red-black tree leaves a red-black tree exactly when `ErasesSafely` holds.  It fails
    for a black spliced node without a child (the fix-up is skipped for the sentinel), and for a black
    spliced node with a red child that moves into the place of a red node (the moved node has taken
    over that colour before it is tested).
   */
  lemma {:induction false} EraseRedBlack<N>(path: Path<N>, t: Tree<N>)
    requires t.Node? && RedBlack(Plug(path, t))
    ensures RedBlack(EraseAt(path, t)) <==> ErasesSafely(path, t)
  {
    PlugRedBlack(path, t);
    if t.left.Leaf? || t.right.Leaf? {
      OneChildIsRed(t);
      SpliceRedBlack(path, t, t.color);
    } else {
      var y := Leftmost(Root, t.right).1;
      var q := RightOf(t.left, t.color, y.item, y.key, path);
      LeftmostSame(Root, q, t.right);
      LeftmostDeep(q, t.right);
      var p := Leftmost(q, t.right).0;
      PlugRelabel(path, t.color, t.left, t.item, t.key, y.item, y.key, t.right);
      assert Plug(p, y) == Plug(q, t.right);
      SpliceRedBlack(p, y, t.color);
    }
  }

  lemma {:induction false} LeftmostDeep<N>(path: Path<N>, t: Tree<N>)
    requires t.Node? && !path.Root?
    ensures !Leftmost(path, t).0.Root?
    decreases t
  {
    if t.left.Node? {
      LeftmostDeep(LeftOf(path, t.color, t.item, t.key, t.right), t.left);
    }
  }

  /** A removal that does break the balance: three black nodes, the least one erased. */
  lemma EraseCanUnbalance<N>(a: N, b: N, c: N)
    ensures var right := Node(Black, Leaf, c, 3, Leaf);
            var path := LeftOf(Root, Black, b, 2, right);
            var t := Node(Black, Leaf, a, 1, Leaf);
            RedBlack(Plug(path, t)) && !RedBlack(EraseAt(path, t))
  {
    var path := LeftOf(Root, Black, b, 2, Node(Black, Leaf, c, 3, Leaf));
    var t := Node(Black, Leaf, a, 1, Leaf);
    var right := Node(Black, Leaf, c, 3, Leaf);
    BlackLeaf(a, 1);
    BlackLeaf(c, 3);
    assert Accepts<N>(Root, 2, Black);
    assert Accepts(path, 1, Black);
    PlugRedBlack(path, t);
    EraseRedBlack(path, t);
  }

  lemma BlackLeaf<N>(x: N, k: int)
    ensures Good(Node(Black, Leaf, x, k, Leaf)) && BlackHeight(Node(Black, Leaf, x, k, Leaf)) == 1
  {
  }

  /** `t` without its least node. */
  function WithoutLeast<N>(t: Tree<N>): Tree<N>
    requires t.Node?
  {
    if t.left.Leaf? then t.right else t.(left := WithoutLeast(t.left))
  }

  /** Erasing an entry of a sorted tree: the listing loses that one position. */
  lemma {:induction false} EraseTakesOut<N>(path: Path<N>, t: Tree<N>) returns (i: nat)
    requires t.Node? && Sorted(Inorder(Plug(path, t)))
    ensures var s := Inorder(Plug(path, t));
            && i < |s| && s[i] == Entry(t.item, t.key)
            && Inorder(EraseAt(path, t)) == s[..i] + s[i + 1..]
            && Sorted(Inorder(EraseAt(path, t)))
  {
    EraseInorder(path, t);
    PlugInorder(path, t);
    AroundParts(path, t);
    InorderParts(t);
    var b, l, r, a := Before(path), Inorder(t.left), Inorder(t.right), After(path);
    i := |b + l|;
    TakeOut(b, l, Entry(t.item, t.key), r, a);
  }

  lemma TakeOut<N>(b: seq<Entry<N>>, l: seq<Entry<N>>, e: Entry<N>, r: seq<Entry<N>>, a: seq<Entry<N>>)
    requires Sorted(b + (l + [e] + r) + a)
    ensures var s := b + (l + [e] + r) + a;
            var i := |b + l|;
            s[i] == e && b + l + r + a == s[..i] + s[i + 1..] && Sorted(b + l + r + a)
  {
    var s := b + (l + [e] + r) + a;
    assert s == (b + l) + [e] + (r + a);
    SortedAround(b + l, e, r + a);
    assert b + l + r + a == (b + l) + (r + a);
    JoinSorted(b + l, e.key, r + a);
    assert s[..|b + l|] == b + l;
    assert s[|b + l| + 1..] == r + a;
  }

  lemma JoinSorted<N>(a: seq<Entry<N>>, k: int, b: seq<Entry<N>>)
    requires Sorted(a) && Below(a, k) && Sorted(b) && Above(b, k)
    ensures Sorted(a + b)
  {
  }
}
