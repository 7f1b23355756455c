/** Whole runs of insertions and removals on an initialised tree (oslib/src/rbtree.c). */
module RedBlackRuns {
  import opened Common
  import opened RedBlackModel

  datatype Op<N> = Ins(item: N, key: int) | Del(key: int)

  /** One call: `Del` erases the node found under the key, if there is one. */
  function Apply<N>(t: Tree<N>, op: Op<N>): Tree<N>
    requires ColorOf(t) == Black
  {
    match op
    case Ins(x, k) => Insert(t, x, k)
    case Del(k) =>
      var (p, s) := Descend(Root, t, k);
      if s.Leaf? then t else EraseAt(p, s)
  }

  /** The abstract table: an insertion under a key that is taken is refused. */
  function ApplyMap<N>(m: map<int, N>, op: Op<N>): map<int, N> {
    match op
    case Ins(x, k) => if k in m then m else m[k := x]
    case Del(k) => m - {k}
  }

  /** The listing and the table hold the same entries. */
  ghost predicate Lists<N>(s: seq<Entry<N>>, m: map<int, N>) {
    && (forall i :: 0 <= i < |s| ==> s[i].key in m && m[s[i].key] == s[i].item)
    && (forall k :: k in m ==> HasKey(s, k))
  }

  ghost predicate Represents<N>(t: Tree<N>, m: map<int, N>) {
    ColorOf(t) == Black && Sorted(Inorder(t)) && Lists(Inorder(t), m)
  }

  lemma ListsInserted<N>(s: seq<Entry<N>>, m: map<int, N>, i: nat, x: N, k: int)
    requires Lists(s, m) && i <= |s| && !HasKey(s, k)
    ensures Lists(s[..i] + [Entry(x, k)] + s[i..], m[k := x])
  {
    var n := s[..i] + [Entry(x, k)] + s[i..];
    assert n[i] == Entry(x, k);
    assert forall j :: 0 <= j < |n| ==> n[j] == if j < i then s[j] else if j == i then Entry(x, k) else s[j - 1];
    forall key | key in m[k := x] ensures HasKey(n, key) {
      if key != k {
        var j :| 0 <= j < |s| && s[j].key == key;
        assert n[if j < i then j else j + 1].key == key;
      }
    }
  }

  lemma ListsErased<N>(s: seq<Entry<N>>, m: map<int, N>, i: nat)
    requires Lists(s, m) && Sorted(s) && i < |s|
    ensures Lists(s[..i] + s[i + 1..], m - {s[i].key})
  {
    var n := s[..i] + s[i + 1..];
    assert forall j :: 0 <= j < |n| ==> n[j] == if j < i then s[j] else s[j + 1];
    forall key | key in m - {s[i].key} ensures HasKey(n, key) {
      var j :| 0 <= j < |s| && s[j].key == key;
      assert n[if j < i then j else j - 1].key == key;
    }
  }

  lemma {:induction false} InsRepresents<N>(t: Tree<N>, m: map<int, N>, x: N, k: int)
    requires Represents(t, m)
    ensures Represents(Insert(t, x, k), ApplyMap(m, Ins(x, k)))
  {
    DescendFinds(t, k);
    InsertKeepsRedBlack(t, x, k);
    if HasKey(Inorder(t), k) {
      assert k in m;
    } else {
      var i := InsertAdds(t, x, k);
      ListsInserted(Inorder(t), m, i, x, k);
    }
  }

  lemma {:induction false} DelRepresents<N>(t: Tree<N>, m: map<int, N>, k: int)
    requires Represents(t, m)
    ensures Represents(Apply(t, Del(k)), m - {k})
  {
    DescendFinds(t, k);
    var (p, found) := Descend(Root, t, k);
    if found.Leaf? {
      assert m - {k} == m;
    } else {
      var i := EraseTakesOut(p, found);
      PlugRoot(p, found);
      EraseBlackRoot(p, found);
      ListsErased(Inorder(t), m, i);
    }
  }

  function Run<N>(ops: seq<Op<N>>): (t: Tree<N>)
    ensures ColorOf(t) == Black
  {
    if ops == [] then Leaf
    else
      var t := Run(ops[..|ops| - 1]);
      ApplyBlack(t, ops[|ops| - 1]);
      Apply(t, ops[|ops| - 1])
  }

  lemma ApplyBlack<N>(t: Tree<N>, op: Op<N>)
    requires ColorOf(t) == Black
    ensures ColorOf(Apply(t, op)) == Black
  {
    match op
    case Ins(x, k) => InsertKeepsRedBlack(t, x, k);
    case Del(k) =>
      var (p, s) := Descend(Root, t, k);
      if s.Node? {
        PlugRoot(p, s);
        EraseBlackRoot(p, s);
      }
  }

  function RunMap<N>(ops: seq<Op<N>>): map<int, N> {
    if ops == [] then map[] else ApplyMap(RunMap(ops[..|ops| - 1]), ops[|ops| - 1])
  }

  /** After any run, whatever the colours have become, the tree lists exactly the abstract table, in key order. */
  lemma {:induction false} RunRepresents<N>(ops: seq<Op<N>>)
    ensures Represents(Run(ops), RunMap(ops))
  {
    if ops != [] {
      var before := ops[..|ops| - 1];
      RunRepresents(before);
      match ops[|ops| - 1]
      case Ins(x, k) => InsRepresents(Run(before), RunMap(before), x, k);
      case Del(k) => DelRepresents(Run(before), RunMap(before), k);
    }
  }

  /** The calls that keep the balance: insertions, refused removals, and removals of a safe node. */
  predicate Gentle<N>(t: Tree<N>, op: Op<N>) {
    op.Ins? || var (p, s) := Descend(Root, t, op.key); s.Leaf? || ErasesSafely(p, s)
  }

  predicate GentleRun<N>(ops: seq<Op<N>>) {
    ops == [] || (GentleRun(ops[..|ops| - 1]) && Gentle(Run(ops[..|ops| - 1]), ops[|ops| - 1]))
  }

  /** One call on a red-black tree keeps it red-black exactly when it is `Gentle`. */
  lemma {:induction false} ApplyRedBlack<N>(t: Tree<N>, op: Op<N>)
    requires RedBlack(t)
    ensures RedBlack(Apply(t, op)) <==> Gentle(t, op)
  {
    match op
    case Ins(x, k) => InsertKeepsRedBlack(t, x, k);
    case Del(k) =>
      var (p, s) := Descend(Root, t, k);
      if s.Node? {
        EraseRedBlack(p, s);
      }
  }

  /** Runs of gentle calls (all runs of insertions among them) end in a red-black tree of logarithmic height. */
  lemma {:induction false} GentleRunsAreRedBlack<N>(ops: seq<Op<N>>)
    requires GentleRun(ops)
    ensures RedBlack(Run(ops))
    ensures |Inorder(Run(ops))| + 1 >= Power2((Height(Run(ops)) + 1) / 2)
  {
    if ops != [] {
      GentleRunsAreRedBlack(ops[..|ops| - 1]);
      ApplyRedBlack(Run(ops[..|ops| - 1]), ops[|ops| - 1]);
    }
    HeightIsLogarithmic(Run(ops));
  }

  /** Runs of insertions, without any condition: red-black, and of logarithmic height. */
  lemma {:induction false} InsertRunsAreRedBlack<N>(ops: seq<Op<N>>)
    requires forall i :: 0 <= i < |ops| ==> ops[i].Ins?
    ensures RedBlack(Run(ops))
    ensures |Inorder(Run(ops))| + 1 >= Power2((Height(Run(ops)) + 1) / 2)
  {
    InsertionsAreGentle(ops);
    GentleRunsAreRedBlack(ops);
  }

  lemma {:induction false} InsertionsAreGentle<N>(ops: seq<Op<N>>)
    requires forall i :: 0 <= i < |ops| ==> ops[i].Ins?
    ensures GentleRun(ops)
  {
    if ops != [] {
      InsertionsAreGentle(ops[..|ops| - 1]);
    }
  }

  /** The first call of a run that is not gentle destroys the balance. */
  lemma {:induction false} FirstRoughCall<N>(ops: seq<Op<N>>)
    requires ops != [] && GentleRun(ops[..|ops| - 1])
    requires !Gentle(Run(ops[..|ops| - 1]), ops[|ops| - 1])
    ensures !RedBlack(Run(ops))
  {
    GentleRunsAreRedBlack(ops[..|ops| - 1]);
    ApplyRedBlack(Run(ops[..|ops| - 1]), ops[|ops| - 1]);
  }

  // ---------------------------------------------------------------- runs that lose the balance

  lemma RunNext<N>(ops: seq<Op<N>>, op: Op<N>)
    ensures Run(ops + [op]) == Apply(Run(ops), op)
    ensures GentleRun(ops + [op]) <==> GentleRun(ops) && Gentle(Run(ops), op)
  {
    assert (ops + [op])[..|ops + [op]| - 1] == ops;
  }

  function One<N>(c: Color, x: N, k: int): Tree<N> {
    Node(c, Leaf, x, k, Leaf)
  }

  lemma FirstThree<N>(x: N, a: int, b: int, c: int)
    requires a < b < c
    ensures Insert(Leaf, x, b) == One(Black, x, b)
    ensures Insert(One(Black, x, b), x, a) == Node(Black, One(Red, x, a), x, b, Leaf)
    ensures Insert(Node(Black, One(Red, x, a), x, b, Leaf), x, c) == Node(Black, One(Red, x, a), x, b, One(Red, x, c))
  {
    var root := One(Black, x, b);
    assert Descend(Root, root, a) == (LeftOf(Root, Black, x, b, Leaf), Leaf);
    var two := Node(Black, One(Red, x, a), x, b, Leaf);
    var at := RightOf(One(Red, x, a), Black, x, b, Root);
    assert Descend(Root, two, c) == (at, Leaf);
    assert Plug(at, One(Red, x, c)) == Plug(Root, Node(Black, One(Red, x, a), x, b, One(Red, x, c)));
  }

  lemma FourthRecolours<N>(x: N)
    ensures Insert(Node(Black, One(Red, x, 1), x, 2, One(Red, x, 3)), x, 4)
         == Node(Black, One(Black, x, 1), x, 2, Node(Black, Leaf, x, 3, One(Red, x, 4)))
  {
    var t := Node(Black, One(Red, x, 1), x, 2, One(Red, x, 3));
    var up := RightOf(One(Red, x, 1), Black, x, 2, Root);
    assert Descend(Root, t, 4) == Descend(up, One(Red, x, 3), 4) == (RightOf(Leaf, Red, x, 3, up), Leaf);
    var n := One(Red, x, 4);
    assert InsertStep(RightOf(Leaf, Red, x, 3, up), n)
        == GoOn(Root, Node(Red, One(Black, x, 1), x, 2, Node(Black, Leaf, x, 3, n)));
    var red := Node(Red, One(Black, x, 1), x, 2, Node(Black, Leaf, x, 3, n));
    assert InsertFixup(Root, red) == Blacken(Plug(Root, red)) == Blacken(red);
  }

  /** A black leaf is erased: nothing is repaired, for the sentinel takes its place. */
  lemma LeafRun<N>(x: N) returns (ops: seq<Op<N>>)
    ensures ops == [Ins(x, 2), Ins(x, 1), Ins(x, 3), Ins(x, 4), Del(4), Del(1)]
    ensures !RedBlack(Run(ops))
  {
    hide Insert;
    hide Gentle;
    var t2, t3 := Node(Black, One(Red, x, 1), x, 2, Leaf), Node(Black, One(Red, x, 1), x, 2, One(Red, x, 3));
    FirstThree(x, 1, 2, 3);
    FourthRecolours(x);
    var o: seq<Op<N>> := [];
    assert Run(o) == Leaf && GentleRun(o);
    RunNext(o, Ins(x, 2));
    o := o + [Ins(x, 2)];
    RunNext(o, Ins(x, 1));
    o := o + [Ins(x, 1)];
    RunNext(o, Ins(x, 3));
    o := o + [Ins(x, 3)];
    RunNext(o, Ins(x, 4));
    o := o + [Ins(x, 4)];
    InsertionsAreGentle(o);
    LeafTakenOut(x);
    RunNext(o, Del(4));
    o := o + [Del(4)];
    RunNext(o, Del(1));
    ops := o + [Del(1)];
    assert ops[..|ops| - 1] == o;
    FirstRoughCall(ops);
  }

  lemma LeafTakenOut<N>(x: N)
    ensures var t := Node(Black, One(Black, x, 1), x, 2, Node(Black, Leaf, x, 3, One(Red, x, 4)));
            var u := Node(Black, One(Black, x, 1), x, 2, One(Black, x, 3));
            Gentle(t, Del(4)) && Apply(t, Del(4)) == u && !Gentle(u, Del(1))
  {
    var t := Node(Black, One(Black, x, 1), x, 2, Node(Black, Leaf, x, 3, One(Red, x, 4)));
    var u := Node(Black, One(Black, x, 1), x, 2, One(Black, x, 3));
    var up := RightOf(One(Black, x, 1), Black, x, 2, Root);
    var p := RightOf(Leaf, Black, x, 3, up);
    assert Descend(Root, t, 4) == Descend(up, t.right, 4) == (p, One(Red, x, 4));
    assert Plug(p, Leaf) == Plug(up, One(Black, x, 3)) == u;
    assert Descend(Root, u, 1) == (LeftOf(Root, Black, x, 2, One(Black, x, 3)), One(Black, x, 1));
  }

  /** A black node with a red child takes the place and the colour of a red node, and is not repaired. */
  lemma RedPlaceRun<N>(x: N) returns (ops: seq<Op<N>>)
    ensures ops == [Ins(x, 1), Ins(x, 2), Ins(x, 3), Ins(x, 4), Ins(x, 5), Ins(x, 6), Del(4)]
    ensures !RedBlack(Run(ops))
  {
    hide Insert;
    hide Gentle;
    Ascending(x);
    var o: seq<Op<N>> := [];
    assert Run(o) == Leaf;
    RunNext(o, Ins(x, 1));
    o := o + [Ins(x, 1)];
    RunNext(o, Ins(x, 2));
    o := o + [Ins(x, 2)];
    RunNext(o, Ins(x, 3));
    o := o + [Ins(x, 3)];
    RunNext(o, Ins(x, 4));
    o := o + [Ins(x, 4)];
    RunNext(o, Ins(x, 5));
    o := o + [Ins(x, 5)];
    RunNext(o, Ins(x, 6));
    o := o + [Ins(x, 6)];
    InsertionsAreGentle(o);
    RedPlaceRough(x);
    ops := o + [Del(4)];
    assert ops[..|ops| - 1] == o;
    FirstRoughCall(ops);
  }

  /** The trees after 3, 4, 5 and 6 ascending insertions. */
  function Grown<N>(x: N, n: nat): (t: Tree<N>)
    requires 3 <= n <= 6
    ensures ColorOf(t) == Black
  {
    if n == 3 then Node(Black, One(Red, x, 1), x, 2, One(Red, x, 3))
    else if n == 4 then Node(Black, One(Black, x, 1), x, 2, Node(Black, Leaf, x, 3, One(Red, x, 4)))
    else if n == 5 then Node(Black, One(Black, x, 1), x, 2, Node(Black, One(Red, x, 3), x, 4, One(Red, x, 5)))
    else Node(Black, One(Black, x, 1), x, 2, Node(Red, One(Black, x, 3), x, 4, Node(Black, Leaf, x, 5, One(Red, x, 6))))
  }

  lemma Ascending<N>(x: N)
    ensures Insert(Leaf, x, 1) == One(Black, x, 1)
    ensures Insert(One(Black, x, 1), x, 2) == Node(Black, Leaf, x, 1, One(Red, x, 2))
    ensures Insert(Node(Black, Leaf, x, 1, One(Red, x, 2)), x, 3) == Grown(x, 3)
    ensures Insert(Grown(x, 3), x, 4) == Grown(x, 4) && Insert(Grown(x, 4), x, 5) == Grown(x, 5)
    ensures Insert(Grown(x, 5), x, 6) == Grown(x, 6)
  {
    ThirdTurns(x);
    FourthRecolours(x);
    FifthTurns(x);
    SixthRecolours(x);
  }

  lemma ThirdTurns<N>(x: N)
    ensures Insert(Leaf, x, 1) == One(Black, x, 1)
    ensures Insert(One(Black, x, 1), x, 2) == Node(Black, Leaf, x, 1, One(Red, x, 2))
    ensures Insert(Node(Black, Leaf, x, 1, One(Red, x, 2)), x, 3) == Grown(x, 3)
  {
    var one, two := One(Black, x, 1), Node(Black, Leaf, x, 1, One(Red, x, 2));
    var up := RightOf(Leaf, Black, x, 1, Root);
    assert Descend(Root, one, 2) == (up, Leaf);
    assert Plug(up, One(Red, x, 2)) == Plug(Root, two) == two;
    var at := RightOf(Leaf, Red, x, 2, up);
    assert Descend(Root, two, 3) == Descend(up, One(Red, x, 2), 3) == (at, Leaf);
    assert InsertStep(at, One(Red, x, 3)) == Stop(Root, Grown(x, 3));
  }

  lemma FifthTurns<N>(x: N)
    ensures Insert(Grown(x, 4), x, 5) == Grown(x, 5)
  {
    var up := RightOf(One(Black, x, 1), Black, x, 2, Root);
    var at := RightOf(Leaf, Red, x, 4, RightOf(Leaf, Black, x, 3, up));
    assert Descend(Root, Grown(x, 4), 5) == Descend(up, Grown(x, 4).right, 5)
        == Descend(RightOf(Leaf, Black, x, 3, up), One(Red, x, 4), 5) == (at, Leaf);
    var turned := Node(Black, One(Red, x, 3), x, 4, One(Red, x, 5));
    assert InsertStep(at, One(Red, x, 5)) == Stop(up, turned);
    assert Plug(up, turned) == Plug(Root, Grown(x, 5)) == Grown(x, 5);
  }

  lemma SixthRecolours<N>(x: N)
    ensures Insert(Grown(x, 5), x, 6) == Grown(x, 6)
  {
    var up := RightOf(One(Black, x, 1), Black, x, 2, Root);
    var at := RightOf(Leaf, Red, x, 5, RightOf(One(Red, x, 3), Black, x, 4, up));
    assert Descend(Root, Grown(x, 5), 6) == Descend(up, Grown(x, 5).right, 6)
        == Descend(RightOf(One(Red, x, 3), Black, x, 4, up), One(Red, x, 5), 6) == (at, Leaf);
    var red := Grown(x, 6).right;
    assert InsertStep(at, One(Red, x, 6)) == GoOn(up, red);
    assert InsertFixup(up, red) == Blacken(Plug(up, red));
    assert Plug(up, red) == Plug(Root, Grown(x, 6)) == Grown(x, 6);
  }

  lemma RedPlaceRough<N>(x: N)
    ensures !Gentle(Grown(x, 6), Del(4))
  {
    var t := Grown(x, 6);
    var up := RightOf(One(Black, x, 1), Black, x, 2, Root);
    assert Descend(Root, t, 4) == Descend(up, t.right, 4) == (up, t.right);
    assert Spliced(t.right) == Node(Black, Leaf, x, 5, One(Red, x, 6));
  }
}
