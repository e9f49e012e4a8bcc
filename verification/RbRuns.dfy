/** Runs that go wrong. The first operation and the last are those of the tree; in between, where the memory they
    leave matters, the descents are written out, with their link tests and their writes. */
module RbRuns {
  import opened RbShape
  import opened RbBalance
  import opened RbHeap
  import opened RbSurgery
  import opened RbSearch
  import opened RbInsert
  import opened RbRemove
  import opened RbSplice
  import opened RbWhole
  import opened RbTangled
  import opened RbTree

  /** Insert b behind the root a, remove b. On the way to b no node is rebalanced; both link tests see the right
      child; and the writes leave `a` with a thread to itself, so that a walk along successors never ends. */
  method SelfThread(cmp: Order, sentinel: RbNode, a: RbNode, b: RbNode)
    requires TotalOrder(cmp) && a != b && sentinel !in {a, b} && cmp(a.key, b.key) > 0
    requires a.leftThread && a.rightThread && a.left == a.right == sentinel && !a.red
    modifies a, b
    ensures a.leftThread && a.left == sentinel && a.rightThread && a.right == a && !a.red
  {
    HangLinks(b, a, Right, Env(sentinel, cmp, true, {}, null, null), null, sentinel, sentinel);
    b.red := true;
    assert a.IsRedSafe(if cmp(a.key, b.key) > 0 then Right else Left);
    var fdir := if a.right == b then Right else Left;
    var gpdir := if a.right == b then Right else Left;
    Assignments(sentinel, b, b, a, a, Left, fdir, gpdir);
  }

  /** Insert c behind the root a: it gets whatever thread `a` has. */
  method HangBehind(cmp: Order, sentinel: RbNode, a: RbNode, c: RbNode)
    requires TotalOrder(cmp) && a != c && sentinel !in {a, c} && cmp(a.key, c.key) > 0
    requires a.leftThread && a.left == sentinel && a.rightThread && a.right == a && !a.red
    modifies a, c
    ensures a.leftThread && a.left == sentinel && !a.rightThread && a.right == c && !a.red
    ensures c.leftThread && c.left == a && c.rightThread && c.right == a && c.red
  {
    HangIn(c, a, Right);
    c.red := true;
  }

  /** Insert a, insert b behind it, remove b, insert c behind a: the thread of `a` to itself is now that of `c`. The
      tree is valid, with a stray thread to `a`. */
  method StrayThread(cmp: Order, a: RbNode, b: RbNode, c: RbNode) returns (tree: RbTree)
    requires TotalOrder(cmp) && a != b && a != c && cmp(a.key, b.key) > 0 && cmp(a.key, c.key) > 0
    modifies a, b, c
    ensures fresh(tree) && fresh(tree.sentinel) && tree.compare == cmp && tree.Valid() && !tree.exact
    ensures tree.shape == T(E, false, a, T(E, true, c, E)) && tree.noisy == {a} && tree.Contents() == [a, c]
    ensures tree.Repr() == {a, c, tree.sentinel}
    ensures a.leftThread && a.left == tree.sentinel && !a.rightThread && a.right == c && !a.red
    ensures c.leftThread && c.left == a && c.rightThread && c.right == a && c.red && SentOk(tree.Memory(), a)
  {
    hide View, RedBlack, Nodes, Inorder, Ordered, All, TotalOrder, Stray, Spot, Ensnared;
    tree := new RbTree(cmp);
    var ok, misled := tree.Insert(a);
    assert tree.Contents() == [a];
    Alone(tree, a);
    SelfThread(cmp, tree.sentinel, a, b);
    HangBehind(cmp, tree.sentinel, a, c);
    tree.size, tree.shape, tree.exact, tree.noisy := 2, T(E, false, a, T(E, true, c, E)), false, {a};
    PairRight(tree.Memory(), a, c);
    RootNodes(tree.Memory(), tree.shape);
  }

  lemma Alone(tree: RbTree, a: RbNode)
    requires tree.Valid() && tree.exact && tree.Contents() == [a]
    ensures a.leftThread && a.rightThread && a.left == a.right == tree.sentinel && !a.red && a != tree.sentinel
    ensures SentOk(tree.Memory(), a)
  {
    hide View;
    OneNodeShape(tree.shape, a);
    Look(tree.Memory(), Root, tree.shape);
    RootView(tree.Memory(), a);
    Split(tree.Memory(), Root, tree.shape);
  }

  lemma OneNodeShape(t: Tree, a: RbNode)
    requires Inorder(t) == [a]
    ensures t == T(E, t.red, a, E)
  {
    assert |Inorder(t)| == |Inorder(t.l)| + 1 + |Inorder(t.r)|;
    SomeInorder(t.l);
    SomeInorder(t.r);
    assert Inorder(t)[0] == t.n;
  }

  lemma SomeInorder(t: Tree)
    ensures Inorder(t) == [] ==> t == E
  {
  }

  /** Two nodes in the memory, the right one red. */
  lemma PairRight(e: Env, a: RbNode, c: RbNode)
    requires TotalOrder(e.cmp) && e.cmp(a.key, c.key) > 0 && !e.exact && e.odd == null && e.noisy == {a}
    requires e.sent !in {a, c} && a != c && SentOk(e, a)
    requires !a.red && a.leftThread && a.left == e.sent && !a.rightThread && a.right == c
    requires c.red && c.leftThread && c.left == a && c.rightThread && c.right == a
    ensures var t := T(E, false, a, T(E, true, c, E)); View(e, Root, t) && RedBlack(t) && Inorder(t) == [a, c]
    ensures Nodes(T(E, false, a, T(E, true, c, E))) == {a, c}
  {
    var k := T(E, true, c, E);
    OwnTie(e.cmp, a);
    PairFacts(c, a);
    LeafRep(e, c, a, e.sent);
    assert LinkOk(e, a, Left, null, e.sent) && LinkOk(e, a, Right, c, e.sent);
    assert Rep(e, E, e.sent, a);
    MkRep(e, Left, E, false, a, k, e.sent, e.sent);
    PairView(e, T(E, false, a, k), a, c);
  }

  /** Two nodes in the memory, the left one red. */
  lemma PairLeft(e: Env, a: RbNode, c: RbNode)
    requires TotalOrder(e.cmp) && e.cmp(a.key, c.key) > 0 && !e.exact && e.odd == null && e.noisy == {a}
    requires e.sent !in {a, c} && a != c && SentOk(e, c)
    requires a.red && a.leftThread && a.left == e.sent && a.rightThread && a.right == c
    requires !c.red && !c.leftThread && c.left == a && c.rightThread && c.right == a
    ensures var t := T(T(E, true, a, E), false, c, E); View(e, Root, t) && RedBlack(t) && Inorder(t) == [a, c]
    ensures Nodes(T(T(E, true, a, E), false, c, E)) == {a, c}
  {
    var k := T(E, true, a, E);
    assert e.cmp(c.key, a.key) <= 0;
    PairFacts(a, c);
    LeafRep(e, a, e.sent, c);
    assert LinkOk(e, c, Left, a, e.sent) && LinkOk(e, c, Right, null, e.sent);
    assert Rep(e, E, c, e.sent);
    MkRep(e, Left, k, false, c, E, e.sent, e.sent);
    PairView(e, T(k, false, c, E), a, c);
  }

  lemma PairFacts(x: RbNode, y: RbNode)
    ensures var k := T(E, true, x, E); Nodes(k) == {x} && Nodes(E) == {} && Inorder(k) == [x] && Inorder(E) == []
    ensures var k := T(E, true, x, E); RedBlack(T(E, false, y, k)) && RedBlack(T(k, false, y, E))
    ensures var k := T(E, true, x, E); Inorder(T(E, false, y, k)) == [y, x] && Inorder(T(k, false, y, E)) == [x, y]
  {
    var k := T(E, true, x, E);
    assert Inorder(E) == [];
    assert Balanced(k, 0) && Balanced(E, 0);
    assert Balanced(T(E, false, y, k), 1) && Balanced(T(k, false, y, E), 1);
  }

  lemma PairView(e: Env, t: Tree, a: RbNode, c: RbNode)
    requires TotalOrder(e.cmp) && e.cmp(a.key, c.key) > 0 && Inorder(t) == [a, c] && Nodes(t) == {a, c}
    requires Rep(e, t, e.sent, e.sent) && t.T? && SentOk(e, t.n) && e.sent !in {a, c}
    ensures View(e, Root, t)
  {
    hide Rep, TotalOrder, Nodes, Inorder;
    FlatRoot(t);
    RootView(e, t.n);
  }

  /** Then remove a. The descent to it rotates `c` above it, and both link tests find it in the right link of `c`,
      although it is the left child. What is left is no search tree without it. */
  method StaleDirection(cmp: Order, a: RbNode, b: RbNode, c: RbNode) returns (tree: RbTree, ghost misled: bool)
    requires TotalOrder(cmp) && a != b && a != c && cmp(a.key, b.key) > 0 && cmp(a.key, c.key) > 0
    modifies a, b, c
    ensures misled && forall s: Tree, noise: set<RbNode> ::
      Inorder(s) == [c] ==> !View(Env(tree.sentinel, cmp, false, noise, null, null), Root, s)
  {
    hide View, RedBlack, Inorder, Ordered, TotalOrder, Strays;
    tree := StrayThread(cmp, a, b, c);
    assert tree.Contents()[1 - 1] == a && tree.Contents()[1] == c;
    assert c in tree.Repr() && a in tree.Repr();
    assert Tangled(tree.Repr(), tree.Contents(), a);
    assert tree.Entangles(a.key);
    assert Without([a, c], a) == [c];
    assert a in [a, c] && (c.key == a.key ==> cmp(a.key, a.key) > 0);
    var found;
    ghost var was := tree.Contents();
    found, misled := tree.Remove(a.key);
    OnlyKey(cmp, a, c);
    assert found == a;
  }

  lemma OnlyKey(cmp: Order, a: RbNode, c: RbNode)
    requires TotalOrder(cmp) && cmp(a.key, c.key) > 0
    ensures a.key != c.key
  {
  }

  /** Or remove a key before a, which is absent, but rotates c above a, and insert d between a and c: the link test
      at `c` finds `a` in its right link, and the rotation goes the wrong way. What is left is no red-black search
      tree with the three of them. */
  method StaleRotation(cmp: Order, a: RbNode, b: RbNode, c: RbNode, d: RbNode)
    returns (tree: RbTree, ghost misled: bool)
    requires TotalOrder(cmp) && a != b && a != c && cmp(a.key, b.key) > 0 && cmp(a.key, c.key) > 0
    requires d !in {a, b, c} && cmp(a.key, d.key) > 0 && cmp(d.key, c.key) > 0
    modifies a, b, c, d
    ensures misled && forall s: Tree, noise: set<RbNode> :: Nodes(s) == {a, c, d} && RedBlack(s) ==>
      !View(Env(tree.sentinel, cmp, false, noise, null, null), Root, s)
  {
    hide View, RedBlack, Inorder, Ordered, TotalOrder, Strays, Stray, Spot, Ensnared;
    tree := StrayThread(cmp, a, b, c);
    RemoveAbsent(tree, a, c);
    SpotBetween(cmp, a, c, d.key);
    TrapSet(tree.Rights(), a, c, d);
    assert tree.Ensnares(d);
    var ok;
    ok, misled := tree.Insert(d);
  }

  /** Remove a key before the root `a`, which has a right child only: that is rotated above it. */
  method RemoveAbsent(tree: RbTree, a: RbNode, c: RbNode)
    requires tree.Valid() && !tree.exact && tree.shape == T(E, false, a, T(E, true, c, E)) && tree.noisy == {a}
    requires a != c && tree.sentinel !in {a, c} && TotalOrder(tree.compare) && tree.compare(a.key, c.key) > 0
    requires a.leftThread && a.left == tree.sentinel && !a.rightThread && a.right == c && !a.red
    requires c.leftThread && c.left == a && c.rightThread && c.right == a && c.red && SentOk(tree.Memory(), a)
    requires tree.Contents() == [a, c]
    modifies tree`shape, a, c, tree.sentinel
    ensures tree.Valid() && tree.shape == T(T(E, true, a, E), false, c, E) && c.right == a
    ensures tree.Contents() == [a, c] && tree.Repr() == {a, c, tree.sentinel}
  {
    hide View, RedBlack, Inorder, Ordered, TotalOrder, Nodes, All;
    var sentinel := tree.sentinel;
    assert !a.red && !a.IsRedSafe(Left) && a.IsRedSafe(Right);
    var pdir := if sentinel.right == a then Right else Left;
    TurnOver(a, c, Left);
    sentinel.SetLink(pdir, c);
    tree.shape := T(T(E, true, a, E), false, c, E);
    PairLeft(tree.Memory(), a, c);
    RootNodes(tree.Memory(), tree.shape);
  }

  lemma TrapSet(rights: map<RbNode, RbNode?>, a: RbNode, c: RbNode, d: RbNode)
    requires c in rights && rights[c] == a
    ensures Ensnared(rights, Up(Right, true, a, E, Up(Left, false, c, E, Root)), d)
  {
  }

  lemma SpotBetween(cmp: Order, a: RbNode, c: RbNode, key: Key)
    requires TotalOrder(cmp) && cmp(a.key, key) > 0 && cmp(key, c.key) > 0
    ensures Spot(cmp, Root, T(T(E, true, a, E), false, c, E), key) ==
      Zip(Up(Right, true, a, E, Up(Left, false, c, E, Root)), E)
    ensures key != a.key && key != c.key
  {
    var t := T(T(E, true, a, E), false, c, E);
    assert SearchDir(cmp, c, key) == Left && SearchDir(cmp, a, key) == Right;
    assert Spot(cmp, Root, t, key) == Spot(cmp, Below(Root, t, Left), t.l, key);
    assert Spot(cmp, Below(Root, t, Left), t.l, key) == Spot(cmp, Below(Below(Root, t, Left), t.l, Right), E, key);
  }
}
