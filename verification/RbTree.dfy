/** The tree itself: sentinel, size, and the public operations. */
module RbTree {
  import opened RbShape
  import opened RbBalance
  import opened RbHeap
  import opened RbSurgery
  import opened RbSearch
  import opened RbInsert
  import opened RbRemove
  import opened RbSplice
  import opened RbWalk
  import opened RbWhole
  import opened RbMisled
  import opened RbTangled

  lemma SingleView(e: Env, node: RbNode)
    requires TotalOrder(e.cmp) && e.exact && node != e.sent && SentOk(e, node)
    requires node.leftThread && node.rightThread && !node.red && node.left == node.right == e.sent
    ensures View(e, Root, T(E, false, node, E))
  {
    assert Nodes(E) == {} && Top(E) == null;
    assert LinkOk(e, node, Left, null, e.sent) && LinkOk(e, node, Right, null, e.sent);
    assert Rep(e, E, e.sent, node) && Rep(e, E, node, e.sent);
    assert Rep(e, T(E, false, node, E), e.sent, e.sent);
    assert Inorder(T(E, false, node, E)) == [node];
    FlatRoot(T(E, false, node, E));
  }

  /** make_black on the root. `ok`: the memory has the shape `t`. */
  method PaintRoot(n: RbNode, ghost ok: bool, ghost e: Env, ghost t: Tree)
    requires ok ==> View(e, Root, t) && t.T? && n == t.n
    modifies n`red
    ensures ok ==> View(e, Root, Paint(t, false)) && All(e, Root, Paint(t, false)) == All(e, Root, t)
    ensures !n.red
  {
    hide RepC, Rep, Nodes, TotalOrder, Ordered;
    if ok {
      Split(e, Root, t);
      MkRep(e, Left, t.l, t.red, n, t.r, e.sent, e.sent);
      assert allocated(Nodes(t.l)) && allocated(Nodes(t.r));
      RootView(e, n);
    }
    n.red := false;
    if ok {
      RootView(e, n);
      MkRep(e, Left, t.l, false, n, t.r, e.sent, e.sent);
      Join(e, Root, t, Paint(t, false));
    }
  }

  /** `x` is one of the at most two elements next to where `key` belongs, or has that key. */
  ghost predicate Neighbour(cmp: Order, s: seq<RbNode>, key: Key, x: RbNode) {
    x in s && forall y :: y in s ==>
      !(cmp(x.key, y.key) > 0 && cmp(y.key, key) > 0) && !(cmp(key, y.key) > 0 && cmp(y.key, x.key) > 0)
  }

  /** `node` put into `s` at place `i`. */
  function PutAt(s: seq<RbNode>, i: nat, node: RbNode): (r: seq<RbNode>)
    requires i <= |s|
    ensures |r| == |s| + 1
  { s[..i] + [node] + s[i..] }

  /** `s` with the first occurrence of `x` taken out. */
  function Without(s: seq<RbNode>, x: RbNode): (r: seq<RbNode>) {
    if s == [] then [] else if s[0] == x then s[1..] else [s[0]] + Without(s[1..], x)
  }

  lemma {:induction false} WithoutAt(a: seq<RbNode>, x: RbNode, z: seq<RbNode>)
    requires x !in a
    ensures Without(a + [x] + z, x) == a + z
  {
    var s := a + [x] + z;
    if a == [] {
      assert s[0] == x && s[1..] == z;
    } else {
      WithoutAt(a[1..], x, z);
      assert s[0] == a[0] && s[1..] == a[1..] + [x] + z;
      assert a + z == [a[0]] + (a[1..] + z);
    }
  }

  lemma WithoutKeeps(s: seq<RbNode>, x: RbNode, y: RbNode)
    ensures y in Without(s, x) ==> y in s
    ensures y in s && y != x ==> y in Without(s, x)
  {
  }

  class RbTree {
    const sentinel: RbNode
    const compare: Order
    var size: nat
    ghost var shape: Tree
    /** No removal has disturbed the threads. */
    ghost var exact: bool
    /** The nodes to which a later node's right thread may lead; see Strays. */
    ghost var noisy: set<RbNode>

    ghost function Memory(): Env
      reads this
    { Env(sentinel, compare, exact, noisy, null, null) }

    ghost function Repr(): set<RbNode>
      reads this
    { All(Memory(), Root, shape) }

    /** A red-black search tree over child links, with the size of its key set; threads keep their promise but
        for those that lead to noisy nodes. */
    ghost predicate Valid()
      reads this, Repr()
    {
      View(Memory(), Root, shape) && RedBlack(shape) && size == |Inorder(shape)| && (exact ==> noisy == {})
    }

    /** No stray thread leads to a node that an operation with `key` has to do with. */
    ghost predicate Undisturbed(key: Key)
      reads this
    { forall x :: x in noisy ==> !Neighbour(compare, Contents(), key, x) }

    /** Where every right link leads, child or thread. */
    ghost function Rights(): (r: map<RbNode, RbNode?>)
      reads this, Repr()
    { map x | x in Repr() :: x.right }

    lemma RightsNow()
      ensures Keeps(Rights(), Repr())
    {
    }

    /** The nodes in key order. */
    ghost function Contents(): seq<RbNode>
      reads this
    { Inorder(shape) }

    /** cldm_rbtree_init */
    constructor (compare: Order)
      requires TotalOrder(compare)
      ensures Valid() && exact && Contents() == []
      ensures this.compare == compare && fresh(sentinel) && fresh(Repr())
    {
      this.compare := compare;
      sentinel := new RbNode(Key("", ""));
      size := 0;
      shape := E;
      exact, noisy := true, {};
      new;
      sentinel.leftThread, sentinel.rightThread := true, true;
      assert Balanced(E, 0);
    }

    /** cldm_rbtree_clear */
    method Clear()
      requires Valid()
      modifies this`size, this`shape, this`exact, this`noisy, sentinel`leftThread, sentinel`rightThread
      ensures Valid() && exact && Contents() == []
    {
      sentinel.leftThread, sentinel.rightThread := true, true;
      size := 0;
      shape := E;
      exact, noisy := true, {};
      assert Balanced(E, 0);
    }

    /** cldm_rbtree_empty */
    predicate Empty()
      reads this, sentinel
    { sentinel.leftThread && sentinel.rightThread }

    method InsertFirst(node: RbNode)
      requires Valid() && shape == E && node != sentinel
      modifies this`size, this`shape, this`exact, this`noisy, sentinel, node
      ensures Valid() && exact && Contents() == [node]
    {
      node.left, node.right, node.red, node.leftThread, node.rightThread := sentinel, sentinel, false, true, true;
      sentinel.left := node;
      sentinel.leftThread := false;
      sentinel.right := sentinel;
      size := 1;
      shape := T(E, false, node, E);
      exact, noisy := true, {};
      assert Balanced(shape, 1);
      SingleView(Memory(), node);
    }

    /** The start of the descent, with two nodes above the sentinel made up for the window. */
    method Enter(key: Key) returns (n: RbNode, p: RbNode, gp: RbNode, ggp: RbNode, ghost h: nat)
      requires Valid() && shape.T?
      ensures View(Memory(), Root, shape) && All(Memory(), Root, shape) == Repr() && Flat(Root, shape) == Contents()
      ensures ZBalanced(Root, shape, h) && n == shape.n && p == Par(Memory(), Root)
      ensures Between(compare, Root, key, true) && Window(0, Memory(), Root, shape, key, gp, ggp)
    {
      hide View, All, Flat, Inorder, Rep, RepC, Nodes, CNodes, RepZ, Ordered, TotalOrder,
        Between, Window, Balanced, CBalanced, Par;
      ghost var e := Memory();
      assert Flat(Root, shape) == Contents() by { FlatRoot(shape); }
      assert allocated(All(e, Root, shape));
      gp := new RbNode(Key("", ""));
      gp.left := sentinel;
      ggp := new RbNode(Key("", ""));
      ggp.left := gp;
      h :| Balanced(shape, h);
      StartFacts(e, shape, h, key, gp, ggp);
      Look(e, Root, shape);
      p := sentinel;
      n := sentinel.left;
    }

    /** The descending loop of insertion: rebalances on the way down until it meets the key or the link
        where the key belongs. */
    method Descend(key: Key)
      returns (found: bool, n: RbNode, p: RbNode, gp: RbNode, dir: Dir, ghost c: Ctx, ghost t: Tree, ghost h: nat)
      requires Valid() && shape.T?
      modifies Repr()
      ensures View(Memory(), c, t) && All(Memory(), c, t) == old(Repr()) && Flat(c, t) == old(Contents())
      ensures ZBalanced(c, t, h) && t.T? && n == t.n
      ensures found ==> n.key == key
      ensures !found ==>
        && Kid(t, dir).E? && dir == SearchDir(compare, n, key) && compare(n.key, key) != 0
        && Between(compare, c, key, true)
        && p == Par(Memory(), c) && (t.red ==> c.Up? && !IsRed(c.sib) && gp == Par(Memory(), c.up))
        && Spot(compare, Root, old(shape), key).t == E
        && Bottom(old(Rights()), c, t, dir, Spot(compare, Root, old(shape), key).c)
    {
      hide View, All, Flat, Inorder, Rep, RepC, Nodes, CNodes, RepZ, Ordered, TotalOrder,
        Between, Window, Balanced, CBalanced, Par, Follows, Bottom, Undone, BalIns, Keeps;
      ghost var e, rights, all := Memory(), Rights(), Repr();
      RightsNow();
      assert allocated(all);
      var ggp;
      n, p, gp, ggp, h := Enter(key);
      assert Keeps(rights, all);
      c, t := Root, shape;
      ghost var m, c0, t0 := 0, Root, shape;
      UndoneStart(rights, e, shape, key);
      while true
        invariant View(e, c, t) && All(e, c, t) == old(Repr()) && Flat(c, t) == old(Contents())
        invariant ZBalanced(c, t, h) && t.T? && n == t.n && p == Par(e, c)
        invariant Between(compare, c, key, true) && Window(m, e, c, t, key, gp, ggp)
        invariant Follows(m, compare, key, c, t, c0, t0)
        invariant Spot(compare, c0, t0, key) == Spot(compare, Root, shape, key)
        invariant Undone(rights, m, c, t, t0)
        decreases Steps(h, t, m)
      {
        WindowSteps(m, e, c, t, h, key, gp, ggp);
        UndoneSplit(rights, m, compare, key, c, t, c0, t0);
        assert allocated(All(e, c, t)) && allocated(Nodes(t0));
        ghost var c1, t1, h1, m1 := c, t, h, m;
        c, t, h, m := Visit(n, p, gp, ggp, key, e, c, t, h, m, rights);
        var relation := compare(n.key, key);
        if relation == 0 {
          found, dir := true, Left;
          EqualKeys(e, c, t, n.key, key);
          return;
        }
        dir := if relation > 0 then Right else Left;
        FollowStep(m1, e, c1, t1, h1, c0, t0, key, gp, ggp);
        Look(e, c, t);
        if n.IsThread(dir) {
          found := false;
          BottomReached(rights, m1, e, c1, t1, h1, c0, t0, key, gp, ggp);
          return;
        }
        ggp := gp;
        gp := p;
        p := n;
        n := n.Link(dir);
        StepDown(e, c, t, h, key);
        UndoneStep(rights, m1, compare, key, c1, t1, c0, t0, Zip(c, t), dir);
        h := if t.red then h else h - 1;
        c, t := Below(c, t, dir), Kid(t, dir);
        if m1 != 2 { c0, t0 := Below(c0, t0, dir), Kid(t0, dir); }
      }
    }

    /** make_black(root) at the end of an insertion. `ok`: the memory still is a tree. */
    method BlackenRoot(ghost c: Ctx, ghost t: Tree, ghost h: nat, ghost ok: bool := true)
      requires ok ==> View(Memory(), c, t) && ZBalanced(c, t, h) && Plug(c, t).T?
      requires !ok ==> sentinel.left != null
      modifies this`shape, (if ok then All(Memory(), c, t) else {sentinel.left})`red
      ensures ok ==> View(Memory(), Root, shape) && RedBlack(shape) && Contents() == Flat(c, t)
      ensures ok ==> Repr() == old(All(Memory(), c, t))
      ensures sentinel.left != null && !sentinel.left.red
    {
      hide View, All, Flat, Inorder, Rep, RepC, Nodes, CNodes, RepZ, Ordered, TotalOrder, Balanced, CBalanced, RedBlack;
      ghost var e, w, H := Memory(), Plug(c, t), h;
      if ok {
        UpAll(e, c, t);
        H := PlugBalanced(c, t, h);
        Look(e, Root, w);
        FocusIn(e, Root, w);
      }
      PaintRoot(sentinel.left, ok, e, w);
      if ok {
        BlackRoot(w, H);
        shape := Paint(w, false);
      }
    }

    lemma EmptyShape()
      requires Valid()
      ensures Empty() <==> shape == E
    {
      RootView(Memory(), Top(shape));
    }

    /** An insertion of `node` would take a thread for a link. The plain search for its key ends below a red node
        whose sibling is not red, and that node hangs on the left of a parent without a right child whose right
        thread leads to it, or has a right thread to `node` itself and the key on its left. */
    ghost predicate Ensnares(node: RbNode)
      reads this, Repr()
    { Ensnared(Rights(), Spot(compare, Root, shape, node.key).c, node) }

    /** cldm_rbtree_insert. It adds exactly the new node unless a link test takes a thread for a link, which the
        tree tells before; in that case no red-black search tree with the new node is left. A removal leaves
        threads as they are; after one, the new node may inherit a thread that strays. */
    method Insert(node: RbNode) returns (ok: bool, ghost misled: bool)
      requires Valid() && node != sentinel
      modifies this, Repr(), node
      ensures misled <==> ok && old(Ensnares(node))
      ensures ok <==> forall x :: x in old(Contents()) ==> x.key != node.key
      ensures !misled ==> Valid() && exact == (old(exact) || old(shape) == E)
      ensures !ok ==> Contents() == old(Contents())
      ensures ok && !misled ==>
        exists i :: 0 <= i <= |old(Contents())| && Contents() == PutAt(old(Contents()), i, node)
      ensures !misled ==>
        noisy <= old(noisy) + (if ok && node.rightThread then Stray(Memory(), node, node.right) else {})
      ensures misled ==> forall s: Tree, noise: set<RbNode> ::
        Adds(s, old(Contents()), node) && RedBlack(s) ==>
          !View(Env(sentinel, compare, false, noise, null, null), Root, s)
      ensures node !in old(noisy) && old(Undisturbed(node.key)) ==> !misled
    {
      hide View, All, Flat, Inorder, Rep, RepC, Nodes, CNodes, RepZ, Ordered, TotalOrder, Balanced, CBalanced,
        Between, Before, After, RedBlack, Neighbour, Stray, Bottom, Spot, Ensnared, Adds;
      ghost var was, rights, b := Contents(), Rights(), Spot(compare, Root, shape, node.key).c;
      misled := false;
      EmptyShape();
      FocusIn(Memory(), Root, shape);
      if Empty() {
        assert was == [] by { EmptyInorder(); }
        InsertFirst(node);
        assert Contents() == PutAt(was, 0, node);
        NoSnare(rights, node);
        return true, false;
      }
      var found, n, p, gp, dir;
      ghost var c, t, h;
      found, n, p, gp, dir, c, t, h := Descend(node.key);
      if found {
        FoundInside(c, t);
        BlackenRoot(c, t, h);
        return false, false;
      }
      BottomTells(rights, c, t, dir, b, node);
      HoleView(Memory(), c, t, h, node);
      misled := Misleads(c, t, dir, node);
      if node !in noisy && Undisturbed(node.key) { NotMisled(c, t, h, dir, node); }
      Hang(node, n, p, gp, dir, c, t, h);
      return true, misled;
    }

    lemma NoSnare(rights: map<RbNode, RbNode?>, node: RbNode)
      ensures !Ensnared(rights, Spot(compare, Root, E, node.key).c, node)
    {
    }

    /** Where no stray thread leads to a neighbour of the key, the rebalancing around the new node takes no
        thread for a link. */
    lemma NotMisled(c: Ctx, t: Tree, h: nat, dir: Dir, node: RbNode)
      requires View(Memory(), c, t) && ZBalanced(c, t, h) && t.T? && Flat(c, t) == Contents()
      requires Kid(t, dir).E? && dir == SearchDir(compare, t.n, node.key) && compare(t.n.key, node.key) != 0
      requires Between(compare, c, node.key, true) && node != sentinel && node !in noisy && Undisturbed(node.key)
      ensures node !in All(Memory(), c, t) && !Misleads(c, t, dir, node)
    {
      hide RepZ, Rep, RepC, Nodes, CNodes, Flat, Inorder, Ordered, Balanced, CBalanced;
      var e := Memory();
      HoleView(e, c, t, h, node);
      OuterNeighbour(e, c, t, node.key, dir);
      QuietRead(e, c, t);
      if t.red && dir == Left { LeafThreadRead(e, c, t, node); }
    }

    /** The parent of the hole is a neighbour of the key. */
    lemma OuterNeighbour(e: Env, c: Ctx, t: Tree, key: Key, dir: Dir)
      requires View(e, c, t) && t.T? && Kid(t, dir).E? && dir == SearchDir(e.cmp, t.n, key) && e.cmp(t.n.key, key) != 0
      requires Between(e.cmp, c, key, true)
      ensures Neighbour(e.cmp, Flat(c, t), key, t.n)
    {
      hide RepZ, Rep, RepC, Ordered, TotalOrder, Neighbour, Inorder;
      FlatAround(c, t);
      EmptyInorder();
      ViewOrder(e, c, t);
      NextTo(e.cmp, Before(c) + Inorder(t.l), t.n, Inorder(t.r) + After(c), key);
    }

    lemma NextTo(cmp: Order, a: seq<RbNode>, n: RbNode, z: seq<RbNode>, key: Key)
      requires TotalOrder(cmp) && Ordered(cmp, a + [n] + z)
      requires if cmp(n.key, key) > 0 then forall y :: y in z ==> cmp(y.key, key) < 0
               else forall y :: y in a ==> cmp(y.key, key) > 0
      ensures Neighbour(cmp, a + [n] + z, key, n)
    {
      OrderedSplit(cmp, a + [n], z);
      OrderedSplit(cmp, a, [n]);
      assert n in [n] && n in a + [n];
      forall y | y in a + [n] + z
        ensures !(cmp(n.key, y.key) > 0 && cmp(y.key, key) > 0) && !(cmp(key, y.key) > 0 && cmp(y.key, n.key) > 0)
      {
        assert Via(n.key, key, y.key) && Via(y.key, key, n.key);
      }
    }

    /** The thread of a parent with the new node on its left leads to the node only if that is noisy. */
    lemma LeafThreadRead(e: Env, c: Ctx, t: Tree, node: RbNode)
      requires View(e, c, t) && t.T? && e.odd == null && node !in e.noisy && node !in All(e, c, t)
      requires e.cmp(t.n.key, node.key) < 0
      ensures t.r.E? ==> t.n.right != node
    {
      if t.r.E? {
        assert LinkOk(e, t.n, Right, null, Bound(e, c, Right));
        BoundIn(e, c, Right);
      }
    }

    /** The new node takes the place the descent has found, unless a link test is misread. Read off the links before
        they are written: it will have a stray thread exactly if it comes to hang on the right, is not lifted by a
        double rotation, and the thread it inherits leads to a node before it. */
    method Hang(node: RbNode, n: RbNode, p: RbNode, gp: RbNode, dir: Dir, ghost c: Ctx, ghost t: Tree, ghost h: nat)
      requires node != sentinel && size == |Flat(c, t)| && (exact ==> noisy == {})
      requires View(Memory(), c, t) && ZBalanced(c, t, h) && t.T? && n == t.n && node !in All(Memory(), c, t)
      requires Kid(t, dir).E? && dir == SearchDir(compare, n, node.key) && compare(n.key, node.key) != 0
      requires Between(compare, c, node.key, true)
      requires p == Par(Memory(), c) && (t.red ==> c.Up? && !IsRed(c.sib) && gp == Par(Memory(), c.up))
      modifies this`shape, this`size, this`noisy, All(Memory(), c, t), node
      ensures forall x :: x in Flat(c, t) ==> x.key != node.key
      ensures !old(Misleads(c, t, dir, node)) ==>
        && Valid() && Repr() == old(All(Memory(), c, t)) + {node}
        && (exists i :: 0 <= i <= |Flat(c, t)| && Contents() == PutAt(Flat(c, t), i, node))
        && (exact ==> noisy == {})
        && noisy <= old(noisy) + (if node.rightThread then Stray(Memory(), node, node.right) else {})
        && (!exact ==> (View(Memory().(noisy := old(noisy)), Root, shape) <==>
              dir == Left || Doubles(Below(c, t, dir)) || Stray(Memory(), node, old(n.right)) <= old(noisy)))
      ensures old(Misleads(c, t, dir, node)) ==> forall s: Tree, noise: set<RbNode> ::
        Adds(s, Flat(c, t), node) && RedBlack(s) ==> !View(Env(sentinel, compare, false, noise, null, null), Root, s)
    {
      hide View, All, Flat, Inorder, Rep, RepC, Nodes, CNodes, RepZ, Ordered, TotalOrder, Balanced, CBalanced,
        Between, Before, After, RedBlack, Adds, Wrong;
      ghost var was, e0, calm, misled := Flat(c, t), Memory(), noisy, Misleads(c, t, dir, node);
      ghost var b := Below(c, t, dir);
      ghost var e := if exact then e0 else Pinned(e0, node, Inherited(n, dir));
      if !exact {
        PinView(e0, node, Inherited(n, dir), c, t);
        if c.Up? { PinPar(e0, node, Inherited(n, dir), c.up); }
      }
      ViewOrder(e, c, t);
      HoleView(e, c, t, h, node);
      if misled { OrderFacts(e, c, t, dir, node); }
      ghost var z, h' := Attach(node, n, p, gp, dir, e, c, t, h);
      AbsentBetween(e, b, node.key);
      ghost var w, H := Settle(e, z, h', b, node, misled);
      Finish(e, w, H, !misled, node, n, p, dir, c);
      if misled {
        NoTree(e, b, node);
      } else {
        PlacedAt(was, Before(b), node, After(b));
        InsideShape(shape, Before(b), node, After(b));
        if !exact { StrayIff(Memory(), shape, calm, node, n, dir, e.aim); }
      }
    }

    lemma PlacedAt(was: seq<RbNode>, a: seq<RbNode>, node: RbNode, z: seq<RbNode>)
      requires was == a + z
      ensures exists i :: 0 <= i <= |was| && a + [node] + z == PutAt(was, i, node)
      ensures |a + [node] + z| == |was| + 1
    {
      assert was[..|a|] == a && was[|a|..] == z;
      assert a + [node] + z == PutAt(was, |a|, node);
    }

    /** Whether the new node, below `n`, has a stray thread. */
    lemma StrayIff(e: Env, t: Tree, calm: set<RbNode>, node: RbNode, n: RbNode, dir: Dir, aim: RbNode?)
      requires !e.exact && e.odd == null && View(e, Root, t) && node in Nodes(t)
      requires e.noisy == calm + (if node.rightThread then Stray(e, node, node.right) else {})
      requires node.rightThread ==> node.right == aim
      requires dir == Left ==> aim == n && e.cmp(n.key, node.key) <= 0
      ensures View(e.(noisy := calm), Root, t) <==> dir == Left || !node.rightThread || Stray(e, node, aim) <= calm
    {
      OldNoise(e, t, calm, node);
    }

    /** The root is painted black, which mends no wrong edge, and the new node counted; if it has a stray thread, that
        is taken note of. */
    method Finish(ghost e: Env, ghost w: Tree, ghost H: nat, ghost ok: bool, ghost node: RbNode, ghost y: RbNode,
                  ghost z: RbNode, ghost dir: Dir, ghost c: Ctx)
      requires e == if exact then Memory() else Pinned(Memory(), node, e.aim)
      requires ok ==> View(e, Root, w) && ZBalanced(Root, w, H) && w.T? && node in Nodes(w)
      requires !ok ==> c.Up? && sentinel.left != null && Wrong(node, y, z, dir, c.d, null)
      modifies this`shape, this`size, this`noisy, (if ok then All(e, Root, w) else {sentinel.left})`red
      ensures ok ==> View(Memory(), Root, shape) && RedBlack(shape) && Contents() == Flat(Root, w)
      ensures ok ==> Repr() == All(e, Root, w) && size == old(size) + 1
      ensures ok ==>
        noisy == old(noisy) + (if !exact && node.rightThread then Stray(Memory(), node, node.right) else {})
      ensures ok && !exact ==> (node.rightThread ==> node.right == e.aim)
      ensures !ok ==> Wrong(node, y, z, dir, c.d, sentinel.left)
    {
      hide View, All, Flat, Inorder, Balanced, CBalanced, RedBlack, Nodes;
      if ok && !exact {
        PinnedThread(e, w);
        noisy := noisy + (if node.rightThread then Stray(Memory(), node, e.aim) else {});
        UnpinView(e, w, noisy);
      }
      if ok { assert allocated(Nodes(w)); }
      BlackenRoot(Root, w, H, ok);
      size := size + 1;
    }

    /** The whole tree once the new node hangs in it. */
    lemma Settle(e: Env, z: Zip, h: nat, b: Ctx, node: RbNode, misled: bool) returns (w: Tree, H: nat)
      requires ZBalanced(z.c, z.t, h) && z.t.T? && Flat(z.c, z.t) == Before(b) + [node] + After(b)
      requires (RedTop(b) ==> b.up.Up?) && z == BalIns(b, T(E, false, node, E))
      requires !misled ==> View(e, z.c, z.t)
      ensures w == Plug(z.c, z.t) && w.T? && ZBalanced(Root, w, H) && node in Nodes(w)
      ensures Inorder(w) == Flat(Root, w) == Before(b) + [node] + After(b)
      ensures !misled ==> View(e, Root, w) && All(e, Root, w) == All(e, z.c, z.t)
      ensures !misled ==> (node.rightThread <==> !Doubles(b))
    {
      hide View, All, Flat, Inorder, Nodes, Balanced, Before, After;
      Lifts(b, node);
      FlatPlug(z.c, z.t);
      w := Plug(z.c, z.t);
      H := PlugBalanced(z.c, z.t, h);
      PlugNonempty(z.c, z.t);
      InsideShape(w, Before(b), node, After(b));
      RootZ(w, H);
      FlatRoot(w);
      if !misled {
        Look(e, z.c, z.t);
        assert node.IsThread(Right) == Kid(z.t, Right).E?;
        UpAll(e, z.c, z.t);
      }
    }

    lemma RootZ(t: Tree, h: nat)
      requires Balanced(t, h)
      ensures ZBalanced(Root, t, h)
    {
    }

    lemma PinPar(e: Env, x: RbNode, aim: RbNode?, c: Ctx)
      ensures Par(Pinned(e, x, aim), c) == Par(e, c)
    {
    }

    lemma InsideShape(t: Tree, a: seq<RbNode>, n: RbNode, z: seq<RbNode>)
      requires Inorder(t) == a + [n] + z
      ensures n in Nodes(t)
    {
      InorderNodes(t);
      assert n in a + [n] + z;
    }

    /** The new node ends up with children on both sides if it is lifted, and with none otherwise. */
    lemma Lifts(b: Ctx, node: RbNode)
      requires RedTop(b) ==> b.up.Up?
      ensures var z := BalIns(b, T(E, false, node, E)); z.t.T? && z.t.n == node && (z.t.r.E? <==> !Doubles(b))
    {
    }

    lemma PinnedThread(e: Env, t: Tree)
      requires !e.exact && e.odd != null && View(e, Root, t) && e.odd in Nodes(t)
      ensures e.odd.rightThread ==> e.odd.right == e.aim != null
    {
      PinnedIn(e, t, e.sent, e.sent);
    }

    lemma PinnedIn(e: Env, t: Tree, lo: RbNode, hi: RbNode)
      requires !e.exact && e.odd != null && Rep(e, t, lo, hi) && e.odd in Nodes(t)
      ensures e.odd.rightThread ==> e.odd.right == e.aim != null
    {
    }

    /** Without the exception for the new node's thread, the promise is kept exactly if that thread is no stray. */
    lemma OldNoise(e: Env, t: Tree, calm: set<RbNode>, node: RbNode)
      requires !e.exact && e.odd == null && View(e, Root, t) && node in Nodes(t)
      requires e.noisy == calm + (if node.rightThread then Stray(e, node, node.right) else {})
      ensures View(e.(noisy := calm), Root, t) <==> (node.rightThread ==> Stray(e, node, node.right) <= calm)
    {
      StraysView(e, t, calm);
      if node.rightThread { StrayIn(e, t, e.sent, e.sent, node); }
      if node.rightThread ==> Stray(e, node, node.right) <= calm {
        assert e.noisy == calm && e.(noisy := calm) == e;
      }
    }

    lemma StrayIn(e: Env, t: Tree, lo: RbNode, hi: RbNode, x: RbNode)
      requires Rep(e, t, lo, hi) && x in Nodes(t) && x.rightThread
      ensures Stray(e, x, x.right) <= Strays(e, t, lo)
    {
    }

    /** The descending loop of removal. It ends at an empty hole; the node with the key, if met, is the first
        one to the right of the hole. A plain search ends at the same node, and what it finds there tells whether
        the last link test will meet a thread. */
    method Seek(key: Key)
      returns (found: RbNode?, p: RbNode, gp: RbNode, dir: Dir, ghost c: Ctx, ghost h: nat)
      requires Valid() && !exact
      modifies Repr()
      ensures View(Memory(), c, E) && All(Memory(), c, E) == old(Repr()) && Flat(c, E) == old(Contents())
      ensures ZBalanced(c, E, h) && Loose(c, E) && Hunt(Memory(), c, key, found)
      ensures p == Par(Memory(), c) && dir == HoleDir(c) && (c.Up? ==> gp == Par(Memory(), c.up))
      ensures var spot := Spot(compare, Root, old(shape), key);
        if found == null then spot.t == E
        else spot.t.T? && found == spot.t.n && c.Up? && (Misread(c.up, c.n) <==> Stuck(old(Rights()), spot.c, spot.t))
    {
      hide View, All, Flat, Inorder, Rep, RepC, Nodes, CNodes, RepZ, Ordered, TotalOrder, Balanced, CBalanced,
        Hunt, Loose, BalRem, Trail, Course, Stuck, Spot, Keeps;
      ghost var e, rights, spot := Memory(), Rights(), Spot(compare, Root, shape, key);
      RightsNow();
      assert Flat(Root, shape) == Contents() by { FlatRoot(shape); }
      h :| Balanced(shape, h);
      SeekStart(e, shape, h, key);
      RootNodes(e, shape);
      TrailStart(rights, e, shape, h, key);
      assert allocated(All(e, Root, shape)) && allocated(Nodes(shape));
      gp := new RbNode(Key("", ""));
      gp.left := sentinel;
      Look(e, Root, shape);
      p := sentinel;
      var n: RbNode? := sentinel.left;
      found, dir := null, Left;
      ghost var t, c0 := shape, Root;
      c := Root;
      while !p.IsThread(dir)
        invariant View(e, c, t) && All(e, c, t) == old(Repr()) && Flat(c, t) == old(Contents())
        invariant ZBalanced(c, t, h) && Loose(c, t) && Hunt(e, c, key, found)
        invariant p == Par(e, c) && dir == HoleDir(c) && (c.Up? ==> gp == Par(e, c.up))
        invariant p.IsThread(dir) == t.E? && (t.T? ==> n == t.n)
        invariant Trail(rights, compare, key, c, t, h, c0, found, spot)
        decreases Weight(h, t)
      {
        ghost var f0 := found;
        ghost var h' := PassedFacts(e, c, t, h, key, found);
        Look(e, c, t);
        var relation := compare(n.key, key);
        if relation == 0 {
          found := n;
        }
        dir := if relation > 0 then Right else Left;
        ghost var z := Passed(c, t, dir);
        assert allocated(All(e, c, t)) && allocated(Nodes(Kid(t, dir)));
        BlackFlanks(c, t, h);
        TrailBlack(rights, compare, key, c, t, h, c0, f0, spot, dir);
        TrailNode(rights, compare, key, c, t, h, c0, f0, spot, dir);
        ViewOrder(e, c, t);
        if !n.red && !n.IsRedSafe(dir) {
          p := BalanceOnWay(n, p, gp, dir, e, c, t, rights);
        }
        TrailStep(rights, e, key, c, t, h, c0, f0, spot);
        BelowPlug(z.c, z.t, dir);
        c, t, h, c0 := Below(z.c, z.t, dir), Kid(z.t, dir), h', Below(c0, t, dir);
        Down1(e, c, t);
        Look(e, c, t);
        gp := p;
        p := n;
        n := n.Link(dir);
      }
      TrailEnd(rights, compare, key, c, h, c0, found, spot);
    }

    /** Below a black node no link test of removal can meet a thread. */
    lemma BlackFlanks(c: Ctx, t: Tree, h: nat)
      requires ZBalanced(c, t, h) && t.T?
      ensures !t.red ==> !Misread(c, t.n) && (c.Up? ==> !Misread(c.up, c.n))
    {
      if !t.red {
        HeightFlanks(c, h, 2);
        if c.Up? { assert Flanked(c.up, 1); }
      }
    }

    /** Removing the node with the key would take a thread for a link. */
    ghost predicate Entangles(key: Key)
      reads this, Repr()
    { exists x :: x in Repr() && x in Contents() && x.key == key && Tangled(Repr(), Contents(), x) }

    /** cldm_rbtree_remove. It takes exactly the node with the key out unless the last link test takes a thread for
        a link, which the tree tells before; in that case the memory is no search tree without the node afterwards.
        This takes a stray thread to the node with the key or to its predecessor. */
    method Remove(key: Key) returns (found: RbNode?, ghost misled: bool)
      requires Valid()
      modifies this, Repr()
      ensures misled <==> old(Entangles(key))
      ensures found == null ==> Contents() == old(Contents()) && forall x :: x in Contents() ==> x.key != key
      ensures found != null ==> found.key == key && found in old(Contents())
      ensures !misled ==> Valid() && noisy <= old(noisy) && (!exact ==> noisy == Strays(Memory(), shape, sentinel))
      ensures found != null && !misled ==> Contents() == Without(old(Contents()), found)
      ensures misled ==> found != null && forall s: Tree, noise: set<RbNode> ::
        Inorder(s) == Without(old(Contents()), found) ==>
          !View(Env(sentinel, compare, false, noise, null, null), Root, s)
      ensures old(Undisturbed(key)) ==> !misled
    {
      hide View, All, Flat, Inorder, Rep, RepC, Nodes, CNodes, RepZ, Ordered, TotalOrder, Balanced, CBalanced,
        Hunt, Loose, Before, After, RedBlack, FrameOf, Place, Victim, Cut, Neighbour, Without;
      misled := false;
      if sentinel.left == null {
        NoRoot();
        if !exact { Survey(); }
        return null, false;
      }
      Disturb();
      ghost var was := Contents();
      Foretell(key);
      var p, gp, dir;
      ghost var c, h;
      found, p, gp, dir, c, h := Seek(key);
      ghost var e := Memory();
      SeekEnd(e, c, h, key, found);
      if found != null {
        misled := Misread(c.up, p);
        if Undisturbed(key) { CalmEnd(c, h, key, found); }
        HoleFacts(e, c);
        CutOne(compare, Before(c), After(c));
        EndIn(e, c, gp, found);
        Detach(found, p, gp, dir, c, h);
        if !misled { RootIn(e, Cut(c), E); }
        FinishRemoval(!misled, Cut(c), 0);
        size := size - 1;
        if misled { NoShape(found, p, gp, Without(was, found)); } else { Survey(); }
      } else {
        RootIn(e, c, E);
        FinishRemoval(true, c, h);
        Survey();
      }
    }

    /** Whether a removal is going to be misled, told by a plain search. */
    lemma Foretell(key: Key)
      requires Valid()
      ensures var spot := Spot(compare, Root, shape, key);
        Entangles(key) <==> spot.t.T? && Stuck(Rights(), spot.c, spot.t)
    {
      hide View, All, Flat, Inorder, Stuck, Tangled, Spot, Between;
      var e, spot := Memory(), Spot(compare, Root, shape, key);
      var h: nat :| Balanced(shape, h);
      FindStart(e, shape, h, key);
      assert Flat(Root, shape) == Contents() by { FlatRoot(shape); }
      var h' := SpotView(e, Root, shape, h, key);
      if spot.t.T? {
        RightsNow();
        TangledIsStuck(e, Rights(), spot.c, spot.t, h');
        FoundInside(spot.c, spot.t);
        FocusIn(e, spot.c, spot.t);
        forall x | x in Contents() && x.key == key
          ensures x == spot.t.n
        {
          OneNode(e, spot.c, spot.t, x);
        }
      }
    }

    lemma NoRoot()
      requires Valid() && sentinel.left == null
      ensures Contents() == []
    {
      RootView(Memory(), Top(shape));
    }

    /** From here on threads are only promised to be harmless. */
    ghost method Disturb()
      requires Valid()
      modifies this`exact
      ensures Valid() && !exact && Repr() == old(Repr())
    {
      WeakView(Memory(), shape);
      exact := false;
    }

    /** Takes note of the stray threads there are, and of no others. */
    ghost method Survey()
      requires Valid() && !exact
      modifies this`noisy
      ensures Valid() && noisy == Strays(Memory(), shape, sentinel) && noisy <= old(noisy)
    {
      StraysView(Memory(), shape, Strays(Memory(), shape, sentinel));
      StraysView(Memory(), shape, noisy);
      assert Memory().(noisy := noisy) == Memory();
      StraysSame(Memory(), Strays(Memory(), shape, sentinel), shape, sentinel);
      noisy := Strays(Memory(), shape, sentinel);
    }

    /** Takes the node found out of the tree, with the last node of the path in its place, unless misled. */
    method Detach(found: RbNode, p: RbNode, gp: RbNode, dir: Dir, ghost c: Ctx, ghost h: nat)
      requires !exact && View(Memory(), c, E) && ZBalanced(c, E, h) && c.Up? && c.sib == E
      requires After(c) != [] && found == After(c)[0] && p == c.n && dir == c.d && gp == Par(Memory(), c.up)
      modifies All(Memory(), c, E)
      ensures !old(Misread(c.up, p)) ==> View(Memory(), Cut(c), E) && Flat(Cut(c), E) == Before(c) + After(c)[1..]
      ensures !old(Misread(c.up, p)) ==> All(Memory(), Cut(c), E) <= old(All(Memory(), c, E))
      ensures old(Misread(c.up, p)) ==> Torn(sentinel, found, p, gp) && gp != p && sentinel.left != null
      ensures old(Misread(c.up, p)) ==> sentinel.left in old(All(Memory(), c, E))
    {
      hide View, All, Flat, Inorder, Rep, RepC, Nodes, CNodes, RepZ, Ordered, TotalOrder, Before, After,
        FrameOf, Place, Victim, Cut, ZBalanced;
      ghost var e := Memory();
      ghost var ok := !Misread(c.up, p);
      CutCast(c);
      ghost var x := PlaceView(e, c);
      PlaceFacts(e, Place(c), x);
      RightTest(e, Place(c), x);
      PlaceFlanked(c, h);
      Up1(e, c, E);
      RightTest(e, c.up, Plug1(c, E));
      HoleFacts(e, c);
      assert allocated(CNodes(c)) && allocated(Par(e, Place(c)));
      var fparent := FindParentOf(sentinel, found, compare, e, Place(c));
      var fdir := if fparent.right == found then Right else Left;
      var gpdir := if gp.right == p then Right else Left;
      if !ok { MisledFacts(e, c, found, p, gp, fparent); }
      Splice(sentinel, found, p, gp, fparent, dir, fdir, gpdir, e, c, ok);
      if ok { CutView(e, c); }
    }

    /** Where the node found is not the leaf, it hangs too high up for its parent to be misread. */
    lemma PlaceFlanked(c: Ctx, h: nat)
      requires ZBalanced(c, E, h) && c.Up? && (c.d == Right ==> FrameOf(c.up).Up?)
      ensures !Misread(c.up, c.n) ==> !Misread(Place(c), Victim(c))
      ensures c.d == Right ==> !Misread(Place(c), Victim(c))
    {
      if c.d == Right {
        var hf := FrameHeight(c.up, if c.red then h else h + 1);
        HeightFlanks(Place(c), hf, 1);
      }
    }

    lemma FrameHeight(u: Ctx, hu: nat) returns (hf: nat)
      requires CBalanced(u, hu) && (RedTop(u) ==> hu > 0) && FrameOf(u).Up?
      ensures hf > 0 && CBalanced(FrameOf(u).up, hf)
      decreases u
    {
      hf := if u.red then hu else hu + 1;
      if u.d == Right { hf := FrameHeight(u.up, hf); }
    }

    lemma MisledFacts(e: Env, c: Ctx, found: RbNode, p: RbNode, gp: RbNode, fparent: RbNode)
      requires View(e, c, E) && c.Up? && c.sib == E && Misread(c.up, c.n) && p == c.n && gp == Par(e, c.up)
      requires (c.d == Right ==> FrameOf(c.up).Up?) && found == Victim(c) && fparent == Par(e, Place(c))
      ensures c.up.Up? && gp != p && fparent != p && !gp.leftThread && gp.left == gp.right == p
      ensures if p == found then fparent == gp && c.d == Left else gp == found && fparent != found && c.d == Right
      ensures {found, p, gp} <= CNodes(c) && fparent in CNodes(c) + {e.sent} && (p == found ==> fparent != e.sent)
      ensures e.sent.left != null && e.sent.left in All(e, c, E)
    {
      hide Rep, Ordered, TotalOrder;
      Split(e, c, E);
      Up1(e, c, E);
      Look(e, c.up, Plug1(c, E));
      ParIn(e, c.up.up);
      CtxApart(e, c);
      UpAll(e, c, E);
      PlugNonempty(c.up, Plug1(c, E));
      Look(e, Root, Plug(c, E));
      FocusIn(e, Root, Plug(c, E));
    }

    /** The leaf stays in the tree, or its parent does. */
    lemma EndIn(e: Env, c: Ctx, gp: RbNode, found: RbNode)
      requires c.Up? && gp == Par(e, c.up)
      ensures c.n in Before(c) + After(c) && (c.up.Up? ==> gp in Before(c) + After(c))
      ensures c.n != found ==> c.n in Without(Before(c) + After(c), found)
      ensures c.up.Up? && gp != found ==> gp in Without(Before(c) + After(c), found)
    {
      CNodesFlat(c);
      WithoutKeeps(Before(c) + After(c), found, c.n);
      if c.up.Up? { WithoutKeeps(Before(c) + After(c), found, c.up.n); }
    }

    /** The leaf and the node found are neighbours of the key, so no stray thread leads to the leaf. */
    lemma CalmEnd(c: Ctx, h: nat, key: Key, found: RbNode)
      requires View(Memory(), c, E) && Flat(c, E) == Contents() && c.Up? && c.sib == E && Undisturbed(key)
      requires After(c) != [] && After(c)[0] == found && found.key == key
      ensures !Misread(c.up, c.n)
    {
      hide Rep, RepC, Inorder;
      var e := Memory();
      HoleFacts(e, c);
      LeafNeighbour(e, c, key, found);
      Up1(e, c, E);
      QuietRead(e, c.up, Plug1(c, E));
    }

    lemma LeafNeighbour(e: Env, c: Ctx, key: Key, found: RbNode)
      requires TotalOrder(e.cmp) && Ordered(e.cmp, Before(c) + After(c)) && c.Up? && c.sib == E
      requires After(c) != [] && After(c)[0] == found && found.key == key
      ensures Neighbour(e.cmp, Before(c) + After(c), key, c.n)
    {
      hide TotalOrder, Ordered, Neighbour;
      if c.d == Right {
        assert Before(c) == Before(c.up) + [c.n];
        assert Before(c) + After(c) == Before(c.up) + [c.n] + [found] + After(c)[1..];
        Predecessor(e.cmp, Before(c.up), c.n, found, After(c)[1..]);
      } else {
        assert c.n in After(c);
        OwnKey(e.cmp, Before(c) + After(c), c.n);
      }
    }

    lemma OwnKey(cmp: Order, s: seq<RbNode>, x: RbNode)
      requires TotalOrder(cmp) && x in s
      ensures Neighbour(cmp, s, x.key, x)
    {
    }

    lemma Predecessor(cmp: Order, a: seq<RbNode>, x: RbNode, found: RbNode, z: seq<RbNode>)
      requires TotalOrder(cmp) && Ordered(cmp, a + [x] + [found] + z)
      ensures Neighbour(cmp, a + [x] + [found] + z, found.key, x)
    {
      assert a + [x] + [found] + z == a + [x] + ([found] + z);
      OrderedSplit(cmp, a + [x], [found] + z);
      OrderedSplit(cmp, a, [x]);
      OrderedSplit(cmp, [found], z);
      assert x in [x] && x in a + [x] && found in [found] && found in [found] + z;
    }

    lemma CutOne(cmp: Order, a: seq<RbNode>, z: seq<RbNode>)
      requires TotalOrder(cmp) && Ordered(cmp, a + z) && z != []
      ensures Without(a + z, z[0]) == a + z[1..] && z[0] in a + z
      ensures z[0] !in Without(a + z, z[0])
    {
      OrderedSplit(cmp, a, z);
      assert z == [z[0]] + z[1..] && z[0] in z;
      OrderedSplit(cmp, [z[0]], z[1..]);
      assert z[0] in [z[0]];
      assert a + z == a + [z[0]] + z[1..];
      WithoutAt(a, z[0], z[1..]);
    }

    /** Torn memory is no tree without the node found, whatever is claimed of its threads. */
    lemma NoShape(found: RbNode, p: RbNode, gp: RbNode, want: seq<RbNode>)
      requires Torn(sentinel, found, p, gp) && found !in want && if p == found then gp in want else p in want
      ensures forall s: Tree, noise: set<RbNode> ::
        Inorder(s) == want ==> !View(Env(sentinel, compare, false, noise, null, null), Root, s)
    {
      forall s: Tree, noise: set<RbNode> | Inorder(s) == want
        ensures !View(Env(sentinel, compare, false, noise, null, null), Root, s)
      {
        var e := Env(sentinel, compare, false, noise, null, null);
        if View(e, Root, s) {
          InorderNodes(s);
          Split(e, Root, s);
          LeftChildIn(e, s, sentinel, sentinel, if p == found then gp else p);
        }
      }
    }

    lemma HoleFacts(e: Env, c: Ctx)
      requires View(e, c, E)
      ensures RepC(e, c, null) && e.sent !in CNodes(c) && TotalOrder(e.cmp) && Ordered(e.cmp, Before(c) + After(c))
      ensures All(e, c, E) == CNodes(c) + {e.sent}
    {
      hide Rep, RepC, TotalOrder, Ordered;
      Split(e, c, E);
      assert Flat(c, E) == Before(c) + After(c);
      ViewOrder(e, c, E);
      NodesE();
    }

    lemma CutCast(c: Ctx)
      requires c.Up? && c.sib == E && After(c) != []
      ensures c.d == Right ==> FrameOf(c.up).Up? && FrameOf(c.up).d == Left
      ensures Victim(c) == After(c)[0]
    {
      CutFlat(c);
      AfterFrame(c.up);
    }

    lemma SeekEnd(e: Env, c: Ctx, h: nat, key: Key, found: RbNode?)
      requires View(e, c, E) && Loose(c, E) && ZBalanced(c, E, h) && Hunt(e, c, key, found)
      ensures Flat(c, E) == Before(c) + After(c)
      ensures found == null ==> forall x :: x in Flat(c, E) ==> x.key != key
      ensures found != null ==> c.Up? && c.sib == E && After(c) != [] && After(c)[0] == found
      ensures found != null ==> found.key == key && ZBalanced(Cut(c), E, 0)
    {
      hide View, Ordered, TotalOrder, Balanced, CBalanced, Between, Cut;
      HoleFacts(e, c);
      assert Flat(c, E) == Before(c) + After(c);
      if found == null {
        HuntAbsent(e, c, key);
      } else {
        HuntFirst(e, c, key, found);
        assert found.key == key;
        LeafEnd(c, h);
      }
    }

    /** cldm_rbtree_find; `comparisons` counts the calls of the comparison. */
    method Find(key: Key) returns (r: RbNode?, ghost comparisons: nat)
      requires Valid()
      ensures r == null ==> forall x :: x in Contents() ==> x.key != key
      ensures r != null ==> r in Contents() && r.key == key
      ensures r == Top(Spot(compare, Root, shape, key).t)
      ensures Pow2(comparisons) <= (|Contents()| + 1) * (|Contents()| + 1)
    {
      hide View, All, Flat, Inorder, Rep, RepC, Nodes, CNodes, RepZ, Ordered, TotalOrder, Balanced, CBalanced,
        Between;
      ghost var e := Memory();
      assert Flat(Root, shape) == Contents() by { FlatRoot(shape); }
      ghost var H: nat :| Balanced(shape, H);
      ghost var c, t, h := Root, shape, H;
      Look(e, Root, shape);
      FindStart(e, shape, H, key);
      comparisons := 0;
      var p: RbNode := sentinel;
      var n: RbNode? := sentinel.left;
      var dir := Left;
      while !p.IsThread(dir)
        invariant View(e, c, t) && Flat(c, t) == Contents() && ZBalanced(c, t, h) && Between(compare, c, key, true)
        invariant Spot(compare, c, t, key) == Spot(compare, Root, shape, key)
        invariant p.IsThread(dir) == t.E? && (t.T? ==> n == t.n)
        invariant comparisons + Weight(h, t) <= 2 * H
        decreases Weight(h, t)
      {
        Look(e, c, t);
        HeavyTop(c, t, h);
        var relation := compare(n.key, key);
        comparisons := comparisons + 1;
        if relation == 0 {
          EqualKeys(e, c, t, n.key, key);
          FoundInside(c, t);
          Logarithmic(shape, H, comparisons);
          return n, comparisons;
        }
        dir := if relation > 0 then Right else Left;
        StepDown(e, c, t, h, key);
        c, t, h := Below(c, t, dir), Kid(t, dir), if t.red then h else h - 1;
        Look(e, c, t);
        p := n;
        n := n.Link(dir);
      }
      BetweenAbsent(e, c, t, key);
      Logarithmic(shape, H, comparisons);
      return null, comparisons;
    }

    lemma FindStart(e: Env, t: Tree, h: nat, key: Key)
      requires Balanced(t, h) && !IsRed(t)
      ensures ZBalanced(Root, t, h) && Between(e.cmp, Root, key, true) && Par(e, Root) == e.sent
    {
    }

    lemma HeavyTop(c: Ctx, t: Tree, h: nat)
      requires ZBalanced(c, t, h) && t.T?
      ensures if t.red then !IsRed(t.l) && !IsRed(t.r) else h > 0
    {
    }

    /** cldm_rbtree_for_each: walks from the leftmost node along successors to the sentinel. */
    method ForEach() returns (visited: seq<RbNode>)
      requires Valid() && exact
      ensures visited == Contents()
      ensures forall i, j :: 0 <= i < j < |visited| ==> compare(visited[i].key, visited[j].key) > 0
    {
      hide View, All, Inorder, Rep, Nodes, TotalOrder, RedBlack, Ordered;
      ghost var e := Memory();
      RootFacts();
      visited := [];
      if size == 0 {
        return;
      }
      FirstIn(shape);
      assert allocated(Nodes(shape));
      var iter := Leftmost(sentinel.left, e, shape, sentinel, sentinel);
      while iter != sentinel
        invariant Rep(e, shape, sentinel, sentinel)
        invariant |visited| <= |Contents()| && visited == Contents()[..|visited|]
        invariant iter == if |visited| < |Contents()| then Contents()[|visited|] else sentinel
        decreases |Contents()| - |visited|
      {
        ghost var i := |visited|;
        ghost var sub, slo, shi := SuccessorAt(e, shape, sentinel, sentinel, i);
        visited := visited + [iter];
        iter := Successor(iter, e, NextOf(Contents(), i, sentinel), sub, slo, shi);
      }
    }

    lemma RootFacts()
      requires Valid()
      ensures Rep(Memory(), shape, sentinel, sentinel) && (shape.T? <==> size > 0)
      ensures shape.T? ==> sentinel.left == shape.n
      ensures forall i :: 0 <= i < |Contents()| ==> Contents()[i] != sentinel
      ensures size == |Contents()|
      ensures forall i, j :: 0 <= i < j < |Contents()| ==> compare(Contents()[i].key, Contents()[j].key) > 0
    {
      Split(Memory(), Root, shape);
      RootView(Memory(), Top(shape));
      InorderNodes(shape);
    }

    /** The end of removal: the root, if there is one, is painted black. `ok`: the memory still is a tree. */
    method FinishRemoval(ghost ok: bool, ghost c: Ctx, ghost h: nat)
      requires ok ==> View(Memory(), c, E) && ZBalanced(c, E, h)
      requires !ok ==> sentinel.left != null
      modifies this`shape, (if !sentinel.leftThread && sentinel.left != null then {sentinel.left} else {})`red
      ensures ok ==> View(Memory(), Root, shape) && RedBlack(shape) && Contents() == Flat(c, E)
      ensures ok ==> Repr() == old(All(Memory(), c, E))
    {
      hide View, All, Flat, Inorder, RedBlack;
      ghost var e, w := Memory(), Plug(c, E);
      if ok {
        UpAll(e, c, E);
        Look(e, Root, w);
      }
      if !sentinel.IsThread(Left) {
        PaintRoot(sentinel.left, ok, e, w);
        if ok {
          ghost var H := PlugBalanced(c, E, h);
          BlackRoot(w, H);
          shape := Paint(w, false);
        }
      } else if ok {
        shape := E;
        BlackRoot(E, 0);
      }
    }
  }

  /** The nodes of a context are different ones. */
  lemma CtxApart(e: Env, c: Ctx)
    requires RepC(e, c, null) && c.Up? && c.up.Up? && e.sent !in CNodes(c)
    ensures c.n != c.up.n && c.n != Par(e, c.up.up) && c.up.n != Par(e, c.up.up)
    ensures c.n != e.sent && c.up.n != e.sent && CNodes(c.up.up) <= CNodes(c) && c.up.n in CNodes(c) && c.n in CNodes(c)
  {
    ParIn(e, c.up.up);
  }
}
