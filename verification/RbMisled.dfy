/** What becomes of an insertion that takes a thread for a link. */
module RbMisled {
  import opened RbShape
  import opened RbBalance
  import opened RbHeap
  import opened RbSurgery
  import opened RbSearch
  import opened RbInsert
  import opened RbWhole

  /** A child does not precede its parent on the right side, and no red node has a red child. */
  lemma RightChildIn(e: Env, t: Tree, lo: RbNode, hi: RbNode, x: RbNode, h: nat)
    requires Rep(e, t, lo, hi) && x in Nodes(t) && !x.rightThread && Balanced(t, h)
    ensures x.right != null && x.right in Nodes(t) && !(x.red && x.right.red)
    ensures t.T? && x.right != t.n
  {
    if x in Nodes(t.l) {
      RightChildIn(e, t.l, lo, t.n, x, if t.red then h else h - 1);
    } else if x in Nodes(t.r) {
      RightChildIn(e, t.r, t.n, hi, x, if t.red then h else h - 1);
    } else {
      assert t.r.n in Nodes(t.r);
    }
  }

  lemma WrongIsNoTree(e: Env, s: Tree, x: RbNode, y: RbNode, z: RbNode, dir: Dir, d: Dir)
    requires Wrong(x, y, z, dir, d, e.sent.left) && {x, y, z} <= Nodes(s)
    requires d == Left ==> e.cmp(y.key, z.key) > 0 && e.cmp(x.key, z.key) > 0
    requires dir == Left ==> e.cmp(x.key, y.key) > 0
    ensures !(View(e, Root, s) && RedBlack(s))
  {
    hide Nodes, Ordered, Inorder, Wrong, Rep, TotalOrder;
    if View(e, Root, s) && RedBlack(s) {
      var h: nat :| Balanced(s, h);
      RootView(e, Top(s));
      Split(e, Root, s);
      ViewAnti(e, s);
      if !x.leftThread { LeftChildIn(e, s, e.sent, e.sent, x); }
      if !y.leftThread { LeftChildIn(e, s, e.sent, e.sent, y); }
      if !z.rightThread { RightChildIn(e, s, e.sent, e.sent, z, h); }
      NotWrong(x, y, z, dir, d, e.sent.left, e.cmp);
    }
  }

  lemma ViewAnti(e: Env, t: Tree)
    requires View(e, Root, t)
    ensures forall a, b :: e.cmp(a, b) > 0 <==> e.cmp(b, a) < 0
  {
  }

  lemma NotWrong(x: RbNode, y: RbNode, z: RbNode, dir: Dir, d: Dir, root: RbNode?, cmp: Order)
    requires forall a, b :: cmp(a, b) > 0 <==> cmp(b, a) < 0
    requires d == Left ==> cmp(y.key, z.key) > 0 && cmp(x.key, z.key) > 0
    requires dir == Left ==> cmp(x.key, y.key) > 0
    requires !x.leftThread ==> x.left != null && x.left != root && cmp(x.left.key, x.key) > 0
    requires !y.leftThread ==> y.left != null && y.left != root && cmp(y.left.key, y.key) > 0
    requires !z.rightThread ==> z.right != null && z.right != root && !(z.red && z.right.red)
    ensures !Wrong(x, y, z, dir, d, root)
  {
  }

  /** The tree has exactly the nodes there were and the new one. */
  ghost predicate Adds(s: Tree, was: seq<RbNode>, node: RbNode) {
    Nodes(s) == (set x | x in was) + {node}
  }

  /** The nodes of a wrong edge come in the order of the tree, so no red-black search tree with exactly the nodes
      there were and the new one explains the memory, whatever is claimed of threads. */
  lemma NoTree(e: Env, b: Ctx, node: RbNode)
    requires b.Up? && b.up.Up? && Wrong(node, b.n, b.up.n, b.d, b.up.d, e.sent.left)
    requires b.up.d == Left ==> e.cmp(b.n.key, b.up.n.key) > 0 && e.cmp(node.key, b.up.n.key) > 0
    requires b.d == Left ==> e.cmp(node.key, b.n.key) > 0
    ensures forall s: Tree, noise: set<RbNode> ::
      Adds(s, Before(b) + After(b), node) && RedBlack(s) ==>
        !View(Env(e.sent, e.cmp, false, noise, null, null), Root, s)
  {
    hide View, Inorder, Nodes, Before, After, RedBlack, Wrong, Adds;
    forall s: Tree, noise: set<RbNode> | Adds(s, Before(b) + After(b), node) && RedBlack(s)
      ensures !View(Env(e.sent, e.cmp, false, noise, null, null), Root, s)
    {
      InWant(b, s, node);
      WrongIsNoTree(Env(e.sent, e.cmp, false, noise, null, null), s, node, b.n, b.up.n, b.d, b.up.d);
    }
  }

  lemma InWant(b: Ctx, s: Tree, node: RbNode)
    requires b.Up? && b.up.Up? && Adds(s, Before(b) + After(b), node)
    ensures {node, b.n, b.up.n} <= Nodes(s)
  {
    CNodesFlat(b);
    assert b.n in CNodes(b) && b.up.n in CNodes(b.up);
    assert b.n in Before(b) + After(b) && b.up.n in Before(b) + After(b);
  }

  lemma OrderFacts(e: Env, c: Ctx, t: Tree, dir: Dir, node: RbNode)
    requires View(e, c, t) && t.T? && c.Up?
    requires Between(e.cmp, Below(c, t, dir), node.key, true)
    requires dir == SearchDir(e.cmp, t.n, node.key) && e.cmp(t.n.key, node.key) != 0
    ensures c.d == Left ==> e.cmp(t.n.key, c.n.key) > 0 && e.cmp(node.key, c.n.key) > 0
    ensures dir == Left ==> e.cmp(node.key, t.n.key) > 0
  {
    if c.d == Left {
      HoleBefore(e.cmp, c, t);
      assert c.n in After(c);
      assert c.n in After(Below(c, t, dir));
    }
  }
}
