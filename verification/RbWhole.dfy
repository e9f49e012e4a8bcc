/** Facts about a whole tree, seen from any place in it. */
module RbWhole {
  import opened RbShape
  import opened RbBalance
  import opened RbHeap
  import opened RbSurgery

  /** Follows every red-black rule, with a black root. */
  ghost predicate RedBlack(t: Tree) { !IsRed(t) && exists h: nat :: Balanced(t, h) }

  lemma UpAll(e: Env, c: Ctx, t: Tree)
    requires View(e, c, t)
    ensures View(e, Root, Plug(c, t)) && All(e, Root, Plug(c, t)) == All(e, c, t)
    ensures Inorder(Plug(c, t)) == Flat(c, t)
    decreases c
  {
    hide View, All;
    FlatPlug(c, t);
    if c.Up? {
      Up1(e, c, t);
      UpAll(e, c.up, Plug1(c, t));
    }
  }

  lemma FlatRoot(t: Tree)
    ensures Flat(Root, t) == Inorder(t)
  {
  }

  lemma RootNodes(e: Env, t: Tree)
    ensures All(e, Root, t) == Nodes(t) + {e.sent}
  {
  }

  lemma BlackRoot(t: Tree, h: nat)
    requires Balanced(t, h)
    ensures RedBlack(Paint(t, false)) && Inorder(Paint(t, false)) == Inorder(t)
  {
    assert Balanced(Paint(t, false), if IsRed(t) then h + 1 else h);
  }

  lemma RootIn(e: Env, c: Ctx, t: Tree)
    requires View(e, c, t)
    ensures !e.sent.leftThread ==> e.sent.left != null && e.sent.left in All(e, c, t)
  {
    hide View, All;
    UpAll(e, c, t);
    Look(e, Root, Plug(c, t));
    FocusIn(e, Root, Plug(c, t));
  }

  /** A left link that is no thread leads to a node of the tree that comes before. */
  lemma LeftChildIn(e: Env, t: Tree, lo: RbNode, hi: RbNode, x: RbNode)
    requires Rep(e, t, lo, hi) && x in Nodes(t) && !x.leftThread
    ensures x.left != null && x.left in Nodes(t)
    ensures Ordered(e.cmp, Inorder(t)) ==> e.cmp(x.left.key, x.key) > 0
    ensures t.T? && x.left != t.n
  {
    InorderNodes(t.l);
    InorderNodes(t.r);
    if Ordered(e.cmp, Inorder(t)) {
      OrderedSplit(e.cmp, Inorder(t.l) + [t.n], Inorder(t.r));
      OrderedSplit(e.cmp, Inorder(t.l), [t.n]);
    }
    if x in Nodes(t.l) {
      LeftChildIn(e, t.l, lo, t.n, x);
    } else if x in Nodes(t.r) {
      LeftChildIn(e, t.r, t.n, hi, x);
    } else {
      assert t.l.n in Nodes(t.l) && t.n in [t.n];
    }
  }

  lemma EmptyInorder()
    ensures Inorder(E) == []
  {
  }

  lemma PlugNonempty(c: Ctx, t: Tree)
    requires t.T?
    ensures Plug(c, t).T?
    decreases c
  {
  }

  lemma RootDown(e: Env, c: Ctx, t: Tree)
    requires View(e, c, t) && t.T?
    ensures !e.sent.leftThread
  {
    hide View;
    UpAll(e, c, t);
    PlugNonempty(c, t);
    Look(e, Root, Plug(c, t));
  }

  lemma FoundInside(c: Ctx, t: Tree)
    requires t.T?
    ensures t.n in Flat(c, t) && Plug(c, t).T?
    decreases c
  {
    PlugNonempty(c, t);
  }
}
