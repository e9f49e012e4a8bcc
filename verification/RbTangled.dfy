/** What can be told before a removal: when its last link test is going to take a thread for a link. */
module RbTangled {
  import opened RbShape
  import opened RbBalance
  import opened RbHeap
  import opened RbSurgery
  import opened RbSearch
  import opened RbInsert
  import opened RbRemove
  import opened RbSplice
  import opened RbWhole

  /** `y` comes right after `x`. */
  ghost predicate Successive(s: seq<RbNode>, x: RbNode, y: RbNode) {
    exists i :: 0 < i < |s| && s[i - 1] == x && s[i] == y
  }

  /** `x` has no left child and its successor, without a right child, has a right thread back to `x`; or `x` has a
      left child only, and its own right thread leads to that child. */
  ghost predicate Tangled(nodes: set<RbNode>, s: seq<RbNode>, x: RbNode)
    reads nodes, x
  {
    if x.leftThread then exists y :: y in nodes && Successive(s, x, y) && y.rightThread && y.right == x
    else x.rightThread && x.right == x.left
  }

  /** A plain search keeps the view, and knows what it has found. */
  lemma SpotView(e: Env, c: Ctx, t: Tree, h: nat, key: Key) returns (h': nat)
    requires View(e, c, t) && ZBalanced(c, t, h) && Between(e.cmp, c, key, true)
    ensures var z := Spot(e.cmp, c, t, key);
      && View(e, z.c, z.t) && ZBalanced(z.c, z.t, h') && Flat(z.c, z.t) == Flat(c, t)
      && All(e, z.c, z.t) == All(e, c, t)
      && if z.t.T? then z.t.n.key == key else forall x :: x in Flat(c, t) ==> x.key != key
    decreases t
  {
    hide View, All, Flat, Balanced, CBalanced, Between;
    h' := h;
    if t.E? {
      BetweenAbsent(e, c, t, key);
    } else if e.cmp(t.n.key, key) == 0 {
      EqualKeys(e, c, t, t.n.key, key);
    } else {
      var d := SearchDir(e.cmp, t.n, key);
      StepDown(e, c, t, h, key);
      h' := SpotView(e, Below(c, t, d), Kid(t, d), if t.red then h else h - 1, key);
    }
  }

  lemma BetweenAbsent(e: Env, c: Ctx, t: Tree, key: Key)
    requires View(e, c, t) && t.E? && Between(e.cmp, c, key, true)
    ensures forall x :: x in Flat(c, t) ==> x.key != key
  {
  }

  /** No two nodes have the same key. */
  lemma OneNode(e: Env, c: Ctx, t: Tree, x: RbNode)
    requires View(e, c, t) && t.T? && x in Flat(c, t) && x.key == t.n.key
    ensures x == t.n
  {
    var s := Flat(c, t);
    FlatAround(c, t);
    var i := |Before(c) + Inorder(t.l)|;
    assert s[i] == t.n;
    var j :| 0 <= j < |s| && s[j] == x;
  }

  /** The node after `x` in an ordered sequence. */
  lemma NextIs(cmp: Order, a: seq<RbNode>, x: RbNode, z: seq<RbNode>, y: RbNode)
    requires TotalOrder(cmp) && Ordered(cmp, a + [x] + z)
    ensures Successive(a + [x] + z, x, y) <==> z != [] && y == z[0]
  {
    var s := a + [x] + z;
    assert s[|a|] == x;
    if z != [] { assert s[|a| + 1] == z[0]; }
  }

  /** A frame further up than the parent has a right child, for black heights to agree. */
  lemma FrameSib(u: Ctx, t: Tree, h: nat)
    requires ZBalanced(u, t, h) && t.T? && u.Up? && u.d == Right && FrameOf(u).Up?
    ensures FrameOf(u).sib.T?
    decreases u
  {
    assert CBalanced(u.up, if u.red then h else h + 1) && (u.red ==> h > 0);
    if u.up.Up? && u.up.d == Right {
      FrameSib(u.up, Plug1(u, t), if u.red then h else h + 1);
    }
  }

  /** The successor of a node without right child is the node of its frame. */
  lemma AfterIsFrame(e: Env, c: Ctx, t: Tree)
    requires View(e, c, t) && t.T?
    ensures After(c) != [] ==> var f := FrameOf(c);
      f.Up? && f.d == Left && After(c)[0] == f.n && f.n in All(e, c, t) && f.n.rightThread == f.sib.E?
  {
    hide View, All, Flat, Inorder;
    AfterFrame(c);
    if After(c) != [] {
      SubstFlat(c, t.n);
      var x := UpToFrame(e, c, t);
      var f := FrameOf(c);
      Up1(e, f, x);
      Look(e, f.up, Plug1(f, x));
      assert f.n.IsThread(Right) == Kid(Plug1(f, x), Right).E?;
      FrameIn(c);
      CtxIn(e, c, t);
    }
  }

  lemma FrameIn(c: Ctx)
    requires FrameOf(c).Up?
    ensures FrameOf(c).n in CNodes(c)
  {
  }

  lemma CtxIn(e: Env, c: Ctx, t: Tree)
    ensures CNodes(c) <= All(e, c, t) && Nodes(t) <= All(e, c, t)
  {
  }

  /** The two ways of telling agree: by the place a plain search ends, and by the order of the nodes. */
  lemma TangledIsStuck(e: Env, rights: map<RbNode, RbNode?>, c: Ctx, t: Tree, h: nat)
    requires View(e, c, t) && t.T? && ZBalanced(c, t, h) && Keeps(rights, All(e, c, t))
    ensures Tangled(All(e, c, t), Flat(c, t), t.n) <==> Stuck(rights, c, t)
  {
    hide View, All, Flat, Inorder, Ordered, TotalOrder, Balanced, CBalanced, Successive;
    var x, all := t.n, All(e, c, t);
    Look(e, c, t);
    FocusIn(e, c, t);
    assert x.IsThread(Left) == t.l.E? && x.IsThread(Right) == t.r.E?;
    if t.l.E? {
      ViewOrder(e, c, t);
      FlatAround(c, t);
      var a, z := Before(c) + Inorder(t.l), Inorder(t.r) + After(c);
      LeafKid(t, h);
      forall y | y in all
        ensures Successive(Flat(c, t), x, y) <==> z != [] && y == z[0]
      {
        NextIs(e.cmp, a, x, z, y);
      }
      if t.r.T? {
        OnlyNode(t.r, After(c));
        RightKid(e, c, t);
      } else {
        assert z == After(c) by { EmptyInorder(); }
        AfterIsFrame(e, c, t);
        if c.Up? && c.d == Right && FrameOf(c).Up? { FrameSib(c, t, h); }
        AfterUp(c);
      }
    }
  }

  lemma AfterUp(c: Ctx)
    ensures c.Up? && c.d == Left ==> After(c) != []
    ensures FrameOf(c) == c || (c.Up? && c.d == Right)
  {
  }

  /** An only right child is a leaf. */
  lemma LeafKid(t: Tree, h: nat)
    requires t.T? && t.l.E? && Balanced(t, h)
    ensures t.r.T? ==> t.r.l.E? && t.r.r.E?
  {
    assert Balanced(t.l, if t.red then h else h - 1) && Balanced(t.r, if t.red then h else h - 1);
    if t.r.T? { assert Balanced(t.r.l, 0) && Balanced(t.r.r, 0); }
  }

  lemma OnlyNode(r: Tree, z: seq<RbNode>)
    requires r.T? && r.l.E?
    ensures Inorder(r) + z != [] && (Inorder(r) + z)[0] == r.n
  {
  }

  lemma RightKid(e: Env, c: Ctx, t: Tree)
    requires View(e, c, t) && t.T? && t.r.T?
    ensures t.r.n in All(e, c, t) && t.r.n.rightThread == t.r.r.E?
  {
    hide View;
    FocusIn(e, c, t);
    Down1(e, Below(c, t, Right), t.r);
    Look(e, Below(c, t, Right), t.r);
    assert t.r.n.IsThread(Right) == Kid(t.r, Right).E?;
  }
}
