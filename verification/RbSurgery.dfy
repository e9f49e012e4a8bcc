/** The rebalancing procedures on memory, each proved to do to the shape what the functions of
    RbBalance say. Ghost arguments `c` and `t` are the shape around and below the node in focus. */
module RbSurgery {
  import opened RbShape
  import opened RbBalance
  import opened RbHeap

  /** Everything an operation on the tree may touch. */
  ghost function All(e: Env, c: Ctx, t: Tree): set<RbNode> { CNodes(c) + Nodes(t) + {e.sent} }

  /** A consistent zipper over an ordered tree. */
  ghost predicate View(e: Env, c: Ctx, t: Tree)
    reads All(e, c, t)
  {
    RepZ(e, c, t) && TotalOrder(e.cmp) && Ordered(e.cmp, Flat(c, t))
  }

  lemma Split(e: Env, c: Ctx, t: Tree)
    requires View(e, c, t)
    ensures Rep(e, t, Bound(e, c, Left), Bound(e, c, Right)) && RepC(e, c, Top(t))
    ensures Nodes(t) !! CNodes(c) && e.sent !in Nodes(t) && e.sent !in CNodes(c)
    ensures TotalOrder(e.cmp) && Ordered(e.cmp, Inorder(t))
    ensures t.T? ==> t.n in Nodes(t)
  {
    OrderedSplit(e.cmp, Before(c) + Inorder(t), After(c));
    OrderedSplit(e.cmp, Before(c), Inorder(t));
  }

  lemma Join(e: Env, c: Ctx, t0: Tree, t: Tree)
    requires Rep(e, t, Bound(e, c, Left), Bound(e, c, Right)) && RepC(e, c, Top(t))
    requires Nodes(t0) !! CNodes(c) && e.sent !in Nodes(t0) && e.sent !in CNodes(c)
    requires TotalOrder(e.cmp) && Ordered(e.cmp, Flat(c, t0))
    requires Nodes(t) == Nodes(t0) && Inorder(t) == Inorder(t0)
    ensures View(e, c, t) && All(e, c, t) == All(e, c, t0)
  {
  }

  lemma Up1(e: Env, c: Ctx, t: Tree)
    requires c.Up? && View(e, c, t)
    ensures View(e, c.up, Plug1(c, t)) && All(e, c.up, Plug1(c, t)) == All(e, c, t)
    ensures c.n in All(e, c, t) && Par(e, c.up) in All(e, c, t)
    ensures Flat(c.up, Plug1(c, t)) == Flat(c, t)
  {
    ZipUp(e, c, t);
    FlatStep(c.d, c.red, c.n, c.sib, c.up, t);
  }

  lemma Down1(e: Env, c: Ctx, t: Tree)
    requires c.Up? && View(e, c.up, Plug1(c, t))
    ensures View(e, c, t) && All(e, c.up, Plug1(c, t)) == All(e, c, t)
    ensures Flat(c.up, Plug1(c, t)) == Flat(c, t)
  {
    ZipDown(e, c, t);
    FlatStep(c.d, c.red, c.n, c.sib, c.up, t);
  }

  /** What a look at the node in focus and at its parent tells. */
  lemma Look(e: Env, c: Ctx, t: Tree)
    requires View(e, c, t)
    ensures Par(e, c).red == RedTop(c)
    ensures Par(e, c).IsThread(HoleDir(c)) == t.E?
    ensures t.T? ==> Par(e, c).Link(HoleDir(c)) == t.n
    ensures t.T? ==> t.n.red == t.red
    ensures t.T? ==> t.n != e.sent && t.n != Par(e, c)
    ensures forall d :: t.T? ==> t.n.IsThread(d) == Kid(t, d).E?
    ensures forall d :: t.T? && Kid(t, d).T? ==> t.n.Link(d) == Kid(t, d).n && Kid(t, d).n.red == Kid(t, d).red
    ensures forall d :: t.T? ==> t.n.IsRedSafe(d) == IsRed(Kid(t, d))
  {
    if t.T? {
      assert Rep(e, t.l, Bound(e, c, Left), t.n) && Rep(e, t.r, t.n, Bound(e, c, Right));
    }
  }

  /** The node whose thread is pinned is not around the hole. */
  ghost predicate Plain(e: Env, c: Ctx) { e.odd == null || e.odd !in CNodes(c) }

  lemma PlainUp(e: Env, c: Ctx)
    requires c.Up? && Plain(e, c)
    ensures c.n != e.odd && Plain(e, c.up)
  {
  }

  /** The node above the hole has its child `x` on the left, no child on the right, and a right thread that
      leads to that same `x`. */
  ghost predicate Misread(c: Ctx, x: RbNode)
    reads if c.Up? then {c.n} else {}
  { c.Up? && c.d == Left && c.sib.E? && c.n.right == x }

  /** The comparison of the right link of the parent with its child tells the direction of the child if and
      only if it does not take a thread for a link. */
  lemma RightTest(e: Env, c: Ctx, t: Tree)
    requires View(e, c, t) && t.T?
    ensures (if Par(e, c).right == t.n then Right else Left) == HoleDir(c) <==> !Misread(c, t.n)
  {
    if c.Up? && c.d == Left {
      assert LinkOk(e, c.n, Right, Top(c.sib), Bound(e, c.up, Right));
      if c.sib.T? { assert c.sib.n in Nodes(c.sib); }
    }
  }

  /** Threads that keep their promise are not taken for links. */
  lemma QuietRead(e: Env, c: Ctx, t: Tree)
    requires View(e, c, t) && t.T? && (e.exact || t.n !in e.noisy) && (c.Up? ==> c.n != e.odd)
    ensures !Misread(c, t.n)
  {
    if c.Up? && c.d == Left && c.sib.E? {
      assert LinkOk(e, c.n, Right, null, Bound(e, c.up, Right));
      BoundIn(e, c.up, Right);
      HoleBefore(e.cmp, c, t);
    }
  }

  /** None of the three comparisons of a rotation at the grandparent takes a thread for a link. */
  ghost predicate Straight(c: Ctx, x: RbNode)
    reads if c.Up? then {c.n} else {}, if c.Up? && c.up.Up? then {c.up.n} else {}
    reads if c.Up? && c.up.Up? && c.up.up.Up? then {c.up.up.n} else {}
  {
    c.Up? && c.up.Up? ==> !Misread(c, x) && !Misread(c.up, c.n) && !Misread(c.up.up, c.up.n)
  }

  lemma HoleBefore(cmp: Order, c: Ctx, t: Tree)
    requires t.T? && c.Up? && c.d == Left && Ordered(cmp, Flat(c, t))
    ensures cmp(t.n.key, c.n.key) > 0
  {
    assert After(c) == [c.n] + (Inorder(c.sib) + After(c.up));
    OrderedSplit(cmp, Before(c) + Inorder(t), After(c));
    assert t.n in Inorder(t) && c.n in After(c);
    assert t.n in Before(c) + Inorder(t);
  }

  /** Paints a node. `ok`, here and below: the memory has the shape given. */
  method SetRed(n: RbNode, b: bool, ghost e: Env, ghost c: Ctx, ghost t: Tree, ghost ok: bool := true)
    requires ok ==> View(e, c, t) && t.T? && n == t.n
    modifies n`red
    ensures ok ==> View(e, c, Paint(t, b)) && All(e, c, Paint(t, b)) == All(e, c, t)
    ensures n.red == b
  {
    hide RepC, Rep, CNodes, Nodes, TotalOrder, Ordered;
    ghost var lo, hi := Bound(e, c, Left), Bound(e, c, Right);
    if ok {
      Split(e, c, t);
      MkRep(e, Left, t.l, t.red, n, t.r, lo, hi);
      assert allocated(Nodes(t.l)) && allocated(Nodes(t.r)) && allocated(CNodes(c));
    }
    n.red := b;
    if ok {
      MkRep(e, Left, t.l, b, n, t.r, lo, hi);
      Join(e, c, t, Paint(t, b));
    }
  }

  /** The surroundings of the parent of the hole, untouched by a write to its links. */
  ghost predicate Around(e: Env, c: Ctx)
    requires c.Up?
    reads Nodes(c.sib), CNodes(c.up), e.sent
  {
    && c.n != e.sent && e.sent !in Nodes(c.sib)
    && c.n !in Nodes(c.sib) && c.n !in CNodes(c.up) && Nodes(c.sib) !! CNodes(c.up)
    && Rep(e, c.sib, KidLo(Opp(c.d), Bound(e, c.up, Left), c.n), KidHi(Opp(c.d), c.n, Bound(e, c.up, Right)))
    && RepC(e, c.up, c.n)
  }

  lemma FrameView(e: Env, c: Ctx, x: RbNode?)
    requires c.Up?
    ensures RepC(e, c, x) <==>
      && c.n.red == c.red && LinkOk(e, c.n, c.d, x, Bound(e, c.up, c.d))
      && LinkOk(e, c.n, Opp(c.d), Top(c.sib), Bound(e, c.up, Opp(c.d)))
      && Around(e, c)
  {
  }

  /** Stores a new child in the link that is the hole. */
  method Relink(par: RbNode, d: Dir, r: RbNode, ghost e: Env, ghost c: Ctx, ghost x: RbNode, ghost ok: bool := true)
    requires ok ==> RepC(e, c, x) && par == Par(e, c) && d == HoleDir(c)
    modifies par`left, par`right
    ensures ok ==> RepC(e, c, r)
    ensures par.Link(d) == r && par.Link(Opp(d)) == old(par.Link(Opp(d)))
  {
    hide RepC, Rep, CNodes, Nodes, Around;
    if ok {
      if c.Up? {
        FrameView(e, c, x);
        AroundApart(e, c);
        assert allocated(Nodes(c.sib)) && allocated(CNodes(c.up));
      } else {
        RootView(e, x);
      }
    }
    par.SetLink(d, r);
    if ok {
      if c.Up? { FrameView(e, c, r); } else { RootView(e, r); }
    }
  }

  lemma AroundApart(e: Env, c: Ctx)
    requires c.Up? && Around(e, c)
    ensures c.n != e.sent && c.n !in Nodes(c.sib) && c.n !in CNodes(c.up)
  {
  }

  lemma RootView(e: Env, x: RbNode?)
    ensures RepC(e, Root, x) <==> SentOk(e, x)
  {
  }

  /** link(par, pd) = cldm_rbtree_rotate_single(root, dir), where `k` comes up. */
  method RotateAt(par: RbNode, pd: Dir, root: RbNode, dir: Dir, ghost e: Env, ghost c: Ctx, ghost t: Tree,
                  ghost k: RbNode, ghost ok: bool := true)
    requires ok ==> View(e, c, t) && par == Par(e, c) && pd == HoleDir(c)
    requires ok ==> t.T? && root == t.n && Kid(t, Opp(dir)).T? && k == Kid(t, Opp(dir)).n && root != e.odd
    requires !ok ==> root.Link(Opp(dir)) == k && root != k && par != root && par != k
    modifies root, k, par`left, par`right
    ensures ok ==> View(e, c, Rot(t, dir)) && All(e, c, Rot(t, dir)) == All(e, c, t)
    ensures ok ==> (root.IsThread(Opp(dir)) ==> root.Link(Opp(dir)) == k)
    ensures Turned(root, k, dir)
    ensures par.Link(pd) == k && par.Link(Opp(pd)) == old(par.Link(Opp(pd)))
  {
    hide RepC, Rep, CNodes, Nodes, TotalOrder, Ordered, View, Flat, Inorder;
    if ok {
      Split(e, c, t);
      assert TotalOrder(e.cmp) && Ordered(e.cmp, Flat(c, t)) by { ViewOrder(e, c, t); }
      Look(e, c, t);
      NodesTop(t); NodesTop(Kid(t, Opp(dir)));
      ParIn(e, c);
      RotInorder(t, dir);
      assert allocated(CNodes(c)) && allocated(Nodes(t));
    }
    var r := RotateSingle(root, dir, e, t, Bound(e, c, Left), Bound(e, c, Right), ok);
    if ok { assert allocated(Nodes(Rot(t, dir))); }
    Relink(par, pd, r, e, c, root, ok);
    if ok { Join(e, c, t, Rot(t, dir)); }
  }

  /** link(par, pd) = cldm_rbtree_rotate_double(root, dir), where `m` comes up from below `k`. */
  method RotateDoubleAt(par: RbNode, pd: Dir, root: RbNode, dir: Dir, ghost e: Env, ghost c: Ctx, ghost t: Tree,
                        ghost k: RbNode, ghost m: RbNode, ghost ok: bool := true)
    requires ok ==> View(e, c, t) && par == Par(e, c) && pd == HoleDir(c)
    requires ok ==> t.T? && root == t.n && Kid(t, Opp(dir)).T? && Kid(Kid(t, Opp(dir)), dir).T?
    requires ok ==> k == Kid(t, Opp(dir)).n && m == Kid(Kid(t, Opp(dir)), dir).n && root != e.odd && k != e.odd
    requires !ok ==> root.Link(Opp(dir)) == k && k.Link(dir) == m && root != k && k != m && root != m
    requires !ok ==> par !in {root, k, m}
    modifies root, k, m, par`left, par`right
    ensures ok ==> View(e, c, Rot2(t, dir)) && All(e, c, Rot2(t, dir)) == All(e, c, t)
    ensures ok ==> (root.IsThread(Opp(dir)) ==> root.Link(Opp(dir)) == m)
    ensures !ok ==> TurnedTwice(root, k, m, dir)
    ensures par.Link(pd) == m && par.Link(Opp(pd)) == old(par.Link(Opp(pd)))
  {
    hide RepC, Rep, CNodes, Nodes, TotalOrder, Ordered, View, Flat, Inorder;
    if ok {
      Split(e, c, t);
      assert TotalOrder(e.cmp) && Ordered(e.cmp, Flat(c, t)) by { ViewOrder(e, c, t); }
      ParIn(e, c);
      Rot2Inorder(t, dir);
      NodesTop(t); NodesTop(Kid(t, Opp(dir))); NodesTop(Kid(Kid(t, Opp(dir)), dir));
      assert allocated(CNodes(c)) && allocated(Nodes(t));
    }
    var r := RotateDouble(root, dir, e, t, Bound(e, c, Left), Bound(e, c, Right), k, m, ok);
    if ok { assert allocated(Nodes(Rot2(t, dir))); }
    Relink(par, pd, r, e, c, root, ok);
    if ok { Join(e, c, t, Rot2(t, dir)); }
  }

  lemma ViewOrder(e: Env, c: Ctx, t: Tree)
    requires View(e, c, t)
    ensures TotalOrder(e.cmp) && Ordered(e.cmp, Flat(c, t))
  {
  }

  lemma ParIn(e: Env, c: Ctx)
    ensures Par(e, c) == e.sent || Par(e, c) in CNodes(c)
  {
  }

  lemma Rot2Inorder(t: Tree, d: Dir)
    requires t.T? && Kid(t, Opp(d)).T? && Kid(Kid(t, Opp(d)), d).T?
    ensures Inorder(Rot2(t, d)) == Inorder(t) && Nodes(Rot2(t, d)) == Nodes(t)
  {
    var k := Kid(t, Opp(d));
    RotInorder(k, Opp(d));
    MkInorder(Opp(d), k, Rot(k, Opp(d)), t.red, t.n, Kid(t, d));
    RotInorder(Mk(d, Kid(t, d), t.red, t.n, Rot(k, Opp(d))), d);
  }

  /** Blackens (or reddens) the child of the node in focus in direction `d`. */
  method SetKidRed(k: RbNode, b: bool, ghost d: Dir, ghost e: Env, ghost c: Ctx, ghost t: Tree)
    requires View(e, c, t) && t.T? && Kid(t, d).T? && k == Kid(t, d).n
    modifies k`red
    ensures View(e, c, Mk(d, Paint(Kid(t, d), b), t.red, t.n, Kid(t, Opp(d))))
    ensures All(e, c, Mk(d, Paint(Kid(t, d), b), t.red, t.n, Kid(t, Opp(d)))) == All(e, c, t)
    ensures k in All(e, c, t)
  {
    hide View, All, Flat, Inorder;
    ghost var c1 := Up(d, t.red, t.n, Kid(t, Opp(d)), c);
    Down1(e, c1, Kid(t, d));
    FocusIn(e, c1, Kid(t, d));
    SetRed(k, b, e, c1, Kid(t, d));
    Up1(e, c1, Paint(Kid(t, d), b));
  }

  lemma FocusIn(e: Env, c: Ctx, t: Tree)
    ensures t.T? ==> t.n in All(e, c, t)
    ensures Par(e, c) in All(e, c, t) && Nodes(t) <= All(e, c, t)
    ensures forall d :: t.T? && Kid(t, d).T? ==> Kid(t, d).n in All(e, c, t)
  {
    if t.T? {
      assert forall d :: Nodes(Kid(t, d)) <= Nodes(t);
    }
  }

  /** The first half of cldm_rbtree_balance_insertion: recolouring of the node and its children. */
  method RecolorAt(n: RbNode, ghost e: Env, ghost c: Ctx, ghost t: Tree)
    requires View(e, c, t) && t.T? && n == t.n
    modifies Nodes(t)`red
    ensures View(e, c, Recolor(t)) && All(e, c, Recolor(t)) == All(e, c, t)
  {
    hide View, All, Flat, Inorder, Rep, RepC;
    FocusIn(e, c, t);
    SetRed(n, true, e, c, t);
    ghost var t1 := Paint(t, true);
    Look(e, c, t1);
    if !n.IsThread(Left) && !n.IsThread(Right) {
      SetKidRed(n.left, false, Left, e, c, t1);
      ghost var t2 := Mk(Left, Paint(t.l, false), true, n, t.r);
      Look(e, c, t2);
      SetKidRed(n.right, false, Right, e, c, t2);
    }
  }

  /** The new node `x` hangs in direction `dir` of the red node `y`, which is the child in direction `d` of `z`;
      for one of the two a link test is misread. */
  ghost predicate Trap(x: RbNode, y: RbNode, z: RbNode, dir: Dir, d: Dir)
    reads x, y, z
  {
    && x != y && y != z && x != z && y.red
    && x.leftThread && x.rightThread
    && !y.IsThread(dir) && y.Link(dir) == x && y.IsThread(Opp(dir))
    && !z.IsThread(d) && z.Link(d) == y
    && ((dir == Left && y.right == x) || (d == Left && z.rightThread && z.right == y))
  }

  /** A left child that comes after its parent, or a red node with a red child; the root may be repainted. */
  ghost predicate Wrong(x: RbNode, y: RbNode, z: RbNode, dir: Dir, d: Dir, root: RbNode?)
    reads x, y, z
  {
    || (d == Left && ((!y.leftThread && y.left == z) || (!x.leftThread && x.left == z)))
    || (dir == Left && !x.leftThread && x.left == y)
    || ((z.red || z == root) && (x.red || x == root) && !z.rightThread && z.right == x && !y.leftThread && y.left == z)
  }

  /** A leaf whose rebalancing misreads a link test sits in a trap. */
  lemma TrapHere(e: Env, c: Ctx, t: Tree)
    requires View(e, c, t) && RedTop(c) && Perched(c, t) && t.red && !Straight(c, t.n)
    ensures var n, p, gp := t.n, c.n, c.up.n;
      Trap(n, p, gp, c.d, c.up.d) && n.red && Par(e, c.up.up) !in {n, p, gp}
  {
    hide View, Flat, Inorder, Rep, RepC, RepZ, Ordered, TotalOrder;
    var pt := Plug1(c, t);
    Split(e, c, t);
    ParIn(e, c.up.up);
    PathApart(e, c, t);
    Look(e, c, t);
    Up1(e, c, t);
    Look(e, c.up, pt);
    Up1(e, c.up, pt);
    Look(e, c.up.up, Plug1(c.up, pt));
    assert t.n.IsThread(Left) && t.n.IsThread(Right) && pt.n.IsThread(Opp(c.d));
    assert c.up.n.IsThread(Opp(c.up.d)) == c.up.sib.E?;
  }

  lemma PathApart(e: Env, c: Ctx, t: Tree)
    requires RepC(e, c, Top(t)) && t.T? && c.Up? && c.up.Up? && Nodes(t) !! CNodes(c)
    requires e.sent !in Nodes(t) && e.sent !in CNodes(c)
    ensures t.n != c.n && c.n != c.up.n && t.n != c.up.n && Par(e, c.up.up) !in {t.n, c.n, c.up.n}
  {
    ParIn(e, c.up.up);
  }

  /** The nodes whose links the rebalancing of an insertion may change. */
  ghost function Turning(c: Ctx, n: RbNode, p: RbNode, gp: RbNode, ggp: RbNode): set<RbNode> {
    if RedTop(c) then {n, p, gp, ggp} else {}
  }

  /** A red leaf below a red node: all that the link tests of its rebalancing can take for a link is the thread of
      that node, or that of the node above. */
  ghost predicate Perched(c: Ctx, t: Tree)
    reads if c.Up? && c.up.Up? && c.up.up.Up? then {c.up.up.n} else {}
  { c.Up? && c.up.Up? && t.T? && t.l.E? && t.r.E? && c.sib.E? && !Misread(c.up.up, c.up.n) }

  /** cldm_rbtree_balance_insertion. The window must be exact only if the parent is red. A link test that is misread
      leaves a wrong edge. */
  method BalanceInsertion(n: RbNode, p: RbNode, gp: RbNode, ggp: RbNode, ghost e: Env, ghost c: Ctx, ghost t: Tree)
    requires View(e, c, t) && t.T? && n == t.n && p == Par(e, c)
    requires RedTop(c) ==> c.up.Up? && gp == c.up.n && ggp == Par(e, c.up.up)
    requires Plain(e, c) && (RedTop(c) ==> Straight(c, n) || Perched(c, t))
    modifies Turning(c, n, p, gp, ggp), All(e, c, t)`red
    ensures !RedTop(c) || old(Straight(c, n)) ==>
      var z := BalIns(c, t); View(e, z.c, z.t) && All(e, z.c, z.t) == All(e, c, t)
    ensures !(!RedTop(c) || old(Straight(c, n))) ==>
      Wrong(n, p, gp, c.d, c.up.d, null) && (ggp.left == old(ggp.left) || ggp.left in {n, p})
  {
    hide Plain, View, All, Flat, Inorder, Rep, RepC, Nodes, CNodes, RepZ, Ordered, TotalOrder, Wrong, Trap;
    FocusIn(e, c, t);
    RecolorAt(n, e, c, t);
    Look(e, c, Recolor(t));
    if p.red {
      RaiseAt(n, p, gp, ggp, e, c, t);
    }
  }

  /** The rotation at the grandparent, after `n` has been recoloured below a red parent. */
  method RaiseAt(n: RbNode, p: RbNode, gp: RbNode, ggp: RbNode, ghost e: Env, ghost c: Ctx, ghost t: Tree)
    requires t.T? && View(e, c, Recolor(t)) && n == t.n && p == Par(e, c) && Plain(e, c)
    requires RedTop(c) && c.up.Up? && gp == c.up.n && ggp == Par(e, c.up.up) && (Straight(c, n) || Perched(c, t))
    modifies n, p, gp, ggp, All(e, c, Recolor(t))`red
    ensures old(Straight(c, n)) ==>
      var z := BalIns(c, t); View(e, z.c, z.t) && All(e, z.c, z.t) == All(e, c, Recolor(t))
    ensures !old(Straight(c, n)) ==>
      Wrong(n, p, gp, c.d, c.up.d, null) && (ggp.left == old(ggp.left) || ggp.left in {n, p})
  {
    hide Plain, View, All, Flat, Inorder, Rep, RepC, Nodes, CNodes, RepZ, Ordered, TotalOrder, Wrong;
    ghost var t1, ok := Recolor(t), Straight(c, n);
    ghost var g := c.up;
    ghost var pt := Plug1(c, t1);
    PlainUp(e, c);
    PlainUp(e, g);
    if ok { RightTests(e, c, t1); } else { TrapHere(e, c, t1); }
    Up1(e, c, t1);
    Up1(e, g, pt);
    FocusIn(e, g.up, Plug1(g, pt));
    SetRed(gp, true, e, g.up, Plug1(g, pt));

    var pdir := if p.right == n then Right else Left;
    var gpdir := if gp.right == p then Right else Left;
    var ggpdir := if ggp.right == gp then Right else Left;

    RaiseOver(n, p, gp, ggp, pdir, gpdir, ggpdir, e, c, t, ok);
  }

  /** The three link tests give the directions of the true path. */
  lemma RightTests(e: Env, c: Ctx, t: Tree)
    requires View(e, c, t) && t.T? && c.Up? && c.up.Up? && Straight(c, t.n)
    ensures (if c.n.right == t.n then Right else Left) == c.d
    ensures (if c.up.n.right == c.n then Right else Left) == c.up.d
    ensures (if Par(e, c.up.up).right == c.up.n then Right else Left) == HoleDir(c.up.up)
  {
    hide View, All, Flat, Inorder, Rep, RepC, Nodes, CNodes, RepZ, Ordered, TotalOrder;
    var g := c.up;
    var pt := Plug1(c, t);
    RightTest(e, c, t);
    Up1(e, c, t);
    RightTest(e, g, pt);
    Up1(e, g, pt);
    RightTest(e, g.up, Plug1(g, pt));
  }

  /** The rotation in the directions tested. `ok`: they are the true ones. */
  method RaiseOver(n: RbNode, p: RbNode, gp: RbNode, ggp: RbNode, pdir: Dir, gpdir: Dir, ggpdir: Dir,
                   ghost e: Env, ghost c: Ctx, ghost t: Tree, ghost ok: bool)
    requires t.T? && n == t.n && RedTop(c) && c.up.Up? && p == c.n && gp == c.up.n && ggp == Par(e, c.up.up)
    requires ok ==> View(e, c.up.up, Mk(c.up.d, Plug1(c, Recolor(t)), true, gp, c.up.sib))
    requires ok ==> pdir == c.d && gpdir == c.up.d && ggpdir == HoleDir(c.up.up) && p != e.odd && gp != e.odd
    requires !ok ==> Trap(n, p, gp, c.d, c.up.d) && n.red && gp.red && ggp !in {n, p, gp}
    requires !ok ==> pdir == (if p.right == n then Right else Left) && gpdir == if gp.right == p then Right else Left
    modifies n, p, gp, ggp, All(e, c.up.up, Mk(c.up.d, Plug1(c, Recolor(t)), true, gp, c.up.sib))`red
    ensures ok ==> var z := BalIns(c, t);
      View(e, z.c, z.t) && All(e, z.c, z.t) == All(e, c.up.up, Mk(c.up.d, Plug1(c, Recolor(t)), true, gp, c.up.sib))
    ensures !ok ==> Wrong(n, p, gp, c.d, c.up.d, null) && (ggp.left == old(ggp.left) || ggp.left in {n, p})
  {
    hide View, All, Flat, Inorder, Rep, RepC, Nodes, CNodes, RepZ, Ordered, TotalOrder;
    ghost var g := c.up;
    ghost var top := Mk(g.d, Plug1(c, Recolor(t)), true, g.n, g.sib);
    ghost var away := Opp(g.d);
    if ok { FocusIn(e, g.up, top); }
    if pdir != gpdir {
      RotateDoubleAt(ggp, ggpdir, gp, Opp(gpdir), e, g.up, top, p, n, ok);
      if ok { FocusIn(e, g.up, Rot2(top, away)); }
      SetRed(n, false, e, g.up, if ok then Rot2(top, away) else E, ok);
    } else {
      RotateAt(ggp, ggpdir, gp, Opp(gpdir), e, g.up, top, p, ok);
      if ok { FocusIn(e, g.up, Rot(top, away)); }
      SetRed(p, false, e, g.up, if ok then Rot(top, away) else E, ok);
      if ok { Down1(e, BalIns(c, t).c, Recolor(t)); }
    }
  }

  /** The recolouring that follows either rotation in removal: `n` and the new top turn red, the
      children of the top black. */
  method CrownAt(n: RbNode, gp: RbNode, gpdir: Dir, ghost e: Env, ghost c: Ctx,
                 ghost d: Dir, ghost t: Tree, ghost r1: bool, ghost p: RbNode, ghost a: Tree, ghost r0: bool,
                 ghost m: RbNode, ghost b: Tree)
    requires View(e, c, Mk(d, Mk(d, t, r1, p, a), r0, m, b)) && t.T? && n == t.n && b.T?
    requires gp == Par(e, c) && gpdir == HoleDir(c)
    modifies All(e, c, Mk(d, Mk(d, t, r1, p, a), r0, m, b))`red
    ensures var top := Mk(d, Mk(d, Paint(t, true), false, p, a), true, m, Paint(b, false));
      View(e, c, top) && All(e, c, top) == All(e, c, Mk(d, Mk(d, t, r1, p, a), r0, m, b))
  {
    hide View, All, Flat, Inorder, Rep, RepC, Nodes, CNodes, RepZ, Ordered, TotalOrder;
    ghost var top0 := Mk(d, Mk(d, t, r1, p, a), r0, m, b);
    ghost var c1 := Up(d, r0, m, b, c);
    ghost var c2 := Up(d, r1, p, a, c1);
    Down1(e, c1, Mk(d, t, r1, p, a));
    Down1(e, c2, t);
    FocusIn(e, c2, t);
    SetRed(n, true, e, c2, t);
    Up1(e, c2, Paint(t, true));
    Up1(e, c1, Mk(d, Paint(t, true), r1, p, a));
    ghost var top1 := Mk(d, Mk(d, Paint(t, true), r1, p, a), r0, m, b);
    Look(e, c, top1);
    FocusIn(e, c, top1);
    SetRed(gp.Link(gpdir), true, e, c, top1);
    ghost var top2 := Paint(top1, true);
    assert Kid(top2, Left).T? && Kid(top2, Right).T?;
    FocusIn(e, c, top2);
    Look(e, c, top2);
    SetKidRed(gp.Link(gpdir).left, false, Left, e, c, top2);
    ghost var top3 := Mk(Left, Paint(top2.l, false), true, m, top2.r);
    assert Kid(top3, Right).T?;
    FocusIn(e, c, top3);
    Look(e, c, top3);
    SetKidRed(gp.Link(gpdir).right, false, Right, e, c, top3);
    assert Mk(Right, Paint(top3.r, false), true, m, top3.l)
        == Mk(d, Mk(d, Paint(t, true), false, p, a), true, m, Paint(b, false));
  }

  /** The recolouring when the sibling has no red child. */
  method FlipAt(n: RbNode, p: RbNode, sibling: RbNode, ghost e: Env, ghost c: Ctx, ghost t: Tree)
    requires View(e, c, t) && t.T? && n == t.n && c.Up? && p == c.n && c.sib.T? && sibling == c.sib.n
    modifies All(e, c, t)`red
    ensures var z := Zip(Up(c.d, false, c.n, Paint(c.sib, true), c.up), Paint(t, true));
      View(e, z.c, z.t) && All(e, z.c, z.t) == All(e, c, t)
  {
    hide View, All, Flat, Inorder, Rep, RepC, Nodes, CNodes, RepZ, Ordered, TotalOrder;
    FocusIn(e, c, t);
    SetRed(n, true, e, c, t);
    ghost var t1 := Paint(t, true);
    Up1(e, c, t1);
    assert Kid(Plug1(c, t1), Opp(c.d)) == c.sib;
    FocusIn(e, c.up, Plug1(c, t1));
    SetKidRed(sibling, true, Opp(c.d), e, c.up, Plug1(c, t1));
    ghost var q := Mk(c.d, t1, c.red, p, Paint(c.sib, true));
    assert Mk(Opp(c.d), Paint(c.sib, true), c.red, p, t1) == q;
    FocusIn(e, c.up, q);
    SetRed(p, false, e, c.up, q);
    Down1(e, Up(c.d, false, p, Paint(c.sib, true), c.up), t1);
  }

  /** The nodes whose links the rebalancing of a removal may change: none below the way down. */
  ghost function Shifting(e: Env, c: Ctx, t: Tree, dir: Dir): set<RbNode>
    requires t.T?
  {
    {t.n, Par(e, c)} + (if Kid(t, Opp(dir)).T? then {Kid(t, Opp(dir)).n} else {})
    + if c.Up? then {Par(e, c.up)} + Nodes(c.sib) else {}
  }

  /** cldm_rbtree_balance_removal; `q` is the parent after the call. In which cases a link test at the node would
      meet a thread afterwards: not below a sibling that took part, and a node lifted keeps its outer link. */
  method BalanceRemoval(n: RbNode, p: RbNode, gp: RbNode, dir: Dir, ghost e: Env, ghost c: Ctx, ghost t: Tree)
    returns (q: RbNode)
    requires View(e, c, t) && t.T? && n == t.n && p == Par(e, c) && (c.Up? ==> gp == Par(e, c.up))
    requires e.odd == null && !Misread(c, n) && (c.Up? ==> !Misread(c.up, p))
    modifies Shifting(e, c, t, dir), All(e, c, t)`red
    ensures var z := BalRem(c, t, dir);
      View(e, z.c, z.t) && All(e, z.c, z.t) == All(e, c, t) && q == Par(e, z.c)
    ensures var k := Kid(t, Opp(dir)); if IsRed(k) then k.n.Link(Opp(dir)) == old(k.n.Link(Opp(dir)))
      else c.Up? && c.sib.T? ==> !Misread(BalRem(c, t, dir).c, n)
  {
    hide View, All, Flat, Inorder, Rep, RepC, Nodes, CNodes, RepZ, Ordered, TotalOrder;
    ghost var z := BalRem(c, t, dir);
    q := p;
    RightTest(e, c, t);
    FocusIn(e, c, t);
    if c.Up? {
      Up1(e, c, t);
      FocusIn(e, c.up, Plug1(c, t));
      RightTest(e, c.up, Plug1(c, t));
      Look(e, c.up, Plug1(c, t));
    } else {
      RootThread(e, t);
    }
    var pdir := if p.right == n then Right else Left;
    var gpdir := if gp.right == p then Right else Left;
    Look(e, c, t);
    if n.IsRedSafe(Opp(dir)) {
      RotateAt(p, pdir, n, dir, e, c, t, Kid(t, Opp(dir)).n);
      Look(e, c, Rot(t, dir));
      q := p.Link(pdir);
      Down1(e, z.c, z.t);
    } else if !p.IsThread(Opp(pdir)) {
      var sibling := p.Link(Opp(pdir));
      BalanceSibling(n, p, gp, pdir, gpdir, sibling, dir, e, c, t);
    }
  }

  lemma RootThread(e: Env, t: Tree)
    requires View(e, Root, t)
    ensures e.sent.IsThread(Right)
  {
  }

  method BalanceSibling(n: RbNode, p: RbNode, gp: RbNode, pdir: Dir, gpdir: Dir, sibling: RbNode,
                        ghost dir: Dir, ghost e: Env, ghost c: Ctx, ghost t: Tree)
    requires View(e, c, t) && t.T? && n == t.n && c.Up? && p == c.n && gp == Par(e, c.up)
    requires c.sib.T? && sibling == c.sib.n && pdir == c.d && gpdir == HoleDir(c.up) && !IsRed(Kid(t, Opp(dir)))
    requires e.odd == null
    modifies {p, gp} + Nodes(c.sib), All(e, c, t)`red
    ensures var z := BalRem(c, t, dir); View(e, z.c, z.t) && All(e, z.c, z.t) == All(e, c, t) && !Misread(z.c, n)
  {
    hide View, All, Flat, Inorder, Rep, RepC, Nodes, CNodes, RepZ, Ordered, TotalOrder;
    ghost var z, d, s := BalRem(c, t, dir), c.d, c.sib;
    ghost var cs := Up(Opp(d), c.red, p, t, c.up);
    Up1(e, c, t);
    assert Plug1(cs, s) == Plug1(c, t);
    Down1(e, cs, s);
    Look(e, cs, s);
    if sibling.IsRedSafe(Left) || sibling.IsRedSafe(Right) {
      LiftSibling(n, p, gp, pdir, gpdir, sibling, dir, e, c, t);
    } else {
      FlipAt(n, p, sibling, e, c, t);
    }
  }

  /** A sibling with a red child: one of them comes up between the node and the sibling. */
  method LiftSibling(n: RbNode, p: RbNode, gp: RbNode, pdir: Dir, gpdir: Dir, sibling: RbNode,
                     ghost dir: Dir, ghost e: Env, ghost c: Ctx, ghost t: Tree)
    requires View(e, c, t) && t.T? && n == t.n && c.Up? && p == c.n && gp == Par(e, c.up)
    requires c.sib.T? && sibling == c.sib.n && pdir == c.d && gpdir == HoleDir(c.up) && !IsRed(Kid(t, Opp(dir)))
    requires sibling.IsThread(Left) == c.sib.l.E? && sibling.IsThread(Right) == c.sib.r.E?
    requires forall d :: !sibling.IsThread(d) ==> sibling.Link(d) != null && sibling.Link(d).red == IsRed(Kid(c.sib, d))
    requires IsRed(c.sib.l) || IsRed(c.sib.r)
    requires e.odd == null
    modifies {p, gp} + Nodes(c.sib), All(e, c, t)`red
    ensures var z := BalRem(c, t, dir); View(e, z.c, z.t) && All(e, z.c, z.t) == All(e, c, t) && !Misread(z.c, n)
  {
    hide View, All, Flat, Inorder, Rep, RepC, Nodes, CNodes, RepZ, Ordered, TotalOrder;
    ghost var z, d, s := BalRem(c, t, dir), c.d, c.sib;
    SibApart(e, c, t);
    Up1(e, c, t);
    FocusIn(e, c.up, Plug1(c, t));
    ghost var a, m, b;
    if sibling.IsRedSafe(pdir) {
      RotateDoubleAt(gp, gpdir, p, pdir, e, c.up, Plug1(c, t), s.n, Kid(s, d).n);
      ghost var i := Kid(s, d);
      a, m, b := Kid(i, d), i.n, Mk(d, Kid(i, Opp(d)), true, s.n, Kid(s, Opp(d)));
      assert Rot2(Plug1(c, t), d) == Mk(d, Mk(d, t, true, p, a), false, m, b);
    } else {
      RotateAt(gp, gpdir, p, pdir, e, c.up, Plug1(c, t), s.n);
      a, m, b := Kid(s, d), s.n, Kid(s, Opp(d));
      assert Rot(Plug1(c, t), d) == Mk(d, Mk(d, t, true, p, a), false, m, b);
    }
    assert p.IsThread(Opp(d)) ==> p.Link(Opp(d)) == m;
    CrownAt(n, gp, gpdir, e, c.up, d, t, true, p, a, false, m, b);
    Down1(e, z.c.up, Plug1(z.c, z.t));
    Look(e, z.c.up, Plug1(z.c, z.t));
    assert z.c.n == p && z.c.d == d && p.IsThread(Opp(d)) == z.c.sib.E?;
    assert m in Nodes(c.sib);
    Down1(e, z.c, z.t);
  }

  lemma SibApart(e: Env, c: Ctx, t: Tree)
    requires View(e, c, t) && t.T? && c.Up? && c.sib.T?
    ensures t.n !in Nodes(c.sib) && c.sib.n in Nodes(c.sib)
    ensures forall d :: Kid(c.sib, d).T? ==> Kid(c.sib, d).n in Nodes(c.sib)
  {
    Split(e, c, t);
    NodesTop(c.sib);
    forall d | Kid(c.sib, d).T?
      ensures Kid(c.sib, d).n in Nodes(c.sib)
    {
      NodesTop(Kid(c.sib, d));
    }
  }
}
