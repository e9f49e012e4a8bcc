/** The parts of top-down insertion: one visit of the descent, and hanging in the new node. */
module RbInsert {
  import opened RbShape
  import opened RbBalance
  import opened RbHeap
  import opened RbSurgery
  import opened RbSearch
  import opened RbWhole

  /** One visit of the insertion descent: recolour and rotate if both children are red. `m` is the state of
      the window before the visit, `m'` the one for the next node. */
  method Visit(n: RbNode, p: RbNode, gp: RbNode, ggp: RbNode, ghost key: Key, ghost e: Env, ghost c: Ctx,
               ghost t: Tree, ghost h: nat, ghost m: nat, ghost rights: map<RbNode, RbNode?>)
    returns (ghost c': Ctx, ghost t': Tree, ghost h': nat, ghost m': nat)
    requires View(e, c, t) && ZBalanced(c, t, h) && t.T? && n == t.n && p == Par(e, c)
    requires Between(e.cmp, c, key, true) && Window(m, e, c, t, key, gp, ggp) && e.odd == null
    requires Splits(t) ==> Keeps(rights, Nodes(t.l) + Nodes(t.r))
    modifies if Splits(t) then All(e, c, t) else {}
    ensures View(e, c', t') && All(e, c', t') == All(e, c, t) && Flat(c', t') == Flat(c, t)
    ensures ZBalanced(c', t', h') && t'.T? && n == t'.n && Between(e.cmp, c', key, true)
    ensures var d := SearchDir(e.cmp, n, key); e.cmp(n.key, key) != 0 ==>
      && Window(m', e, Below(c', t', d), Kid(t', d), key, p, gp)
      && (Kid(t', d).E? ==> p == Par(e, c') && (t'.red ==> c'.Up? && !IsRed(c'.sib) && gp == Par(e, c'.up)))
    ensures Zip(c', t') == if Splits(t) then BalIns(c, t) else Zip(c, t)
    ensures m' == if !Splits(t) then Next(m) else if Doubles(c) then 2 else 1
    ensures Splits(t) ==> Keeps(rights, Nodes(t.l) + Nodes(t.r))
    ensures if Splits(t) then !t.red && if m' == 2 then !t'.red && h' == h + 1 else m' == 1 && t'.red && h' == h
            else t == t' && h == h' && m' == Next(m)
  {
    hide View, All, Flat, Inorder, Rep, RepC, Nodes, CNodes, RepZ, Ordered, TotalOrder,
      Between, Window, Balanced, CBalanced, Mk;
    c', t', h' := c, t, h;
    Look(e, c, t);
    if n.IsRedSafe(Left) && n.IsRedSafe(Right) {
      SplitNeedsExact(m, e, c, t, h, key, gp, ggp);
      SplitFacts(e, c, t, h, key, gp, ggp);
      SplitStraight(c, t, h);
      BelowUntouched(e, c, t);
      BalanceInsertion(n, p, gp, ggp, e, c, t);
      h', m' := if Doubles(c) then h + 1 else h, if Doubles(c) then 2 else 1;
      c', t' := BalIns(c, t).c, BalIns(c, t).t;
    } else {
      NextWindow(m, e, c, t, h, key, gp, ggp);
      LeafWindow(m, e, c, t, key, gp, ggp);
      m' := Next(m);
    }
  }

  /** The nodes below the focus are none of those around it. */
  lemma BelowUntouched(e: Env, c: Ctx, t: Tree)
    requires View(e, c, t) && t.T?
    ensures (Nodes(t.l) + Nodes(t.r)) !! {t.n, Par(e, c)} && Nodes(t.l) + Nodes(t.r) <= Nodes(t)
    ensures {t.n, Par(e, c)} <= All(e, c, t) && Nodes(t) <= All(e, c, t)
    ensures t.n != e.sent && (c.Up? ==> c.n != e.sent)
    ensures c.Up? ==> (Nodes(t.l) + Nodes(t.r)) !! {c.n, Par(e, c.up)} && {c.n, Par(e, c.up)} <= All(e, c, t)
    ensures c.Up? && c.up.Up? ==>
      (Nodes(t.l) + Nodes(t.r)) !! {Par(e, c.up.up)} && {c.up.n, Par(e, c.up.up)} <= All(e, c, t)
  {
    ParIn(e, c);
    if c.Up? { ParIn(e, c.up); }
    if c.Up? && c.up.Up? { ParIn(e, c.up.up); }
  }

  /** A node that splits is too high up for a link test to meet a thread. */
  lemma SplitStraight(c: Ctx, t: Tree, h: nat)
    requires ZBalanced(c, t, h) && Splits(t)
    ensures Straight(c, t.n)
  {
    assert Balanced(t.l, h - 1);
    HeightFlanks(c, h, 3);
    if c.Up? && c.up.Up? { assert Flanked(c.up, 2) && Flanked(c.up.up, 1); }
  }

  lemma LeafWindow(m: nat, e: Env, c: Ctx, t: Tree, key: Key, gp: RbNode, ggp: RbNode)
    requires t.T? && Window(m, e, c, t, key, gp, ggp)
    ensures Kid(t, SearchDir(e.cmp, t.n, key)).E? && t.red ==> c.Up? && !IsRed(c.sib) && gp == Par(e, c.up)
  {
  }

  lemma SplitFacts(e: Env, c: Ctx, t: Tree, h: nat, key: Key, gp: RbNode, ggp: RbNode)
    requires ZBalanced(c, t, h) && Window(0, e, c, t, key, gp, ggp) && Splits(t) && View(e, c, t)
    requires Between(e.cmp, c, key, true)
    ensures var z := BalIns(c, t);
      && z.t.T? && z.t.n == t.n && z.t.l.T? && z.t.r.T? && Flat(z.c, z.t) == Flat(c, t)
      && ZBalanced(z.c, z.t, if Doubles(c) then h + 1 else h) && Between(e.cmp, z.c, key, true)
      && z.t.red == !Doubles(c) && !t.red
    ensures var z := BalIns(c, t);
      var d := SearchDir(e.cmp, z.t.n, key);
      e.cmp(t.n.key, key) != 0 ==>
      Window(if Doubles(c) then 2 else 1, e, Below(z.c, z.t, d), Kid(z.t, d), key, Par(e, c), gp)
  {
    SplitThenCalm(c, t, h);
    BalInsFlat(c, t);
    BalInsBalanced(c, t, h);
    BalInsBetween(e.cmp, c, t, key);
    SplitWindow(e, c, t, h, key, gp, ggp);
  }

  /** Steps left in the descent: grows by a double rotation, but less than the stale window takes off. */
  ghost function Steps(h: nat, t: Tree, m: nat): int {
    5 * (2 * h + (if IsRed(t) then 1 else 0)) - (if m == 2 then 6 else if m == 1 then 2 else 0)
  }

  lemma EqualKeys(e: Env, c: Ctx, t: Tree, a: Key, b: Key)
    requires View(e, c, t) && e.cmp(a, b) == 0
    ensures a == b
  {
  }

  lemma WindowSteps(m: nat, e: Env, c: Ctx, t: Tree, h: nat, key: Key, gp: RbNode, ggp: RbNode)
    requires ZBalanced(c, t, h) && Window(m, e, c, t, key, gp, ggp)
    ensures Steps(h, t, m) >= 0 && m <= 2
    ensures Splits(t) ==> m == 0
    ensures m == 1 ==> !IsRed(t)
    ensures m == 2 ==> IsRed(t)
    ensures IsRed(t) ==> !IsRed(t.l) && !IsRed(t.r)
  {
    if m == 2 {
      assert Balanced(Kid(t, SearchDir(e.cmp, t.n, key)), h);
    }
  }

  lemma StartFacts(e: Env, t: Tree, h: nat, key: Key, gp: RbNode, ggp: RbNode)
    requires Balanced(t, h) && !IsRed(t)
    ensures ZBalanced(Root, t, h) && Between(e.cmp, Root, key, true) && Window(0, e, Root, t, key, gp, ggp)
    ensures Par(e, Root) == e.sent
  {
  }

  /** One level down along the search path. */
  lemma StepDown(e: Env, c: Ctx, t: Tree, h: nat, key: Key)
    requires View(e, c, t) && t.T? && ZBalanced(c, t, h) && Between(e.cmp, c, key, true)
    requires e.cmp(t.n.key, key) != 0
    ensures var d := SearchDir(e.cmp, t.n, key);
      && View(e, Below(c, t, d), Kid(t, d)) && All(e, Below(c, t, d), Kid(t, d)) == All(e, c, t)
      && Flat(Below(c, t, d), Kid(t, d)) == Flat(c, t)
      && Between(e.cmp, Below(c, t, d), key, true) && Par(e, Below(c, t, d)) == t.n
    ensures t.red || h > 0
    ensures ZBalanced(Below(c, t, SearchDir(e.cmp, t.n, key)), Kid(t, SearchDir(e.cmp, t.n, key)),
                      if t.red then h else h - 1)
  {
    var d := SearchDir(e.cmp, t.n, key);
    Split(e, c, t);
    BelowPlug(c, t, d);
    Down1(e, Below(c, t, d), Kid(t, d));
    StepBetween(e.cmp, c, t, key, true);
  }

  /** The right thread the new node gets: that of its parent, or one to its parent. */
  function Inherited(n: RbNode, dir: Dir): RbNode?
    reads n
  { if dir == Right then n.right else n }

  /** A node that is not in the tree, hung in at the hole: it inherits the thread of its parent. */
  method AttachLeaf(node: RbNode, n: RbNode, dir: Dir, ghost e: Env, ghost b: Ctx)
    requires e.exact || (e.odd == node && e.aim == Inherited(n, dir))
    requires RepC(e, b, null) && b.Up? && n == b.n && dir == b.d && TotalOrder(e.cmp)
    requires node !in CNodes(b) && node != e.sent && n != e.odd
    modifies node, n`left, n`right, n`leftThread, n`rightThread
    ensures RepC(e, b, node)
    ensures Rep(e, T(E, node.red, node, E), Bound(e, b, Left), Bound(e, b, Right))
    ensures dir == Left ==> n.right == old(n.right)
  {
    hide RepC, CNodes, Nodes, Around, Rep, Thread, TotalOrder, LinkOk;
    FrameView(e, b, null);
    AroundApart(e, b);
    AroundNode(e, b, node);
    BoundUp(e, b.d, b.red, b.n, b.sib, b.up);
    assert allocated(Nodes(b.sib)) && allocated(CNodes(b.up));
    HangLinks(node, n, dir, e, Top(b.sib), Bound(e, b.up, dir), Bound(e, b.up, Opp(dir)));
    FrameView(e, b, node);
    LeafRep(e, node, Bound(e, b, Left), Bound(e, b, Right));
  }

  /** The writes to the two nodes, seen through links. */
  method HangLinks(node: RbNode, n: RbNode, dir: Dir, ghost e: Env, ghost sib: RbNode?, ghost near: RbNode,
                   ghost far: RbNode)
    requires e.exact || (e.odd == node && e.aim == Inherited(n, dir))
    requires TotalOrder(e.cmp) && node != n && n != e.odd
    requires LinkOk(e, n, dir, null, near) && LinkOk(e, n, Opp(dir), sib, far)
    modifies node, n`left, n`right, n`leftThread, n`rightThread
    ensures HungIn(node, n, dir)
    ensures LinkOk(e, n, dir, node, near) && LinkOk(e, n, Opp(dir), sib, far)
    ensures LinkOk(e, node, dir, null, near) && LinkOk(e, node, Opp(dir), null, n)
  {
    hide Thread, TotalOrder;
    LeafThread(e, node, n, dir, n.Link(dir), near);
    HangIn(node, n, dir);
  }

  /** The new node inherits the thread of its parent and gets one to it. */
  method HangIn(node: RbNode, n: RbNode, dir: Dir)
    requires node != n
    modifies node, n`left, n`right, n`leftThread, n`rightThread
    ensures HungIn(node, n, dir)
  {
    node.leftThread, node.rightThread := true, true;
    node.SetLink(dir, n.Link(dir));
    node.SetLink(Opp(dir), n);
    n.SetLink(dir, node);
    n.SetThread(dir, false);
  }

  twostate predicate HungIn(node: RbNode, n: RbNode, dir: Dir)
    reads node, n
  {
    && node.leftThread && node.rightThread && node.red == old(node.red)
    && node.Link(dir) == old(n.Link(dir)) && node.Link(Opp(dir)) == n
    && n.Link(dir) == node && !n.IsThread(dir)
    && n.Link(Opp(dir)) == old(n.Link(Opp(dir))) && n.IsThread(Opp(dir)) == old(n.IsThread(Opp(dir)))
    && n.red == old(n.red)
  }

  lemma AroundNode(e: Env, b: Ctx, node: RbNode)
    requires b.Up? && node !in CNodes(b)
    ensures node !in Nodes(b.sib) && node !in CNodes(b.up) && node != b.n
  {
  }

  lemma LeafRep(e: Env, node: RbNode, lo: RbNode, hi: RbNode)
    requires node != e.sent && LinkOk(e, node, Left, null, lo) && LinkOk(e, node, Right, null, hi)
    ensures Rep(e, T(E, node.red, node, E), lo, hi)
  {
    assert Nodes(E) == {};
  }

  /** The thread the new leaf inherits, and the one to its parent. */
  lemma LeafThread(e: Env, node: RbNode, n: RbNode, dir: Dir, target: RbNode?, bound: RbNode)
    requires TotalOrder(e.cmp) && Thread(e, n, dir, target, bound) && n != e.odd
    requires e.exact || (e.odd == node && e.aim == if dir == Right then target else n)
    ensures Thread(e, node, dir, target, bound) && Thread(e, node, Opp(dir), n, n)
  {
  }

  /** A link test of the rebalancing after the new node is hung in would take a thread for a link: below a red
      parent on its left, the right thread of the parent leads to the new node (which has been in the tree
      before); or the parent is itself a left child without a sibling, and the right thread of its parent leads
      to it. */
  ghost predicate Misleads(c: Ctx, t: Tree, dir: Dir, node: RbNode)
    requires t.T?
    reads t.n, if c.Up? then {c.n} else {}
  { t.red && (Misread(Below(c, t, dir), node) || Misread(c, t.n)) }

  /** The descent has ended below `t`, a plain search at `b`: that is the same link, and what the final link
      tests look at has not changed on the way, unless it no longer matters. */
  ghost predicate Bottom(rights: map<RbNode, RbNode?>, c: Ctx, t: Tree, dir: Dir, b: Ctx)
    requires t.T?
    reads t.n, if c.Up? then {c.n} else {}
  {
    && b.Up? && b.n == t.n && b.d == dir
    && if t.red then
         && b.red && b.sib == Kid(t, Opp(dir)) && SameTop(c, b.up) && !IsRed(c.sib)
         && Keeps(rights, {t.n, c.n})
       else b.red ==> b.up.Up? && IsRed(b.up.sib)
  }

  lemma BottomTells(rights: map<RbNode, RbNode?>, c: Ctx, t: Tree, dir: Dir, b: Ctx, node: RbNode)
    requires t.T? && Bottom(rights, c, t, dir, b)
    ensures Misleads(c, t, dir, node) <==> Ensnared(rights, b, node)
  {
    assert t.red ==> Keeps(rights, {t.n, c.n}) && t.n in {t.n, c.n} && c.n in {t.n, c.n};
  }

  /** The right links below the plain search have not changed, nor has that of the parent of a red node that the
      descent reaches with an exact window. */
  ghost predicate Undone(rights: map<RbNode, RbNode?>, m: nat, c: Ctx, t: Tree, t0: Tree)
    reads Nodes(t0), if c.Up? then {c.n} else {}
  { Keeps(rights, Nodes(t0)) && (m == 0 && IsRed(t) ==> c.Up? && Keeps(rights, {c.n})) }

  lemma UndoneStart(rights: map<RbNode, RbNode?>, e: Env, t: Tree, key: Key)
    requires !IsRed(t) && Keeps(rights, All(e, Root, t))
    ensures Undone(rights, 0, Root, t, t) && Follows(0, e.cmp, key, Root, t, Root, t)
  {
    assert Nodes(t) <= All(e, Root, t);
  }

  lemma UndoneSplit(rights: map<RbNode, RbNode?>, m: nat, cmp: Order, key: Key, c: Ctx, t: Tree, c0: Ctx, t0: Tree)
    requires Follows(m, cmp, key, c, t, c0, t0) && Undone(rights, m, c, t, t0) && (Splits(t) ==> m == 0)
    ensures Splits(t) ==> Keeps(rights, Nodes(t.l) + Nodes(t.r))
  {
    assert Splits(t) ==> Nodes(t.l) + Nodes(t.r) <= Nodes(t0);
  }

  /** One step down after the visit of `t` in `c`, which has become `z`. */
  lemma UndoneStep(rights: map<RbNode, RbNode?>, m: nat, cmp: Order, key: Key, c: Ctx, t: Tree, c0: Ctx, t0: Tree,
                   z: Zip, d: Dir)
    requires t.T? && z.t.T? && Follows(m, cmp, key, c, t, c0, t0) && (m != 2 ==> t0.T?)
    requires if Splits(t) then m == 0 && Keeps(rights, Nodes(t.l) + Nodes(t.r))
             else z == Zip(c, t) && Undone(rights, m, c, t, t0)
    ensures Undone(rights, if Splits(t) then 1 else Next(m), Below(z.c, z.t, d), Kid(z.t, d),
                   if m == 2 then t0 else Kid(t0, d))
    ensures Undone(rights, if Splits(t) then 2 else Next(m), Below(z.c, z.t, d), Kid(z.t, d),
                   if m == 2 then t0 else Kid(t0, d))
  {
    if Splits(t) {
      assert Nodes(Kid(t0, d)) <= Nodes(t.l) + Nodes(t.r);
    } else if m != 2 {
      assert Nodes(Kid(t0, d)) <= Nodes(t0) && z.t.n in Nodes(t0);
    }
  }

  lemma BottomReached(rights: map<RbNode, RbNode?>, m: nat, e: Env, c: Ctx, t: Tree, h: nat, c0: Ctx, t0: Tree,
                      key: Key, gp: RbNode, ggp: RbNode)
    requires t.T? && ZBalanced(c, t, h) && Window(m, e, c, t, key, gp, ggp) && !Splits(t)
    requires Follows(m, e.cmp, key, c, t, c0, t0) && e.cmp(t.n.key, key) != 0
    requires Kid(t, SearchDir(e.cmp, t.n, key)).E?
    requires Undone(rights, m, c, t, t0)
    ensures var z := Spot(e.cmp, c0, t0, key); z.t == E && Bottom(rights, c, t, SearchDir(e.cmp, t.n, key), z.c)
  {
    var d := SearchDir(e.cmp, t.n, key);
    assert t0.T? && t0.n in Nodes(t0);
    assert Spot(e.cmp, c0, t0, key) == Zip(Below(c0, t0, d), E);
  }

  /** Hangs the new node in and restores the red-black rules around it, unless a link test is misread. */
  method Attach(node: RbNode, n: RbNode, p: RbNode, gp: RbNode, dir: Dir, ghost e: Env, ghost c: Ctx,
                ghost t: Tree, ghost h: nat)
    returns (ghost z: Zip, ghost h': nat)
    requires (if e.exact then e.odd == null else e.odd == node && e.aim == Inherited(n, dir)) && node != e.sent
    requires View(e, c, t) && ZBalanced(c, t, h) && t.T? && n == t.n && node !in All(e, c, t)
    requires Kid(t, dir).E? && dir == SearchDir(e.cmp, n, node.key) && e.cmp(n.key, node.key) != 0
    requires Between(e.cmp, c, node.key, true)
    requires p == Par(e, c) && (t.red ==> c.Up? && !IsRed(c.sib) && gp == Par(e, c.up))
    modifies All(e, c, t), node
    ensures !old(Misleads(c, t, dir, node)) ==> View(e, z.c, z.t) && All(e, z.c, z.t) == All(e, c, t) + {node}
    ensures old(Misleads(c, t, dir, node)) ==>
      c.Up? && Wrong(node, n, p, dir, c.d, null) && e.sent.left != null && e.sent.left in All(e, c, t) + {node}
    ensures ZBalanced(z.c, z.t, h') && z.t.T?
    ensures var b := Below(c, t, dir);
      Flat(c, t) == Before(b) + After(b) && Flat(z.c, z.t) == Before(b) + [node] + After(b)
    ensures Between(e.cmp, Below(c, t, dir), node.key, true)
    ensures z == BalIns(Below(c, t, dir), T(E, false, node, E))
  {
    hide View, All, Flat, Inorder, Rep, RepC, Nodes, CNodes, RepZ, Ordered, TotalOrder, Between, Balanced, CBalanced,
      Wrong;
    ghost var b := Below(c, t, dir);
    HoleView(e, c, t, h, node);
    if t.red { HoleStraight(c, t, h, dir); }
    BelowUntouched(e, c, t);
    RootIn(e, c, t);
    RootDown(e, c, t);
    assert allocated(CNodes(b));
    FocusIn(e, c, t);
    ghost var misled := Misleads(c, t, dir, node);
    AttachLeaf(node, n, dir, e, b);
    ghost var leaf := T(E, node.red, node, E);
    LeafView(e, b, node);
    assert Plain(e, b);
    assert RedTop(b) ==> (Straight(b, node) <==> !misled);
    BalanceInsertion(node, n, p, gp, e, b, leaf);
    z, h' := BalIns(b, leaf), if Doubles(b) then 1 else 0;
    BalInsFlat(b, leaf);
    LeafBalanced(b, leaf);
  }

  /** Where a leaf hangs, only the two lower tests can meet a thread. */
  lemma HoleStraight(c: Ctx, t: Tree, h: nat, dir: Dir)
    requires ZBalanced(c, t, h) && t.T? && Kid(t, dir).E? && t.red && c.Up?
    ensures !c.red && Flanked(c.up, 1) && Kid(t, Opp(dir)).E?
  {
    HeightFlanks(c.up, h + 1, 1);
    assert Balanced(t.l, h) && Balanced(t.r, h) && !IsRed(t.l) && !IsRed(t.r);
    assert Balanced(Kid(t, dir), h);
  }

  /** The empty hole where the key belongs: no node with that key exists, and a red leaf fits its height. */
  lemma HoleView(e: Env, c: Ctx, t: Tree, h: nat, node: RbNode)
    requires View(e, c, t) && t.T? && ZBalanced(c, t, h) && Between(e.cmp, c, node.key, true)
    requires e.cmp(t.n.key, node.key) != 0
    requires Kid(t, SearchDir(e.cmp, t.n, node.key)).E?
    ensures var b := Below(c, t, SearchDir(e.cmp, t.n, node.key));
      && RepC(e, b, null) && e.sent !in CNodes(b) && node !in CNodes(b) && CBalanced(b, 0)
      && CNodes(b) + {e.sent} == All(e, c, t)
      && Flat(c, t) == Before(b) + After(b) && Ordered(e.cmp, Before(b) + After(b))
      && TotalOrder(e.cmp) && Between(e.cmp, b, node.key, true)
  {
    var b := Below(c, t, SearchDir(e.cmp, t.n, node.key));
    StepDown(e, c, t, h, node.key);
    assert Flat(b, E) == Before(b) + After(b);
    CNodesFlat(b);
  }

  lemma CNodesFlat(c: Ctx)
    ensures forall x :: x in CNodes(c) <==> x in Before(c) || x in After(c)
  {
    if c.Up? {
      InorderNodes(c.sib);
      CNodesFlat(c.up);
    }
  }

  lemma LeafView(e: Env, b: Ctx, node: RbNode)
    requires RepC(e, b, node) && Rep(e, T(E, node.red, node, E), Bound(e, b, Left), Bound(e, b, Right))
    requires e.sent !in CNodes(b) && node !in CNodes(b) && node != e.sent
    requires TotalOrder(e.cmp) && Between(e.cmp, b, node.key, true) && Ordered(e.cmp, Before(b) + After(b))
    ensures var leaf := T(E, node.red, node, E);
      && View(e, b, leaf) && All(e, b, leaf) == CNodes(b) + {e.sent} + {node}
      && Flat(b, leaf) == Before(b) + [node] + After(b)
  {
    hide RepC, Rep, TotalOrder, Ordered;
    LeafParts(node);
    OrderedInsert(e.cmp, Before(b), node, After(b));
  }

  lemma LeafParts(node: RbNode)
    ensures var leaf := T(E, node.red, node, E); Inorder(leaf) == [node] && Nodes(leaf) == {node}
  {
    assert Inorder(E) == [] && Nodes(E) == {};
  }

  lemma OrderedInsert(cmp: Order, a: seq<RbNode>, node: RbNode, z: seq<RbNode>)
    requires TotalOrder(cmp) && Ordered(cmp, a + z)
    requires forall x :: x in a ==> cmp(x.key, node.key) > 0
    requires forall x :: x in z ==> cmp(x.key, node.key) < 0
    ensures Ordered(cmp, a + [node] + z)
  {
    OrderedSplit(cmp, a, z);
    var s := a + [node] + z;
    forall i, j | 0 <= i < j < |s| ensures cmp(s[i].key, s[j].key) > 0 {
      assert i < |a| ==> s[i] in a;
      assert j > |a| ==> s[j] in z;
      if i > |a| { assert s[i] == z[i - |a| - 1] && s[j] == z[j - |a| - 1]; }
    }
  }

  lemma LeafBalanced(b: Ctx, leaf: Tree)
    requires leaf.T? && leaf.l.E? && leaf.r.E? && CBalanced(b, 0) && Clear(b)
    ensures ZBalanced(BalIns(b, leaf).c, BalIns(b, leaf).t, if Doubles(b) then 1 else 0)
  {
    BalInsBalanced(b, leaf, 0);
  }

  lemma AbsentBetween(e: Env, b: Ctx, key: Key)
    requires TotalOrder(e.cmp) && Between(e.cmp, b, key, true)
    ensures forall x :: x in Before(b) + After(b) ==> x.key != key
  {
  }

  // ---------------------------------------------------------------- the thread of the new node

  lemma BoundSame(e: Env, e': Env, c: Ctx)
    requires e'.sent == e.sent
    ensures Bound(e', c, Left) == Bound(e, c, Left) && Bound(e', c, Right) == Bound(e, c, Right)
  {
  }

  ghost function Pinned(e: Env, x: RbNode, aim: RbNode?): Env { e.(odd := x, aim := aim) }

  lemma PinRep(e: Env, x: RbNode, aim: RbNode?, t: Tree, lo: RbNode, hi: RbNode)
    requires e.odd == null && Rep(e, t, lo, hi) && x !in Nodes(t)
    ensures Rep(Pinned(e, x, aim), t, lo, hi)
  {
  }

  lemma PinC(e: Env, x: RbNode, aim: RbNode?, c: Ctx, n: RbNode?)
    requires e.odd == null && RepC(e, c, n) && x !in CNodes(c)
    ensures RepC(Pinned(e, x, aim), c, n)
  {
    if c.Up? {
      BoundSame(e, Pinned(e, x, aim), c.up);
      PinRep(e, x, aim, c.sib, KidLo(Opp(c.d), Bound(e, c.up, Left), c.n), KidHi(Opp(c.d), c.n, Bound(e, c.up, Right)));
      PinC(e, x, aim, c.up, c.n);
    }
  }

  /** What is claimed of a node outside the tree does not matter. */
  lemma PinView(e: Env, x: RbNode, aim: RbNode?, c: Ctx, t: Tree)
    requires e.odd == null && View(e, c, t) && x !in All(e, c, t)
    ensures View(Pinned(e, x, aim), c, t) && All(Pinned(e, x, aim), c, t) == All(e, c, t)
    ensures Par(Pinned(e, x, aim), c) == Par(e, c)
  {
    BoundSame(e, Pinned(e, x, aim), c);
    PinRep(e, x, aim, t, Bound(e, c, Left), Bound(e, c, Right));
    PinC(e, x, aim, c, Top(t));
  }

  ghost function Unpinned(e: Env, noisy: set<RbNode>): Env { e.(odd := null, aim := null, noisy := noisy) }

  /** The pinned thread, if it still is one, keeps the common promise once `noisy` nodes are excepted. */
  ghost predicate Settled(e: Env, noisy: set<RbNode>)
    requires e.odd != null
    reads e.odd
  { e.odd.rightThread ==> e.aim != null && Fair(Unpinned(e, noisy), e.odd, e.aim) }

  /** The pinned thread is the only thing that decides. */
  lemma UnpinRep(e: Env, t: Tree, lo: RbNode, hi: RbNode, noisy: set<RbNode>)
    requires !e.exact && e.odd != null && e.noisy <= noisy && Rep(e, t, lo, hi)
    ensures Rep(Unpinned(e, noisy), t, lo, hi) <==> (e.odd in Nodes(t) ==> Settled(e, noisy))
  {
    if t.T? {
      UnpinRep(e, t.l, lo, t.n, noisy);
      UnpinRep(e, t.r, t.n, hi, noisy);
    }
  }

  lemma UnpinView(e: Env, t: Tree, noisy: set<RbNode>)
    requires !e.exact && e.odd != null && e.noisy <= noisy && View(e, Root, t)
    ensures View(Unpinned(e, noisy), Root, t) <==> (e.odd in Nodes(t) ==> Settled(e, noisy))
    ensures All(Unpinned(e, noisy), Root, t) == All(e, Root, t)
  {
    UnpinRep(e, t, e.sent, e.sent, noisy);
    RootView(e, Top(t));
    RootView(Unpinned(e, noisy), Top(t));
  }
}
