/** The two rebalancing steps of the top-down algorithms as functions on a shape with a hole,
    and what they keep: the in-order sequence, the red-black rules, and the facts about the
    next levels that make a stale window of ancestors harmless. */
module RbBalance {
  import opened RbShape

  datatype Zip = Zip(c: Ctx, t: Tree)

  /** There is room for a rotation above a red parent: a grandparent, whose other child is not red. */
  predicate Clear(c: Ctx) { RedTop(c) ==> c.up.Up? && !IsRed(c.up.sib) }

  /** Both children of `t` red: the only situation in which the insertion descent rebalances. */
  predicate Splits(t: Tree) { t.T? && IsRed(t.l) && IsRed(t.r) }

  /** `n` turns red; when it has both children they turn black. */
  function Recolor(t: Tree): Tree
    requires t.T?
  {
    if t.l.T? && t.r.T? then T(Paint(t.l, false), true, t.n, Paint(t.r, false)) else Paint(t, true)
  }

  /** The parent is red and bends the other way than the grandparent: a double rotation follows. */
  predicate Doubles(c: Ctx) { RedTop(c) && c.up.Up? && c.d != c.up.d }

  /** cldm_rbtree_balance_insertion on the subtree `t` in the hole of `c`; the result is focused on
      the node that `t` was rooted at. */
  function BalIns(c: Ctx, t: Tree): Zip
    requires t.T? && (RedTop(c) ==> c.up.Up?)
  {
    var t1 := Recolor(t);
    if !RedTop(c) then Zip(c, t1)
    else
      var g := c.up;
      var away := Opp(g.d);
      if c.d != g.d then
        Zip(g.up, Rot2(Mk(g.d, Mk(c.d, t1, true, c.n, c.sib), true, g.n, g.sib), away))
      else
        Zip(Up(g.d, false, c.n, Mk(away, g.sib, true, g.n, c.sib), g.up), t1)
  }

  lemma BalInsFlat(c: Ctx, t: Tree)
    requires t.T? && (RedTop(c) ==> c.up.Up?)
    ensures BalIns(c, t).t.T? && BalIns(c, t).t.n == t.n
    ensures Flat(BalIns(c, t).c, BalIns(c, t).t) == Flat(c, t)
  {
    var t1 := Recolor(t);
    assert Inorder(t1) == Inorder(t);
    if RedTop(c) {
      var g := c.up;
      var top := Mk(g.d, Mk(c.d, t1, true, c.n, c.sib), true, g.n, g.sib);
      FlatStep(c.d, true, c.n, c.sib, g, t1);
      FlatStep(g.d, true, g.n, g.sib, g.up, Mk(c.d, t1, true, c.n, c.sib));
      assert Flat(g, Mk(c.d, t1, true, c.n, c.sib)) == Flat(g.up, top);
      if c.d != g.d {
        var p := Mk(c.d, t1, true, c.n, c.sib);
        RotInorder(p, g.d);
        RotInorder(Mk(Opp(g.d), g.sib, true, g.n, Rot(p, g.d)), Opp(g.d));
        MkInorder(g.d, p, Rot(p, g.d), true, g.n, g.sib);
      } else {
        RotInorder(top, Opp(g.d));
        FlatStep(g.d, false, c.n, Mk(Opp(g.d), g.sib, true, g.n, c.sib), g.up, t1);
      }
    }
  }

  /** Only the missing red-red check at the parent is open after recolouring; the step closes it. */
  lemma BalInsBalanced(c: Ctx, t: Tree, h: nat)
    requires t.T? && Clear(c)
    requires Balanced(Recolor(t), h) && CBalanced(c, h)
    ensures ZBalanced(BalIns(c, t).c, BalIns(c, t).t, if Doubles(c) then h + 1 else h)
  {
    var z := BalIns(c, t);
    if RedTop(c) && c.d != c.up.d {
      var g, t1 := c.up, Recolor(t);
      assert Balanced(c.sib, h) && Balanced(g.sib, h) && CBalanced(g.up, h + 1);
      assert Balanced(t1.l, h) && Balanced(t1.r, h) && t1.red;
      var p := Mk(g.d, c.sib, true, c.n, Kid(t1, g.d));
      var q := Mk(Opp(g.d), g.sib, true, g.n, Kid(t1, Opp(g.d)));
      assert Balanced(p, h) && Balanced(q, h);
      assert z.t == Mk(g.d, p, false, t.n, q);
      assert ZBalanced(z.c, z.t, h + 1);
    } else {
      assert ZBalanced(z.c, z.t, h);
    }
  }

  /** A subtree at which nothing can happen: black with no red child. */
  ghost predicate Calm(t: Tree) { t.T? && !t.red && !IsRed(t.l) && !IsRed(t.r) }

  /** After a split the next one or two nodes on the search path cannot split again: without a double
      rotation both children are calm; with one, the old parent and grandparent are red children
      whose inner subtree is calm. */
  lemma SplitThenCalm(c: Ctx, t: Tree, h: nat)
    requires Splits(t) && ZBalanced(c, t, h) && (RedTop(c) ==> c.up.Up?)
    ensures Balanced(Recolor(t), h)
    ensures var z := BalIns(c, t);
      if Doubles(c)
      then !z.t.red && IsRed(z.t.l) && IsRed(z.t.r) && Calm(z.t.l.r) && Calm(z.t.r.l)
           && {z.t.l.n, z.t.r.n} == {c.n, c.up.n}
      else z.t.red && Calm(z.t.l) && Calm(z.t.r) && (z.c.Up? <==> c.Up?) && (c.Up? ==> z.c.n == c.n)
  {
    assert Balanced(t.l, h - 1) && Balanced(t.r, h - 1);
    SplitRecolored(t, h);
  }

  lemma SplitRecolored(t: Tree, h: nat)
    requires Splits(t) && Balanced(t, h)
    ensures Balanced(Recolor(t), h)
  {
    assert Balanced(t.l, h - 1) && Balanced(t.r, h - 1);
    assert Balanced(Paint(t.l, false), h) && Balanced(Paint(t.r, false), h);
  }

  /** The hole has a sibling, and so have the holes above it, as far as a rotation reaches. */
  predicate Flanked(c: Ctx, k: nat) { c.Up? && k > 0 ==> c.sib.T? && Flanked(c.up, k - 1) }

  /** Above a subtree of black height at least one no sibling is missing. */
  lemma {:induction false} HeightFlanks(c: Ctx, h: nat, k: nat)
    requires CBalanced(c, h) && h > 0
    ensures Flanked(c, k)
  {
    if c.Up? && k > 0 { HeightFlanks(c.up, if c.red then h else h + 1, k - 1); }
  }

  // ---------------------------------------------------------------- removal

  /** Painting after a rotation in removal: new top red, its children black. */
  function Crown(t: Tree): Tree
    requires t.T?
  { T(Paint(t.l, false), true, t.n, Paint(t.r, false)) }

  /** cldm_rbtree_balance_removal at the black node `t` about to be left in direction `d`. */
  function BalRem(c: Ctx, t: Tree, d: Dir): Zip
    requires t.T?
  {
    if IsRed(Kid(t, Opp(d))) then
      var s := Kid(t, Opp(d));
      Zip(Up(d, false, s.n, Kid(s, Opp(d)), c), Mk(d, Kid(t, d), true, t.n, Kid(s, d)))
    else if c.Up? && c.sib.T? then
      var t1 := Paint(t, true);
      var s := c.sib;
      if IsRed(Kid(s, c.d)) then
        var i := Kid(s, c.d);
        Zip(Up(c.d, false, c.n, Kid(i, c.d),
            Up(c.d, true, i.n, Mk(c.d, Kid(i, Opp(c.d)), false, s.n, Kid(s, Opp(c.d))), c.up)), t1)
      else if IsRed(Kid(s, Opp(c.d))) then
        Zip(Up(c.d, false, c.n, Kid(s, c.d),
            Up(c.d, true, s.n, Paint(Kid(s, Opp(c.d)), false), c.up)), t1)
      else
        Zip(Up(c.d, false, c.n, Paint(s, true), c.up), t1)
    else Zip(c, t)
  }

  /** The descent of removal arrives at a red node, below a red node, or near the root. */
  ghost predicate Loose(c: Ctx, t: Tree) {
    IsRed(t) || c == Root || c.red || (c.up == Root && !IsRed(c.sib))
  }

  lemma BalRemFlat(c: Ctx, t: Tree, d: Dir)
    requires t.T?
    ensures var z := BalRem(c, t, d); z.t.T? && z.t.n == t.n && Kid(z.t, d) == Kid(t, d)
    ensures Flat(BalRem(c, t, d).c, BalRem(c, t, d).t) == Flat(c, t)
  {
    if IsRed(Kid(t, Opp(d))) {
      var z := BalRem(c, t, d);
      var s := Kid(t, Opp(d));
      RotInorder(t, d);
      FlatStep(d, false, s.n, Kid(s, Opp(d)), c, z.t);
      assert Mk(d, z.t, false, s.n, Kid(s, Opp(d))) == Rot(t, d);
    } else if c.Up? && c.sib.T? {
      BalRemSiblingFlat(c, t, d);
    }
  }

  lemma BalRemSiblingFlat(c: Ctx, t: Tree, d: Dir)
    requires t.T? && !IsRed(Kid(t, Opp(d))) && c.Up? && c.sib.T?
    ensures Flat(BalRem(c, t, d).c, BalRem(c, t, d).t) == Flat(c, t)
  {
    var z := BalRem(c, t, d);
    var s := c.sib;
    var top := Plug1(c, z.t);
    FlatStep(c.d, c.red, c.n, s, c.up, t);
    FlatStep(z.c.d, z.c.red, z.c.n, z.c.sib, z.c.up, z.t);
    assert Inorder(top) == Inorder(Plug1(c, t));
    if IsRed(Kid(s, c.d)) {
      RotInorder(s, Opp(c.d));
      MkInorder(Opp(c.d), s, Rot(s, Opp(c.d)), c.red, c.n, z.t);
      var p := Mk(c.d, z.t, c.red, c.n, Rot(s, Opp(c.d)));
      RotInorder(p, c.d);
      CrownInorder(Rot(p, c.d));
      assert Plug1(z.c.up, Plug1(z.c, z.t)) == Crown(Rot(p, c.d));
      FlatStep(z.c.up.d, true, z.c.up.n, z.c.up.sib, c.up, Plug1(z.c, z.t));
    } else if IsRed(Kid(s, Opp(c.d))) {
      RotInorder(top, c.d);
      CrownInorder(Rot(top, c.d));
      assert Plug1(z.c.up, Plug1(z.c, z.t)) == Crown(Rot(top, c.d));
      FlatStep(z.c.up.d, true, z.c.up.n, z.c.up.sib, c.up, Plug1(z.c, z.t));
    } else {
      assert Inorder(Plug1(z.c, z.t)) == Inorder(top);
    }
  }

  lemma CrownInorder(t: Tree)
    requires t.T?
    ensures Inorder(Crown(t)) == Inorder(t)
  {
  }

  /** The step keeps the rules, and leaves the descent with a red node behind it. */
  lemma BalRemBalanced(c: Ctx, t: Tree, d: Dir, h: nat)
    requires t.T? && !t.red && !IsRed(Kid(t, d)) && Loose(c, t) && ZBalanced(c, t, h)
    ensures h > 0
    ensures var z := BalRem(c, t, d); ZBalanced(z.c, z.t, if z.t.red then h - 1 else h)
    ensures var z := BalRem(c, t, d); z.t.red || (c == z.c == Root && t == z.t && !IsRed(t.l) && !IsRed(t.r))
  {
    var z := BalRem(c, t, d);
    if IsRed(Kid(t, Opp(d))) {
      var s := Kid(t, Opp(d));
      assert Balanced(s, h - 1) && Balanced(s.l, h - 1) && Balanced(s.r, h - 1);
      assert Balanced(z.t, h - 1);
      assert ZBalanced(z.c, z.t, h - 1);
    } else if c.Up? {
      BalRemSiblingBalanced(c, t, d, h);
    } else {
      assert ZBalanced(z.c, z.t, h);
    }
  }

  lemma BalRemSiblingBalanced(c: Ctx, t: Tree, d: Dir, h: nat)
    requires t.T? && !t.red && !IsRed(t.l) && !IsRed(t.r) && c.Up? && Loose(c, t) && ZBalanced(c, t, h)
    ensures c.sib.T? && h > 0 && ZBalanced(BalRem(c, t, d).c, BalRem(c, t, d).t, h - 1)
    ensures BalRem(c, t, d).t.red
  {
    var z := BalRem(c, t, d);
    var s := c.sib;
    assert Balanced(s, h) && !IsRed(s) && s.T?;
    assert Balanced(Kid(s, Left), h - 1) && Balanced(Kid(s, Right), h - 1);
    assert Balanced(z.t, h - 1);
    if IsRed(Kid(s, c.d)) {
      var i := Kid(s, c.d);
      assert Balanced(Kid(i, Left), h - 1) && Balanced(Kid(i, Right), h - 1);
    } else if IsRed(Kid(s, Opp(c.d))) {
      assert Balanced(Paint(Kid(s, Opp(c.d)), false), h);
    } else {
      assert Balanced(Paint(s, true), h - 1);
    }
  }
}
