/** What the search path tells about a key, and why the insertion descent may keep a window of
    ancestors that is wrong for a level or two. */
module RbSearch {
  import opened RbShape
  import opened RbBalance
  import opened RbHeap
  import opened RbSurgery

  /** The direction a descent takes from `n` in search of `key`. */
  function SearchDir(cmp: Order, n: RbNode, key: Key): Dir { if cmp(n.key, key) > 0 then Right else Left }

  /** The key lies in the hole: after everything on the left, before everything on the right
      (`strict`), or possibly equal to something on the right. */
  ghost predicate Between(cmp: Order, c: Ctx, key: Key, strict: bool) {
    && (forall x :: x in Before(c) ==> cmp(x.key, key) > 0)
    && (forall x :: x in After(c) ==> cmp(x.key, key) < 0 || (!strict && cmp(x.key, key) == 0))
  }

  /** The hole below the node `t.n` in direction `d`. */
  function Below(c: Ctx, t: Tree, d: Dir): Ctx
    requires t.T?
  { Up(d, t.red, t.n, Kid(t, Opp(d)), c) }

  lemma BelowPlug(c: Ctx, t: Tree, d: Dir)
    requires t.T?
    ensures Plug1(Below(c, t, d), Kid(t, d)) == t
    ensures Flat(Below(c, t, d), Kid(t, d)) == Flat(c, t)
  {
    FlatStep(d, t.red, t.n, Kid(t, Opp(d)), c, Kid(t, d));
  }

  lemma StepBetween(cmp: Order, c: Ctx, t: Tree, key: Key, strict: bool)
    requires t.T? && TotalOrder(cmp) && Ordered(cmp, Inorder(t)) && Between(cmp, c, key, strict)
    requires strict ==> cmp(t.n.key, key) != 0
    ensures Between(cmp, Below(c, t, SearchDir(cmp, t.n, key)), key, strict)
  {
    hide TotalOrder, Ordered, Inorder;
    OrderedNode(cmp, t);
    if SearchDir(cmp, t.n, key) == Right {
      AllPrecede(cmp, Inorder(t.l), t.n, key);
    } else {
      AllFollow(cmp, Inorder(t.r), t.n, key);
    }
  }

  lemma OrderedNode(cmp: Order, t: Tree)
    requires t.T? && Ordered(cmp, Inorder(t))
    ensures forall x :: x in Inorder(t.l) ==> cmp(x.key, t.n.key) > 0
    ensures forall x :: x in Inorder(t.r) ==> cmp(t.n.key, x.key) > 0
  {
    hide Ordered;
    var l, r := Inorder(t.l), Inorder(t.r);
    OrderedSplit(cmp, l + [t.n], r);
    OrderedSplit(cmp, l, [t.n]);
    assert t.n in [t.n] && t.n in l + [t.n];
  }

  lemma AllPrecede(cmp: Order, s: seq<RbNode>, n: RbNode, key: Key)
    requires TotalOrder(cmp) && cmp(n.key, key) > 0 && forall x :: x in s ==> cmp(x.key, n.key) > 0
    ensures forall x :: x in s ==> cmp(x.key, key) > 0
  {
    forall x | x in s
      ensures cmp(x.key, key) > 0
    {
      assert Via(x.key, n.key, key);
    }
  }

  /** What follows a node that does not precede the key follows the key. */
  lemma AllFollow(cmp: Order, s: seq<RbNode>, n: RbNode, key: Key)
    requires TotalOrder(cmp) && cmp(n.key, key) <= 0 && forall x :: x in s ==> cmp(n.key, x.key) > 0
    ensures forall x :: x in s ==> cmp(x.key, key) < 0
    ensures cmp(n.key, key) < 0 || cmp(n.key, key) == 0
  {
    forall x | x in s
      ensures cmp(x.key, key) < 0
    {
      assert Via(key, n.key, x.key);
    }
  }

  lemma BalInsBetween(cmp: Order, c: Ctx, t: Tree, key: Key)
    requires t.T? && (RedTop(c) ==> c.up.Up?) && Between(cmp, c, key, true)
    ensures Between(cmp, BalIns(c, t).c, key, true)
  {
    if RedTop(c) {
      var g := c.up;
      assert forall x :: x in Before(g.up) ==> x in Before(g) && x in Before(c);
      assert forall x :: x in After(g.up) ==> x in After(g) && x in After(c);
      if c.d == g.d {
        var z := BalIns(c, t);
        assert Inorder(z.c.sib) == if g.d == Left then Inorder(c.sib) + [g.n] + Inorder(g.sib)
                                   else Inorder(g.sib) + [g.n] + Inorder(c.sib);
      }
    }
  }

  /** The descent is about to visit `t`. Mode 0: the window `gp`, `ggp` is exact and the parent can be
      rotated if `t` splits. Mode 1: `t` is calm, `gp` is exact, `ggp` may be stale. Mode 2: `t` is red, the
      child the key leads to is calm, and both may be stale. */
  ghost predicate Window(m: nat, e: Env, c: Ctx, t: Tree, key: Key, gp: RbNode, ggp: RbNode) {
    match m
    case 0 =>
      && (c.Up? ==> gp == Par(e, c.up)) && (c.Up? && c.up.Up? ==> ggp == Par(e, c.up.up))
      && Clear(c) && (c == Root ==> !IsRed(t)) && !(c.Up? && IsRed(t) && IsRed(c.sib))
    case 1 => Calm(t) && c.Up? && gp == Par(e, c.up)
    case 2 => IsRed(t) && c.Up? && Calm(Kid(t, SearchDir(e.cmp, t.n, key)))
    case _ => false
  }

  function Next(m: nat): nat { if m == 0 then 0 else m - 1 }

  /** A visit without a split takes the window one step closer to exact. */
  lemma NextWindow(m: nat, e: Env, c: Ctx, t: Tree, h: nat, key: Key, gp: RbNode, ggp: RbNode)
    requires t.T? && ZBalanced(c, t, h) && Window(m, e, c, t, key, gp, ggp) && !Splits(t)
    ensures var d := SearchDir(e.cmp, t.n, key);
      Window(Next(m), e, Below(c, t, d), Kid(t, d), key, Par(e, c), gp)
  {
  }

  /** Only an exact window meets a split, and then it shows the true ancestors. */
  lemma SplitNeedsExact(m: nat, e: Env, c: Ctx, t: Tree, h: nat, key: Key, gp: RbNode, ggp: RbNode)
    requires ZBalanced(c, t, h) && Window(m, e, c, t, key, gp, ggp) && Splits(t)
    ensures m == 0 && (RedTop(c) ==> c.up.Up? && gp == c.up.n && ggp == Par(e, c.up.up))
  {
  }

  /** After a split the window may be stale, but only where the next nodes cannot split. */
  lemma SplitWindow(e: Env, c: Ctx, t: Tree, h: nat, key: Key, gp: RbNode, ggp: RbNode)
    requires ZBalanced(c, t, h) && Window(0, e, c, t, key, gp, ggp) && Splits(t)
    requires TotalOrder(e.cmp) && Ordered(e.cmp, Flat(c, t)) && Between(e.cmp, c, key, true)
    ensures var z := BalIns(c, t);
      var d := SearchDir(e.cmp, z.t.n, key);
      e.cmp(t.n.key, key) != 0 ==>
      Window(if Doubles(c) then 2 else 1, e, Below(z.c, z.t, d), Kid(z.t, d), key, Par(e, c), gp)
  {
    SplitThenCalm(c, t, h);
    if Doubles(c) && e.cmp(t.n.key, key) != 0 {
      var z := BalIns(c, t);
      BetweenAncestors(e.cmp, c, key);
    }
  }

  /** The two nearest ancestors lie on the side of the key that the path turned away from. */
  lemma BetweenAncestors(cmp: Order, c: Ctx, key: Key)
    requires Doubles(c) && Between(cmp, c, key, true)
    ensures if c.d == Right then cmp(c.n.key, key) > 0 else cmp(c.n.key, key) < 0
    ensures if c.up.d == Right then cmp(c.up.n.key, key) > 0 else cmp(c.up.n.key, key) < 0
  {
    var g := c.up;
    assert c.n in (if c.d == Right then Before(c) else After(c));
    assert g.n in (if g.d == Right then Before(g) else After(g));
    assert g.n in (if g.d == Right then Before(c) else After(c));
  }

  // ---------------------------------------------------------------- the descent beside a plain search

  /** Where a plain search ends that changes nothing on its way: at the node with the key, or at the empty hole
      where the key belongs. */
  function Spot(cmp: Order, c: Ctx, t: Tree, key: Key): (z: Zip)
    decreases t
  {
    if t.E? || cmp(t.n.key, key) == 0 then Zip(c, t)
    else
      var d := SearchDir(cmp, t.n, key);
      Spot(cmp, Below(c, t, d), Kid(t, d), key)
  }

  /** The right links as they were: those of `s` have not changed since. */
  ghost predicate Keeps(rights: map<RbNode, RbNode?>, s: set<RbNode>)
    reads s
  { forall y :: y in s ==> y in rights && rights[y] == y.right }

  /** Two holes hang off the same node, in the same way. */
  predicate SameTop(c: Ctx, c0: Ctx) {
    c.Up? && c0.Up? && c.d == c0.d && c.red == c0.red && c.n == c0.n && c.sib == c0.sib
  }

  /** A red node with a red sibling: a descent that comes by will split their parent. */
  predicate Twin(c0: Ctx, t0: Tree) { IsRed(t0) && c0.Up? && IsRed(c0.sib) }

  /** The insertion descent is at `t` in state `m` of its window; a plain search is at `t0` in `c0`, where the
      descent is, or will be in the next step. What lies below has not been rebuilt. */
  ghost predicate Follows(m: nat, cmp: Order, key: Key, c: Ctx, t: Tree, c0: Ctx, t0: Tree) {
    match m
    case 0 => t == t0 && (IsRed(t) ==> SameTop(c, c0))
    case 1 => t == Paint(t0, false) && Twin(c0, t0)
    case 2 => t.T? && Kid(t, SearchDir(cmp, t.n, key)) == Paint(t0, false) && Twin(c0, t0)
    case _ => false
  }

  /** One step of the descent, which the plain search waits out if it leads to a parent rotated down. */
  lemma FollowStep(m: nat, e: Env, c: Ctx, t: Tree, h: nat, c0: Ctx, t0: Tree, key: Key, gp: RbNode, ggp: RbNode)
    requires t.T? && ZBalanced(c, t, h) && Window(m, e, c, t, key, gp, ggp) && Between(e.cmp, c, key, true)
    requires Follows(m, e.cmp, key, c, t, c0, t0) && e.cmp(t.n.key, key) != 0
    ensures m != 2 ==> t0.T? && t0.n == t.n
    ensures var z := if Splits(t) then BalIns(c, t) else Zip(c, t);
      var d := SearchDir(e.cmp, t.n, key);
      var m' := if !Splits(t) then Next(m) else if Doubles(c) then 2 else 1;
      && (Splits(t) && RedTop(c) ==> c.up.Up?) && z.t.T? && (Splits(t) ==> z.t.l.T? && z.t.r.T?)
      && Follows(m', e.cmp, key, Below(z.c, z.t, d), Kid(z.t, d),
                 if m == 2 then c0 else Below(c0, t0, d), if m == 2 then t0 else Kid(t0, d))
  {
    if Splits(t) {
      SplitNeedsExact(m, e, c, t, h, key, gp, ggp);
      if Doubles(c) { BetweenAncestors(e.cmp, c, key); }
    }
  }

  /** The place where an insertion will hang its node and test links in doing so: below the red child of a node
      whose other child is not red, and one of the two has a right thread where a test expects no link. */
  ghost predicate Ensnared(rights: map<RbNode, RbNode?>, b: Ctx, node: RbNode) {
    && b.Up? && b.red && b.up.Up? && !IsRed(b.up.sib)
    && (Meets(rights, b, node) || Meets(rights, b.up, b.n))
  }

  /** Misread, with the right links of some earlier time. */
  predicate Meets(rights: map<RbNode, RbNode?>, c: Ctx, x: RbNode) {
    c.Up? && c.d == Left && c.sib.E? && c.n in rights && rights[c.n] == x
  }
}
