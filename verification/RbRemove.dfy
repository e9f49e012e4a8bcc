/** The parts of top-down removal: the descent, the search for the parent of the node found, and the
    splice that puts the last node of the path in its place. */
module RbRemove {
  import opened RbShape
  import opened RbBalance
  import opened RbHeap
  import opened RbSurgery
  import opened RbSearch

  // ---------------------------------------------------------------- the descent

  lemma UniquePlace(cmp: Order, a: seq<RbNode>, n: RbNode, x: seq<RbNode>, b: seq<RbNode>, y: seq<RbNode>)
    requires TotalOrder(cmp) && Ordered(cmp, a + [n] + x) && a + [n] + x == b + [n] + y
    ensures a == b && x == y
  {
    var s := a + [n] + x;
    assert s[|a|] == n && s[|b|] == n;
    assert |a| == |b|;
    assert a == s[..|a|] && b == s[..|b|];
    assert x == s[|a| + 1..] && y == s[|b| + 1..];
  }

  /** Rebalancing at a node does not move the hole below it within the in-order sequence. */
  lemma BalRemKeepsHole(cmp: Order, c: Ctx, t: Tree, d: Dir)
    requires t.T? && TotalOrder(cmp) && Ordered(cmp, Flat(c, t))
    ensures var z := BalRem(c, t, d);
      && z.t.T? && z.t.n == t.n && Kid(z.t, d) == Kid(t, d)
      && Before(Below(z.c, z.t, d)) == Before(Below(c, t, d))
      && After(Below(z.c, z.t, d)) == After(Below(c, t, d))
  {
    hide Flat, Inorder, Before, After, BalRem, Ordered, TotalOrder;
    var z := BalRem(c, t, d);
    BalRemFlat(c, t, d);
    FlatAround(c, t);
    FlatAround(z.c, z.t);
    UniquePlace(cmp, Before(c) + Inorder(t.l), t.n, Inorder(t.r) + After(c),
                Before(z.c) + Inorder(z.t.l), Inorder(z.t.r) + After(z.c));
    HoleHalves(c, t, d);
    HoleHalves(z.c, z.t, d);
    if d == Right {
      Cancel(Inorder(t.r), After(c), After(z.c));
    } else {
      CancelRight(Before(c), Before(z.c), Inorder(t.l));
    }
  }

  lemma FlatAround(c: Ctx, t: Tree)
    requires t.T?
    ensures Flat(c, t) == (Before(c) + Inorder(t.l)) + [t.n] + (Inorder(t.r) + After(c))
  {
  }

  lemma Cancel(a: seq<RbNode>, x: seq<RbNode>, y: seq<RbNode>)
    requires a + x == a + y
    ensures x == y
  {
    assert x == (a + x)[|a|..] && y == (a + y)[|a|..];
  }

  lemma CancelRight(x: seq<RbNode>, y: seq<RbNode>, a: seq<RbNode>)
    requires x + a == y + a
    ensures x == y
  {
    assert |x| == |y|;
    assert x == (x + a)[..|x|] && y == (y + a)[..|y|];
  }

  lemma HoleHalves(c: Ctx, t: Tree, d: Dir)
    requires t.T?
    ensures d == Right ==> Before(Below(c, t, d)) == (Before(c) + Inorder(t.l)) + [t.n] && After(Below(c, t, d)) == After(c)
    ensures d == Left ==> After(Below(c, t, d)) == [t.n] + (Inorder(t.r) + After(c)) && Before(Below(c, t, d)) == Before(c)
  {
  }

  /** What holds at the head of the removal descent. `found` is the node with the key, once met; it then
      lies to the right of the hole. */
  ghost predicate Hunt(e: Env, c: Ctx, key: Key, found: RbNode?) {
    if found == null then Between(e.cmp, c, key, true)
    else Between(e.cmp, c, key, false) && found in After(c) && found.key == key
  }

  lemma HuntStep(e: Env, c: Ctx, t: Tree, key: Key, found: RbNode?)
    requires View(e, c, t) && t.T? && Hunt(e, c, key, found)
    ensures var f := if e.cmp(t.n.key, key) == 0 then t.n else found;
      Hunt(e, Below(c, t, SearchDir(e.cmp, t.n, key)), key, f)
  {
    Split(e, c, t);
    var d := SearchDir(e.cmp, t.n, key);
    HoleHalves(c, t, d);
    if e.cmp(t.n.key, key) == 0 || found != null {
      assert Between(e.cmp, c, key, false);
      StepBetween(e.cmp, c, t, key, false);
    } else {
      StepBetween(e.cmp, c, t, key, true);
    }
  }

  lemma DownBalanced(c: Ctx, t: Tree, d: Dir, h: nat)
    requires t.T? && ZBalanced(c, t, h)
    ensures t.red || h > 0
    ensures ZBalanced(Below(c, t, d), Kid(t, d), if t.red then h else h - 1)
  {
  }

  /** Rebalancing (if any) and the next hole, as the descent of removal sees them. */
  ghost function Passed(c: Ctx, t: Tree, d: Dir): Zip
    requires t.T?
  {
    if !t.red && !IsRed(Kid(t, d)) then BalRem(c, t, d) else Zip(c, t)
  }

  lemma PassedFacts(e: Env, c: Ctx, t: Tree, h: nat, key: Key, found: RbNode?) returns (h': nat)
    requires View(e, c, t) && t.T? && ZBalanced(c, t, h) && Loose(c, t) && Hunt(e, c, key, found)
    ensures var d := SearchDir(e.cmp, t.n, key); var z := Passed(c, t, d);
      && z.t.T? && z.t.n == t.n && Kid(z.t, d) == Kid(t, d) && Flat(z.c, z.t) == Flat(c, t)
      && Loose(Below(z.c, z.t, d), Kid(z.t, d))
      && ZBalanced(Below(z.c, z.t, d), Kid(z.t, d), h') && Weight(h', Kid(z.t, d)) < Weight(h, t)
      && Hunt(e, Below(z.c, z.t, d), key, if e.cmp(t.n.key, key) == 0 then t.n else found)
    ensures h' == if t.red then h else h - 1
  {
    hide View, Flat, Inorder, Ordered, TotalOrder, Between, Balanced, CBalanced, BalRem;
    var d := SearchDir(e.cmp, t.n, key);
    var z := Passed(c, t, d);
    HuntStep(e, c, t, key, found);
    ViewOrder(e, c, t);
    if !t.red && !IsRed(Kid(t, d)) {
      BalRemKeepsHole(e.cmp, c, t, d);
      BalRemFlat(c, t, d);
      BalRemBalanced(c, t, d, h);
      DownBalanced(z.c, z.t, d, if z.t.red then h - 1 else h);
      h' := h - 1;
      SameHunt(e, Below(c, t, d), Below(z.c, z.t, d), key, if e.cmp(t.n.key, key) == 0 then t.n else found);
    } else {
      DownBalanced(c, t, d, h);
      h' := if t.red then h else h - 1;
    }
  }

  ghost function Weight(h: nat, t: Tree): nat { 2 * h + if IsRed(t) then 1 else 0 }

  lemma SeekStart(e: Env, t: Tree, h: nat, key: Key)
    requires Balanced(t, h) && !IsRed(t)
    ensures ZBalanced(Root, t, h) && Loose(Root, t) && Hunt(e, Root, key, null)
  {
  }

  lemma SameHunt(e: Env, c: Ctx, c': Ctx, key: Key, found: RbNode?)
    requires Before(c) == Before(c') && After(c) == After(c') && Hunt(e, c, key, found)
    ensures Hunt(e, c', key, found)
  {
  }

  // ---------------------------------------------------------------- what the last link test will meet

  /** The node of `t0`, which fills the hole of `c0`, will be taken for its own successor's right child, or its
      only child for a child on the right: it has no left child, and its successor, a leaf but for that node, has a
      right thread to it; or its left child is all it has, and its right thread leads there. */
  predicate Stuck(rights: map<RbNode, RbNode?>, c0: Ctx, t0: Tree)
    requires t0.T?
  {
    if t0.l.T? then t0.r.E? && Leads(rights, t0.n, t0.l.n)
    else if t0.r.T? then t0.r.r.E? && Leads(rights, t0.r.n, t0.n)
    else Meets(rights, c0, t0.n)
  }

  predicate Leads(rights: map<RbNode, RbNode?>, x: RbNode, y: RbNode) { x in rights && rights[x] == y }

  /** Seen from `t`, below the node found: the last link test is going to be misread. Above an empty hole it is
      being misread; otherwise the descent must be right below the node found, at a red node, the last one. */
  ghost predicate Doom(c: Ctx, t: Tree, found: RbNode)
    reads if c.Up? then {c.n} else {}, if c.Up? && c.up.Up? then {c.up.n} else {}
  { c.Up? && if t.E? then Misread(c.up, c.n) else c.n == found && IsRed(t) && Misread(c, t.n) }

  /** A plain search is at `t` in `c0` where the descent of removal is at `t` in `c`, until the node is found, at
      `spot`; from there both turn left and then go right. */
  ghost predicate Course(cmp: Order, key: Key, c: Ctx, t: Tree, h: nat, c0: Ctx, found: RbNode?, spot: Zip) {
    if found == null then Spot(cmp, c0, t, key) == spot && ZBalanced(c0, t, h)
    else spot.t.T? && found == spot.t.n && c.Up? && c.d == if c.n == found then Left else Right
  }

  /** Nothing below the descent has been rebuilt, nor the parent of a red node; and once the node is found, it is
      settled what the last link test will meet. */
  ghost predicate Trail(rights: map<RbNode, RbNode?>, cmp: Order, key: Key, c: Ctx, t: Tree, h: nat, c0: Ctx,
                        found: RbNode?, spot: Zip)
    reads Nodes(t), if c.Up? then {c.n} else {}, if c.Up? && c.up.Up? then {c.up.n} else {}
  {
    && Course(cmp, key, c, t, h, c0, found, spot) && Keeps(rights, Nodes(t))
    && (found == null && IsRed(t) ==> SameTop(c, c0) && Keeps(rights, {c.n}))
    && (found != null ==> (Doom(c, t, found) <==> Stuck(rights, spot.c, spot.t)))
  }

  predicate Rebalanced(t: Tree, d: Dir) { t.T? && !t.red && !IsRed(Kid(t, d)) }

  lemma TrailStart(rights: map<RbNode, RbNode?>, e: Env, t: Tree, h: nat, key: Key)
    requires Balanced(t, h) && !IsRed(t) && Keeps(rights, All(e, Root, t))
    ensures Trail(rights, e.cmp, key, Root, t, h, Root, null, Spot(e.cmp, Root, t, key))
  {
    assert Nodes(t) <= All(e, Root, t);
  }

  /** Where the descent rebalances, nothing is settled by threads. */
  lemma TrailBlack(rights: map<RbNode, RbNode?>, cmp: Order, key: Key, c: Ctx, t: Tree, h: nat, c0: Ctx,
                   found: RbNode?, spot: Zip, d: Dir)
    requires Trail(rights, cmp, key, c, t, h, c0, found, spot) && t.T?
    ensures Course(cmp, key, c, t, h, c0, found, spot)
    ensures Keeps(rights, Nodes(Kid(t, d))) && (Kid(t, Opp(d)).T? ==> Keeps(rights, {Kid(t, Opp(d)).n}))
    ensures Rebalanced(t, d) && found != null ==> !Stuck(rights, spot.c, spot.t)
  {
    assert Nodes(Kid(t, d)) <= Nodes(t);
    if Kid(t, Opp(d)).T? { assert Kid(t, Opp(d)).n in Nodes(t); }
  }

  lemma TrailNode(rights: map<RbNode, RbNode?>, cmp: Order, key: Key, c: Ctx, t: Tree, h: nat, c0: Ctx,
                  found: RbNode?, spot: Zip, d: Dir)
    requires Trail(rights, cmp, key, c, t, h, c0, found, spot) && t.T?
    ensures Keeps(rights, {t.n})
  {
    assert t.n in Nodes(t);
  }

  lemma TrailEnd(rights: map<RbNode, RbNode?>, cmp: Order, key: Key, c: Ctx, h: nat, c0: Ctx, found: RbNode?, spot: Zip)
    requires Trail(rights, cmp, key, c, E, h, c0, found, spot)
    ensures if found == null then spot.t == E
            else spot.t.T? && found == spot.t.n && c.Up? && (Misread(c.up, c.n) <==> Stuck(rights, spot.c, spot.t))
  {
  }

  /** What the rebalancing turns lies in the tree, but not on the way down. */
  lemma ShiftingApart(e: Env, c: Ctx, t: Tree, d: Dir)
    requires View(e, c, t) && t.T?
    ensures Shifting(e, c, t, d) !! Nodes(Kid(t, d)) && Shifting(e, c, t, d) <= All(e, c, t)
    ensures t.n in All(e, c, t) && Nodes(Kid(t, d)) <= All(e, c, t)
  {
    Split(e, c, t);
    ParIn(e, c);
    if c.Up? { ParIn(e, c.up); }
    var k := Kid(t, Opp(d));
    if k.T? { NodesTop(k); }
    assert Nodes(t) == Nodes(Kid(t, d)) + {t.n} + Nodes(k) && Nodes(k) !! Nodes(Kid(t, d)) by { KidsApart(e, c, t, d); }
  }

  /** The rebalancing on the way down, with what it leaves alone of the right links. */
  method BalanceOnWay(n: RbNode, p: RbNode, gp: RbNode, dir: Dir, ghost e: Env, ghost c: Ctx, ghost t: Tree,
                      ghost rights: map<RbNode, RbNode?>)
    returns (q: RbNode)
    requires View(e, c, t) && t.T? && n == t.n && p == Par(e, c) && (c.Up? ==> gp == Par(e, c.up))
    requires e.odd == null && !Misread(c, n) && (c.Up? ==> !Misread(c.up, p))
    requires Keeps(rights, Nodes(Kid(t, dir))) && (Kid(t, Opp(dir)).T? ==> Keeps(rights, {Kid(t, Opp(dir)).n}))
    modifies All(e, c, t)
    ensures var z := BalRem(c, t, dir);
      View(e, z.c, z.t) && All(e, z.c, z.t) == All(e, c, t) && q == Par(e, z.c)
    ensures Keeps(rights, Nodes(Kid(t, dir)))
    ensures if IsRed(Kid(t, Opp(dir))) then dir == Left ==> Keeps(rights, {Kid(t, Opp(dir)).n})
            else c.Up? && c.sib.T? ==> !Misread(BalRem(c, t, dir).c, n)
  {
    hide View, All, Flat, Inorder, Rep, RepC, Nodes, CNodes, RepZ, Ordered, TotalOrder, BalRem, Shifting;
    ShiftingApart(e, c, t, dir);
    assert allocated(Nodes(Kid(t, dir)));
    ghost var below := Nodes(Kid(t, dir));
    if Kid(t, Opp(dir)).T? { assert Kid(t, Opp(dir)).n in {Kid(t, Opp(dir)).n}; }
    q := BalanceRemoval(n, p, gp, dir, e, c, t);
  }

  lemma KidsApart(e: Env, c: Ctx, t: Tree, d: Dir)
    requires View(e, c, t) && t.T?
    ensures Nodes(t) == Nodes(Kid(t, d)) + {t.n} + Nodes(Kid(t, Opp(d))) && Nodes(Kid(t, Opp(d))) !! Nodes(Kid(t, d))
    ensures t.n !in Nodes(Kid(t, d))
  {
  }

  /** Behind the node found everything precedes it. */
  lemma BehindFound(e: Env, c: Ctx, t: Tree, key: Key, found: RbNode)
    requires t.T? && TotalOrder(e.cmp) && Ordered(e.cmp, Flat(c, t)) && Hunt(e, c, key, found)
    ensures e.cmp(t.n.key, key) > 0 && t.n != found
  {
    hide TotalOrder, Ordered;
    OrderedSplit(e.cmp, Before(c) + Inorder(t), After(c));
    assert t.n in Inorder(t) && t.n in Before(c) + Inorder(t);
    OwnTie(e.cmp, found);
  }

  lemma OwnTie(cmp: Order, x: RbNode)
    requires TotalOrder(cmp)
    ensures cmp(x.key, x.key) == 0
  {
  }

  /** The step at the node with the key. */
  lemma TrailMeets(rights: map<RbNode, RbNode?>, cmp: Order, key: Key, c: Ctx, t: Tree, h: nat, c0: Ctx)
    requires t.T? && ZBalanced(c, t, h) && ZBalanced(c0, t, h) && Keeps(rights, Nodes(t.l))
    requires Rebalanced(t, Left) && IsRed(t.r) ==> Keeps(rights, {t.r.n})
    requires Rebalanced(t, Left) && !IsRed(t.r) && c.Up? && c.sib.T? ==> !Misread(BalRem(c, t, Left).c, t.n)
    requires !Rebalanced(t, Left) ==> Keeps(rights, {t.n}) && (t.red ==> SameTop(c, c0) && Keeps(rights, {c.n}))
    ensures var z := Passed(c, t, Left); z.t.T? && z.t.n == t.n
    ensures Doom(Below(Passed(c, t, Left).c, Passed(c, t, Left).t, Left), t.l, t.n) <==> Stuck(rights, c0, t)
  {
    if t.red {
      assert t.n in {t.n} && c.n in {c.n};
      assert Balanced(t.l, h) && Balanced(t.r, h);
    } else if IsRed(t.r) {
      assert t.r.n in {t.r.n};
      assert Balanced(t.l, h - 1) && Balanced(t.r, h - 1);
    } else {
      assert Balanced(t.l, h - 1) && Balanced(t.r, h - 1) && t.n in {t.n};
    }
  }

  /** The steps after it. */
  lemma TrailGoes(c: Ctx, t: Tree, h: nat, found: RbNode)
    requires t.T? && ZBalanced(c, t, h) && c.Up? && c.d == (if c.n == found then Left else Right) && t.n != found
    requires Rebalanced(t, Right) && !IsRed(t.l) && c.Up? && c.sib.T? ==> !Misread(BalRem(c, t, Right).c, t.n)
    ensures var z := Passed(c, t, Right); z.t.T? && z.t.n == t.n
    ensures var z := Passed(c, t, Right);
      Doom(Below(z.c, z.t, Right), t.r, found) <==> !Rebalanced(t, Right) && Doom(c, t, found)
  {
    if t.red {
      assert Balanced(t.r, h);
    } else {
      assert Balanced(t.l, h - 1) && Balanced(t.r, h - 1);
    }
  }

  /** One step of the descent, in the memory after the rebalancing. */
  lemma TrailStep(rights: map<RbNode, RbNode?>, e: Env, key: Key, c: Ctx, t: Tree, h: nat, c0: Ctx,
                  found: RbNode?, spot: Zip)
    requires t.T? && TotalOrder(e.cmp) && Ordered(e.cmp, Flat(c, t)) && Hunt(e, c, key, found) && ZBalanced(c, t, h)
    requires Course(e.cmp, key, c, t, h, c0, found, spot)
    requires var d := SearchDir(e.cmp, t.n, key);
      && Keeps(rights, Nodes(Kid(t, d)))
      && if Rebalanced(t, d) then
           && (found != null ==> !Stuck(rights, spot.c, spot.t))
           && (if IsRed(Kid(t, Opp(d))) then d == Left ==> Keeps(rights, {Kid(t, Opp(d)).n})
               else c.Up? && c.sib.T? ==> !Misread(BalRem(c, t, d).c, t.n))
         else Keeps(rights, {t.n}) && Trail(rights, e.cmp, key, c, t, h, c0, found, spot)
    ensures var d := SearchDir(e.cmp, t.n, key);
      var z := Passed(c, t, d);
      && z.t.T? && (t.red || h > 0)
      && Trail(rights, e.cmp, key, Below(z.c, z.t, d), Kid(t, d), if t.red then h else h - 1, Below(c0, t, d),
               if e.cmp(t.n.key, key) == 0 then t.n else found, spot)
  {
    hide TotalOrder, Ordered, Stuck, Doom, Flat, Hunt;
    var d := SearchDir(e.cmp, t.n, key);
    DownBalanced(c, t, d, h);
    if found != null {
      BehindFound(e, c, t, key, found);
      TrailGoes(c, t, h, found);
    } else if e.cmp(t.n.key, key) == 0 {
      TrailMeets(rights, e.cmp, key, c, t, h, c0);
    } else {
      DownBalanced(c0, t, d, h);
    }
  }

  /** The node met is the first one to the right of the hole. */
  lemma HuntFirst(e: Env, c: Ctx, key: Key, found: RbNode)
    requires TotalOrder(e.cmp) && Ordered(e.cmp, Before(c) + After(c)) && Hunt(e, c, key, found)
    ensures After(c) != [] && After(c)[0] == found
  {
    OrderedSplit(e.cmp, Before(c), After(c));
    assert After(c)[0] in After(c);
  }

  lemma HuntAbsent(e: Env, c: Ctx, key: Key)
    requires TotalOrder(e.cmp) && Hunt(e, c, key, null)
    ensures forall x :: x in Flat(c, E) ==> x.key != key
  {
  }

  /** Exact threads are acceptable ones, without exception. */
  lemma Weaken(e: Env, t: Tree, lo: RbNode, hi: RbNode)
    requires e.exact && e.odd == null && TotalOrder(e.cmp) && Rep(e, t, lo, hi) && Ordered(e.cmp, Inorder(t))
    requires hi == e.sent || forall x :: x in Inorder(t) ==> e.cmp(x.key, hi.key) > 0
    ensures Rep(e.(exact := false), t, lo, hi)
  {
    if t.T? {
      OrderedSplit(e.cmp, Inorder(t.l) + [t.n], Inorder(t.r));
      OrderedSplit(e.cmp, Inorder(t.l), [t.n]);
      assert t.n in [t.n] && t.n in Inorder(t);
      Weaken(e, t.l, lo, t.n);
      Weaken(e, t.r, t.n, hi);
    }
  }

  lemma WeakView(e: Env, t: Tree)
    requires View(e, Root, t) && e.odd == null
    ensures View(e.(exact := false), Root, t) && All(e.(exact := false), Root, t) == All(e, Root, t)
  {
    Split(e, Root, t);
    if e.exact {
      Weaken(e, t, e.sent, e.sent);
      RootView(e, Top(t));
      RootView(e.(exact := false), Top(t));
    } else {
      assert e.(exact := false) == e;
    }
  }

  // ---------------------------------------------------------------- stray threads

  /** The nodes that break the promise of threads: targets of right threads that lie before their node, and of
      left threads that lie before the predecessor. */
  ghost function Strays(e: Env, t: Tree, lo: RbNode): set<RbNode>
    reads Nodes(t)
  {
    match t
    case E => {}
    case T(l, _, n, r) =>
      Strays(e, l, lo) + Strays(e, r, n)
      + (if l.E? && lo != e.sent then Stray(e, lo, n.left) else {}) + (if r.E? then Stray(e, n, n.right) else {})
  }

  ghost function Stray(e: Env, n: RbNode, target: RbNode?): set<RbNode> {
    if target == null || target == e.sent || e.cmp(target.key, n.key) <= 0 then {} else {target}
  }

  /** A tree keeps the promise but for a set of nodes if and only if that set has all the strays. */
  lemma StraysDecide(e: Env, t: Tree, lo: RbNode, hi: RbNode, noisy: set<RbNode>)
    requires !e.exact && e.odd == null && Rep(e, t, lo, hi)
    ensures Rep(e.(noisy := noisy), t, lo, hi) <==> Strays(e, t, lo) <= noisy
  {
    if t.T? {
      StraysDecide(e, t.l, lo, t.n, noisy);
      StraysDecide(e, t.r, t.n, hi, noisy);
    }
  }

  lemma StraysSame(e: Env, noisy: set<RbNode>, t: Tree, lo: RbNode)
    ensures Strays(e.(noisy := noisy), t, lo) == Strays(e, t, lo)
  {
  }

  lemma StraysView(e: Env, t: Tree, noisy: set<RbNode>)
    requires !e.exact && e.odd == null && View(e, Root, t)
    ensures View(e.(noisy := noisy), Root, t) <==> Strays(e, t, e.sent) <= noisy
    ensures All(e.(noisy := noisy), Root, t) == All(e, Root, t)
  {
    StraysDecide(e, t, e.sent, e.sent, noisy);
    RootView(e, Top(t));
    RootView(e.(noisy := noisy), Top(t));
  }
}
