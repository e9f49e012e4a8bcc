/** The end of removal: the last node `p` of the search path leaves its place, and unless it is the node
    to remove, takes over the place of that node. */
module RbSplice {
  import opened RbShape
  import opened RbBalance
  import opened RbHeap
  import opened RbSurgery

  // ---------------------------------------------------------------- values

  /** The nearest ancestor hole that goes left: its node is the in-order successor of the hole. */
  function FrameOf(c: Ctx): Ctx {
    if c.Up? && c.d == Right then FrameOf(c.up) else c
  }

  /** `p` in the place of the node of that ancestor. */
  function Subst(c: Ctx, p: RbNode): Ctx {
    match c
    case Root => Root
    case Up(d, red, n, sib, up) => if d == Left then Up(Left, red, p, sib, up) else Up(d, red, n, sib, Subst(up, p))
  }

  /** The surroundings once the leaf at `c` is gone and, if the hole is to its right, has replaced its
      in-order successor. */
  function Cut(c: Ctx): Ctx
    requires c.Up?
  { if c.d == Left then c.up else Subst(c.up, c.n) }

  /** Where the node to remove hangs. */
  function Place(c: Ctx): Ctx
    requires c.Up? && (c.d == Right ==> FrameOf(c.up).Up?)
  { if c.d == Left then c.up else FrameOf(c.up).up }

  /** The node to remove. */
  function Victim(c: Ctx): RbNode
    requires c.Up? && (c.d == Right ==> FrameOf(c.up).Up?)
  { if c.d == Left then c.n else FrameOf(c.up).n }

  lemma SubstFlat(c: Ctx, p: RbNode)
    requires FrameOf(c).Up?
    ensures Before(Subst(c, p)) == Before(c)
    ensures After(c) != [] && After(c)[0] == FrameOf(c).n && After(Subst(c, p)) == [p] + After(c)[1..]
  {
    if c.d == Left {
      assert After(c) == [c.n] + (Inorder(c.sib) + After(c.up));
    }
  }

  lemma SubstBalanced(c: Ctx, p: RbNode, h: nat)
    requires CBalanced(c, h)
    ensures CBalanced(Subst(c, p), h)
  {
  }

  /** Exactly the victim leaves the in-order sequence. */
  lemma CutFlat(c: Ctx)
    requires c.Up? && c.sib == E && After(c) != []
    ensures c.d == Right ==> FrameOf(c.up).Up?
    ensures After(c)[0] == Victim(c) && Flat(Cut(c), E) == Before(c) + After(c)[1..]
  {
    AfterFrame(c.up);
    if c.d == Left {
      assert After(c) == [c.n] + After(c.up);
    } else {
      SubstFlat(c.up, c.n);
      assert Before(c) == Before(c.up) + [c.n];
    }
  }

  lemma AfterFrame(c: Ctx)
    ensures After(c) != [] ==> FrameOf(c).Up? && FrameOf(c).d == Left
  {
  }

  // ---------------------------------------------------------------- weak representation

  lemma WeakerLo(e: Env, t: Tree, lo: RbNode, lo': RbNode, hi: RbNode)
    requires !e.exact && e.odd == null && TotalOrder(e.cmp) && Rep(e, t, lo, hi) && lo != e.sent && e.cmp(lo'.key, lo.key) > 0
    ensures Rep(e, t, lo', hi)
  {
    if t.T? && t.l.E? && t.n.left != null {
      assert Via(lo'.key, lo.key, t.n.left.key);
    }
  }

  /** The nodes between the hole and the frame that goes left. */
  ghost function ChainNodes(c: Ctx): set<RbNode> {
    if c.Up? && c.d == Right then {c.n} + Nodes(c.sib) + ChainNodes(c.up) else {}
  }

  ghost predicate Chain(e: Env, c: Ctx, x: RbNode?)
    reads ChainNodes(c)
  {
    c.Up? && c.d == Right ==>
      && c.n != e.sent && c.n.red == c.red && e.sent !in Nodes(c.sib)
      && LinkOk(e, c.n, Right, x, e.sent) && LinkOk(e, c.n, Left, Top(c.sib), Bound(e, c.up, Left))
      && c.n !in Nodes(c.sib) && c.n !in ChainNodes(c.up) && Nodes(c.sib) !! ChainNodes(c.up)
      && Rep(e, c.sib, Bound(e, c.up, Left), c.n)
      && Chain(e, c.up, c.n)
  }

  function ChainTop(c: Ctx, x: RbNode?): RbNode? {
    if c.Up? && c.d == Right then ChainTop(c.up, c.n) else x
  }

  lemma ChainView(e: Env, c: Ctx, x: RbNode?)
    requires !e.exact && e.odd == null
    ensures RepC(e, c, x) <==>
      Chain(e, c, x) && ChainNodes(c) !! CNodes(FrameOf(c)) && RepC(e, FrameOf(c), ChainTop(c, x))
    ensures CNodes(c) == ChainNodes(c) + CNodes(FrameOf(c))
  {
    if c.Up? && c.d == Right {
      ChainView(e, c.up, c.n);
    }
  }

  lemma ChainSubst(e: Env, c: Ctx, p: RbNode, x: RbNode?)
    ensures Chain(e, Subst(c, p), x) == Chain(e, c, x) && ChainNodes(Subst(c, p)) == ChainNodes(c)
    ensures ChainTop(Subst(c, p), x) == ChainTop(c, x) && FrameOf(Subst(c, p)) == Subst(FrameOf(c), p)
    ensures Bound(e, Subst(c, p), Left) == Bound(e, c, Left)
  {
    if c.Up? && c.d == Right {
      ChainSubst(e, c.up, p, c.n);
    }
  }

  // ---------------------------------------------------------------- the parent of a node

  function Depth(c: Ctx): nat { match c case Root => 0 case Up(_, _, _, _, up) => 1 + Depth(up) }

  function Anc(c: Ctx, k: nat): Ctx
    requires k <= Depth(c)
  { if k == 0 then c else Anc(c.up, k - 1) }

  /** What hangs in the k-th hole above `c`, when `x` hangs in `c`. */
  function Hung(c: Ctx, x: RbNode, k: nat): RbNode
    requires k <= Depth(c)
  { if k == 0 then x else Hung(c.up, c.n, k - 1) }

  lemma AncFacts(e: Env, c: Ctx, x: RbNode, k: nat)
    requires k <= Depth(c) && RepC(e, c, x) && x !in CNodes(c) && e.sent !in CNodes(c)
    ensures var a, y := Anc(c, k), Hung(c, x, k);
      && Par(e, a).Link(HoleDir(a)) == y && !Par(e, a).IsThread(HoleDir(a))
      && (y == x <==> k == 0) && CNodes(a) <= CNodes(c) && (k > 0 ==> y in CNodes(c))
      && (k > 0 ==> Anc(c, k - 1).Up? && Anc(c, k - 1).up == a && Anc(c, k - 1).n == y)
  {
    if k > 0 {
      AncFacts(e, c.up, c.n, k - 1);
    }
  }

  lemma DepthRoot(c: Ctx)
    ensures Anc(c, Depth(c)) == Root
  {
  }

  /** `x` lies on the side of each of its ancestors that the path took. */
  ghost predicate Sided(cmp: Order, c: Ctx, x: RbNode) {
    c.Up? ==>
      && (if c.d == Right then cmp(c.n.key, x.key) > 0 else cmp(c.n.key, x.key) < 0)
      && Sided(cmp, c.up, x)
  }

  lemma SidedAt(cmp: Order, c: Ctx, x: RbNode, k: nat)
    requires k <= Depth(c) && Sided(cmp, c, x) && Anc(c, k).Up?
    ensures var a := Anc(c, k); if a.d == Right then cmp(a.n.key, x.key) > 0 else cmp(a.n.key, x.key) < 0
  {
    if k > 0 {
      SidedAt(cmp, c.up, x, k - 1);
    }
  }

  lemma SidedFlat(cmp: Order, c: Ctx, x: RbNode)
    requires forall y :: y in Before(c) ==> cmp(y.key, x.key) > 0
    requires forall y :: y in After(c) ==> cmp(y.key, x.key) < 0
    ensures Sided(cmp, c, x)
  {
  }

  /** cldm_rbtree_find_parent_of, for a node that hangs in `c`. */
  method FindParentOf(sentinel: RbNode, node: RbNode, compare: Order, ghost e: Env, ghost c: Ctx) returns (p: RbNode)
    requires sentinel == e.sent && compare == e.cmp && RepC(e, c, node) && node !in CNodes(c) && e.sent !in CNodes(c)
    requires Sided(e.cmp, c, node) && node != e.sent
    ensures p == Par(e, c)
  {
    hide RepC, Rep, CNodes, Nodes, Sided;
    p := sentinel;
    ghost var k: nat := Depth(c);
    DepthRoot(c);
    AncFacts(e, c, node, k);
    var n := sentinel.left;
    var dir := Left;
    assert allocated(CNodes(c));
    while !p.IsThread(dir) && n != node
      invariant RepC(e, c, node)
      invariant k <= Depth(c) && p == Par(e, Anc(c, k)) && dir == HoleDir(Anc(c, k)) && n == Hung(c, node, k)
      decreases k
    {
      AncFacts(e, c, node, k);
      SidedAt(e.cmp, c, node, k - 1);
      var relation := compare(n.key, node.key);
      dir := if relation > 0 then Right else Left;
      p := n;
      AncFacts(e, c, node, k - 1);
      n := n.Link(dir);
      k := k - 1;
    }
    AncFacts(e, c, node, k);
  }

  // ---------------------------------------------------------------- the splice

  /** The assignments of cldm_rbtree_remove once the node is found, and the fields they leave behind in
      the three ways the nodes can coincide. */
  method Assignments(sentinel: RbNode, found: RbNode, p: RbNode, gp: RbNode, fparent: RbNode,
                     dir: Dir, fdir: Dir, gpdir: Dir)
    modifies found, p, gp, fparent
    ensures found.left == null && found.right == null && !found.red && !found.leftThread && !found.rightThread
    ensures p == found && fparent == gp && fdir == gpdir && gp != p ==>
      && gp.IsThread(gpdir) == old(p.IsThread(gpdir))
      && gp.Link(gpdir) == (if old(p.Link(dir)) == p then sentinel else old(p.Link(dir)))
      && gp.IsThread(Opp(gpdir)) == old(gp.IsThread(Opp(gpdir))) && gp.Link(Opp(gpdir)) == old(gp.Link(Opp(gpdir)))
      && gp.red == old(gp.red)
    ensures p != found && gp != p && fparent != p && fparent != found && fparent != gp ==>
      && fparent.Link(fdir) == p && fparent.Link(Opp(fdir)) == old(fparent.Link(Opp(fdir)))
      && fparent.leftThread == old(fparent.leftThread) && fparent.rightThread == old(fparent.rightThread)
      && fparent.red == old(fparent.red)
      && p.left == (if old(found.left) == p then sentinel else old(found.left))
      && p.right == (if old(found.right) == p then sentinel else old(found.right))
      && p.red == old(found.red)
      && (gp == found ==>
          && p.IsThread(gpdir) == old(p.IsThread(gpdir))
          && p.IsThread(Opp(gpdir)) == old(found.IsThread(Opp(gpdir))))
      && (gp != found ==>
          && p.leftThread == old(found.leftThread) && p.rightThread == old(found.rightThread)
          && gp.IsThread(gpdir) == old(p.IsThread(gpdir)) && gp.Link(gpdir) == p.Link(dir)
          && gp.IsThread(Opp(gpdir)) == old(gp.IsThread(Opp(gpdir)))
          && gp.Link(Opp(gpdir)) == old(gp.Link(Opp(gpdir))) && gp.red == old(gp.red))
  {
    gp.SetThread(gpdir, p.IsThread(gpdir));
    TakeOver(sentinel, found, p);
    fparent.SetLink(fdir, p);
    gp.SetLink(gpdir, p.Link(dir));
    Zero(found);
  }

  method TakeOver(sentinel: RbNode, found: RbNode, p: RbNode)
    modifies p
    ensures p.left == (if old(found.left) == p then sentinel else old(found.left))
    ensures p.right == (if old(found.right) == p then sentinel else old(found.right))
    ensures p.red == old(found.red)
    ensures p.leftThread == old(found.leftThread) && p.rightThread == old(found.rightThread)
  {
    p.left := if found.left != p then found.left else sentinel;
    p.right := if found.right != p then found.right else sentinel;
    p.red := found.red;
    p.leftThread, p.rightThread := found.leftThread, found.rightThread;
  }

  method Zero(n: RbNode)
    modifies n
    ensures n.left == null && n.right == null && !n.red && !n.leftThread && !n.rightThread
  {
    n.left, n.right, n.red, n.leftThread, n.rightThread := null, null, false, false, false;
  }

  /** The part of the memory around the parent of a hole that writes to that parent leave alone. */
  ghost predicate Quiet(e: Env, c: Ctx)
    reads if c.Up? then Nodes(c.sib) + CNodes(c.up) + {e.sent} else {}
  { c.Up? ==> Around(e, c) }

  /** The links of the parent of a hole. */
  ghost predicate ParOk(e: Env, c: Ctx, x: RbNode?)
    reads Par(e, c)
  {
    if c.Up? then
      && c.n.red == c.red && LinkOk(e, c.n, c.d, x, Bound(e, c.up, c.d))
      && LinkOk(e, c.n, Opp(c.d), Top(c.sib), Bound(e, c.up, Opp(c.d)))
    else SentOk(e, x)
  }

  lemma ParView(e: Env, c: Ctx, x: RbNode?)
    ensures RepC(e, c, x) <==> ParOk(e, c, x) && Quiet(e, c)
  {
    if c.Up? { FrameView(e, c, x); } else { RootView(e, x); }
  }

  lemma QuietApart(e: Env, c: Ctx)
    requires Quiet(e, c)
    ensures CNodes(c) == if c.Up? then {c.n} + Nodes(c.sib) + CNodes(c.up) else {}
    ensures c.Up? ==> c.n != e.sent && c.n !in Nodes(c.sib) && c.n !in CNodes(c.up) && e.sent !in Nodes(c.sib)
    ensures c.Up? ==> Nodes(c.sib) !! CNodes(c.up)
  {
  }

  /** The leaf `p` is itself the node to remove: its parent inherits its thread. */
  lemma AdoptThread(e: Env, u: Ctx, p: RbNode, target: RbNode?)
    requires !e.exact && e.odd == null && TotalOrder(e.cmp)
    requires target == e.sent || Thread(e, p, Left, target, Bound(e, u, Left))
    requires u.Up?
    ensures Thread(e, u.n, u.d, target, Bound(e, u.up, u.d)) || u.n == e.sent
  {
  }

  lemma CtxAround(e: Env, c: Ctx)
    requires c.Up? && Quiet(e, c)
    ensures RepC(e, c.up, c.n) && CNodes(c.up) <= CNodes(c)
    ensures Rep(e, c.sib, KidLo(Opp(c.d), Bound(e, c.up, Left), c.n), KidHi(Opp(c.d), c.n, Bound(e, c.up, Right)))
  {
  }

  /** The part of a chain that writes to its innermost node leave alone. */
  ghost predicate ChainQuiet(e: Env, u: Ctx)
    reads if u.Up? then Nodes(u.sib) + ChainNodes(u.up) else {}
  {
    u.Up? ==>
      && u.n != e.sent && e.sent !in Nodes(u.sib)
      && u.n !in Nodes(u.sib) && u.n !in ChainNodes(u.up) && Nodes(u.sib) !! ChainNodes(u.up)
      && Rep(e, u.sib, Bound(e, u.up, Left), u.n) && Chain(e, u.up, u.n)
  }

  /** In-order facts about the leaf, its parent and the victim when the victim is above. */
  lemma FarOrder(e: Env, c: Ctx)
    requires c.Up? && c.d == Right && FrameOf(c.up).Up? && Ordered(e.cmp, Before(c) + After(c))
    ensures e.cmp(c.n.key, Victim(c).key) > 0
    ensures c.up.d == Right ==> e.cmp(c.up.n.key, Victim(c).key) > 0
    ensures FrameOf(c.up).sib.T? ==> e.cmp(Victim(c).key, FrameOf(c.up).sib.n.key) > 0
  {
    SubstFlat(c.up, c.n);
    OrderedSplit(e.cmp, Before(c), After(c));
    assert Victim(c) in After(c) && c.n in Before(c);
    if c.up.d == Right { assert c.up.n in Before(c.up); }
    SibAfter(e.cmp, c.up);
  }

  lemma SibAfter(cmp: Order, u: Ctx)
    requires FrameOf(u).Up? && Ordered(cmp, After(u))
    ensures FrameOf(u).sib.T? ==> cmp(FrameOf(u).n.key, FrameOf(u).sib.n.key) > 0
  {
    if u.d == Left {
      assert After(u) == [u.n] + (Inorder(u.sib) + After(u.up));
      OrderedSplit(cmp, [u.n], Inorder(u.sib) + After(u.up));
      assert u.sib.T? ==> u.sib.n in Inorder(u.sib) + After(u.up);
    }
  }

  /** A right thread (or child) of the victim is acceptable for any node before the victim. */
  lemma InheritRight(e: Env, found: RbNode, q: RbNode, x: RbNode?, target: RbNode?, bound: RbNode, bound': RbNode)
    requires !e.exact && e.odd == null && TotalOrder(e.cmp) && e.cmp(q.key, found.key) > 0
    requires target == e.sent || (if x != null then target == x && e.cmp(found.key, x.key) > 0
                                  else Thread(e, found, Right, target, bound))
    ensures Thread(e, q, Right, target, bound')
  {
    if target != null && target != e.sent {
      assert Via(q.key, found.key, target.key);
    }
  }

  /** Who is who in the splice at `c`. */
  ghost predicate Cast(e: Env, c: Ctx, found: RbNode, p: RbNode, gp: RbNode, fparent: RbNode,
                       dir: Dir, fdir: Dir, gpdir: Dir)
  {
    && c.Up? && c.sib == E && (c.d == Right ==> FrameOf(c.up).Up? && FrameOf(c.up).d == Left)
    && p == c.n && gp == Par(e, c.up) && dir == c.d && gpdir == HoleDir(c.up)
    && found == Victim(c) && fparent == Par(e, Place(c)) && fdir == HoleDir(Place(c))
  }

  /** The chain's innermost node, if the leaf hangs to the right of one. */
  ghost predicate ChainOk(e: Env, u: Ctx, x: RbNode?)
    reads if u.Up? then {u.n} else {}
  {
    u.Up? && u.d == Right ==>
      u.n.red == u.red && LinkOk(e, u.n, Right, x, e.sent) && LinkOk(e, u.n, Left, Top(u.sib), Bound(e, u.up, Left))
  }

  /** The parent of the leaf has it on its left and a right thread to it, so that a direction test has chosen
      the wrong link: `p` is the node to remove, or hangs off it. */
  ghost predicate Misdirected(found: RbNode, p: RbNode, gp: RbNode, fparent: RbNode, fdir: Dir, gpdir: Dir)
    reads gp
  {
    && gp != p && fparent != p && gpdir == Right && !gp.leftThread && gp.left == gp.right == p
    && if p == found then fparent == gp && fdir == Right else gp == found && fparent != found
  }

  /** What is left behind then: the removed node still is a child, or the sentinel has become one. */
  ghost predicate Torn(sentinel: RbNode, found: RbNode, p: RbNode, gp: RbNode)
    reads p, gp
  { if p == found then !gp.leftThread && gp.left == found else !p.leftThread && p.left == sentinel }

  /** The assignments seen through links: `p` takes the victim's links, the parents get `p` and a thread. `ok`:
      the directions are those of the true parents. */
  method MoveLinks(sentinel: RbNode, found: RbNode, p: RbNode, gp: RbNode, fparent: RbNode,
                   dir: Dir, fdir: Dir, gpdir: Dir, ghost e: Env, ghost c: Ctx, ghost ok: bool)
    requires c.Up? && (!ok ==> Misdirected(found, p, gp, fparent, fdir, gpdir))
    requires ok ==> !e.exact && e.odd == null && sentinel == e.sent && TotalOrder(e.cmp)
    requires ok ==> Cast(e, c, found, p, gp, fparent, dir, fdir, gpdir)
    requires ok ==> ParOk(e, c, null) && gp != p && (c.up.Up? ==> gp != e.sent)
    requires ok && c.d == Left ==> ParOk(e, c.up, p)
    requires ok && c.d == Right ==> var u := c.up; var f := FrameOf(u);
      && ParOk(e, f, ChainTop(u, p)) && ParOk(e, f.up, found) && ChainOk(e, u, p)
      && p != found && fparent != p && fparent != found && fparent != gp && (u.d == Right ==> gp != found)
      && (u.d == Right ==> ChainTop(u, p) != null && ChainTop(u, p) != p && ChainTop(u, p) == ChainTop(u, null))
      && Top(f.sib) != p
      && e.cmp(p.key, found.key) > 0 && (u.d == Right ==> e.cmp(gp.key, found.key) > 0)
      && (f.sib.T? ==> e.cmp(found.key, f.sib.n.key) > 0)
    modifies found, p, gp, fparent
    ensures !ok ==> Torn(sentinel, found, p, gp)
    ensures !ok && p != found ==> fparent.Link(fdir) == p
    ensures ok && c.d == Left ==> ParOk(e, c.up, null)
    ensures ok && c.d == Right ==> var u := c.up; var f := FrameOf(u);
      && p.red == f.red && LinkOk(e, p, Left, ChainTop(u, null), Bound(e, f.up, Left))
      && LinkOk(e, p, Right, Top(f.sib), Bound(e, f.up, Right))
      && ParOk(e, f.up, p) && ChainOk(e, u, null)
  {
    hide TotalOrder;
    ghost var u := c.up;
    if ok && c.d == Left {
      if u.Up? { AdoptThread(e, u, p, if p.left == p then sentinel else p.left); }
    } else if ok {
      ghost var f := FrameOf(u);
      ghost var target := if found.right == p then sentinel else found.right;
      InheritRight(e, found, p, Top(f.sib), target, Bound(e, f.up, Right), Bound(e, f.up, Right));
      if u.d == Right {
        InheritRight(e, found, gp, Top(f.sib), target, Bound(e, f.up, Right), e.sent);
      }
    }
    Assignments(sentinel, found, p, gp, fparent, dir, fdir, gpdir);
  }

  method Splice(sentinel: RbNode, found: RbNode, p: RbNode, gp: RbNode, fparent: RbNode,
                dir: Dir, fdir: Dir, gpdir: Dir, ghost e: Env, ghost c: Ctx, ghost ok: bool)
    requires !e.exact && e.odd == null && sentinel == e.sent && TotalOrder(e.cmp) && RepC(e, c, null) && e.sent !in CNodes(c)
    requires c.Up? && Ordered(e.cmp, Before(c) + After(c))
    requires ok ==> Cast(e, c, found, p, gp, fparent, dir, fdir, gpdir)
    requires !ok ==> Misdirected(found, p, gp, fparent, fdir, gpdir)
    requires !ok ==> {found, p, gp} <= CNodes(c) && fparent in CNodes(c) + {sentinel}
    modifies CNodes(c), sentinel
    ensures ok ==> RepC(e, Cut(c), null) && CNodes(Cut(c)) == CNodes(c) - {found}
    ensures !ok ==> Torn(sentinel, found, p, gp)
    ensures !ok && fparent == sentinel && fdir == Left && p != found ==> sentinel.left == p
    ensures !ok && fparent != sentinel ==> sentinel.left == old(sentinel.left)
  {
    hide RepC, Rep, CNodes, Nodes, Around, TotalOrder, Quiet, Chain, ChainNodes, ChainQuiet, Ordered, Before, After,
      LinkOk, Thread, ParOk, SentOk, ChainOk;
    ghost var u := c.up;
    ghost var f, y := FrameOf(u), ChainTop(u, p);
    NodesE();
    if ok {
      ParView(e, c, null);
      QuietApart(e, c);
      CtxAround(e, c);
    }
    if ok && c.d == Left {
      ParView(e, u, p);
      QuietApart(e, u);
      assert u.Up? ==> allocated(Nodes(u.sib)) && allocated(CNodes(u.up));
    } else if ok {
      ChainView(e, u, p);
      FarOrder(e, c);
      ParView(e, f, y);
      QuietApart(e, f);
      CtxAround(e, f);
      ParView(e, f.up, found);
      QuietApart(e, f.up);
      assert allocated(Nodes(f.sib)) && (f.up.Up? ==> allocated(Nodes(f.up.sib)) && allocated(CNodes(f.up.up)));
      if f.sib.T? { NodesTop(f.sib); }
      if u.d == Right { ChainTopIn(e, u, p); }
      ChainSplit(e, u, p);
      assert u.d == Right ==> allocated(Nodes(u.sib)) && allocated(ChainNodes(u.up));
    }
    MoveLinks(sentinel, found, p, gp, fparent, dir, fdir, gpdir, e, c, ok);
    if ok && c.d == Left {
      ParView(e, u, null);
    } else if ok {
      ParView(e, f.up, p);
      ChainSplit(e, u, null);
      Replaced(e, c);
    }
  }

  lemma ChainSplit(e: Env, u: Ctx, x: RbNode?)
    requires u.Up?
    ensures Chain(e, u, x) <==> ChainOk(e, u, x) && (u.d == Right ==> ChainQuiet(e, u))
    ensures u.d == Right ==> ChainNodes(u) == {u.n} + Nodes(u.sib) + ChainNodes(u.up) && ChainTop(u, x) == ChainTop(u.up, u.n)
    ensures u.d == Right && ChainQuiet(e, u) ==> u.n !in Nodes(u.sib) && u.n !in ChainNodes(u.up)
    ensures u.d == Left ==> ChainNodes(u) == {} && ChainTop(u, x) == x && FrameOf(u) == u
  {
  }

  lemma ChainTopIn(e: Env, u: Ctx, x: RbNode?)
    requires u.Up? && u.d == Right
    ensures ChainTop(u, x) != null && ChainTop(u, x) in ChainNodes(u)
  {
  }

  lemma NodesE()
    ensures Nodes(E) == {}
  {
  }

  /** After the assignments: `p` carries the links of the victim, and everything else is as it was. */
  lemma Replaced(e: Env, c: Ctx)
    requires !e.exact && e.odd == null && TotalOrder(e.cmp) && c.Up? && c.d == Right && FrameOf(c.up).Up? && FrameOf(c.up).d == Left && c.sib == E
    requires var f, p := FrameOf(c.up), c.n; var y := ChainTop(c.up, null);
      && p.red == f.red && LinkOk(e, p, Left, y, Bound(e, f.up, Left)) && LinkOk(e, p, Right, Top(f.sib), Bound(e, f.up, Right))
      && Rep(e, f.sib, f.n, Bound(e, f.up, Right)) && RepC(e, f.up, p)
      && f.n != e.sent && p != e.sent && e.cmp(p.key, f.n.key) > 0
    requires Chain(e, c.up, null) && c.n !in CNodes(c.up) && ChainNodes(c.up) !! CNodes(FrameOf(c.up))
    requires CNodes(c.up) == ChainNodes(c.up) + CNodes(FrameOf(c.up)) && e.sent !in CNodes(c)
    requires var f := FrameOf(c.up); f.n !in Nodes(f.sib) && f.n !in CNodes(f.up) && Nodes(f.sib) !! CNodes(f.up)
    ensures RepC(e, Subst(c.up, c.n), null)
    ensures CNodes(Subst(c.up, c.n)) == CNodes(c) - {FrameOf(c.up).n}
  {
    hide RepC, Rep, Chain, LinkOk;
    var u, p, f := c.up, c.n, FrameOf(c.up);
    var f' := Subst(f, p);
    assert f' == Up(Left, f.red, p, f.sib, f.up);
    WeakerLo(e, f.sib, f.n, p, Bound(e, f.up, Right));
    FrameView(e, f', ChainTop(u, null));
    ChainSubst(e, u, p, null);
    ChainView(e, Subst(u, p), null);
  }

  // ---------------------------------------------------------------- before and after the splice

  lemma UpToFrame(e: Env, u: Ctx, t: Tree) returns (x: Tree)
    requires View(e, u, t) && FrameOf(u).Up?
    ensures View(e, FrameOf(u), x)
    decreases u
  {
    if u.d == Left {
      x := t;
    } else {
      Up1(e, u, t);
      x := UpToFrame(e, u.up, Plug1(u, t));
    }
  }

  /** The subtree at the victim, in its place. */
  lemma PlaceView(e: Env, c: Ctx) returns (x: Tree)
    requires View(e, c, E) && c.Up? && (c.d == Right ==> FrameOf(c.up).Up?)
    ensures View(e, Place(c), x) && x.T? && x.n == Victim(c)
  {
    Up1(e, c, E);
    if c.d == Left {
      x := Plug1(c, E);
    } else {
      var y := UpToFrame(e, c.up, Plug1(c, E));
      Up1(e, FrameOf(c.up), y);
      x := Plug1(FrameOf(c.up), y);
    }
  }

  lemma PlaceFacts(e: Env, c: Ctx, t: Tree)
    requires View(e, c, t) && t.T?
    ensures RepC(e, c, t.n) && t.n !in CNodes(c) && e.sent !in CNodes(c) && t.n != e.sent
    ensures Sided(e.cmp, c, t.n)
  {
    Split(e, c, t);
    OrderedSplit(e.cmp, Before(c) + Inorder(t), After(c));
    OrderedSplit(e.cmp, Before(c), Inorder(t));
    assert t.n in Inorder(t) && t.n in Before(c) + Inorder(t);
    SidedFlat(e.cmp, c, t.n);
  }

  /** The hole at the end of the descent hangs off a leaf that can go. */
  lemma LeafEnd(c: Ctx, h: nat)
    requires Loose(c, E) && ZBalanced(c, E, h) && c.Up?
    ensures c.sib == E && h == 0 && ZBalanced(Cut(c), E, 0)
  {
    if c.d == Right {
      SubstBalanced(c.up, c.n, 0);
    }
  }

  lemma OrderedCut(cmp: Order, a: seq<RbNode>, z: seq<RbNode>)
    requires Ordered(cmp, a + z) && z != []
    ensures Ordered(cmp, a + z[1..])
  {
    var s, s' := a + z, a + z[1..];
    forall i, j | 0 <= i < j < |s'| ensures cmp(s'[i].key, s'[j].key) > 0 {
      var i', j' := if i < |a| then i else i + 1, if j < |a| then j else j + 1;
      assert s'[i] == s[i'] && s'[j] == s[j'];
    }
  }

  lemma CutView(e: Env, c: Ctx)
    requires c.Up? && c.sib == E && After(c) != [] && RepC(e, Cut(c), null) && CNodes(Cut(c)) <= CNodes(c)
    requires TotalOrder(e.cmp) && Ordered(e.cmp, Before(c) + After(c)) && e.sent !in CNodes(c)
    ensures View(e, Cut(c), E) && All(e, Cut(c), E) == CNodes(Cut(c)) + {e.sent}
    ensures Flat(Cut(c), E) == Before(c) + After(c)[1..]
  {
    CutFlat(c);
    OrderedCut(e.cmp, Before(c), After(c));
  }
}
