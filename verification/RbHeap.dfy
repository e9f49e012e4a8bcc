/** How nodes in memory stand for a shape, and the pointer surgery that rotations do. */
module RbHeap {
  import opened RbShape

  /** The sentinel, the comparison, and what threads promise. `exact`: every thread is the in-order neighbour
      (trees that were only inserted into). Otherwise a weaker promise, kept by removal as well: a left thread
      does not lie before the predecessor, a right thread does not lie before the node itself, unless it leads to
      a `noisy` node; either may be the sentinel. While a node is being hung in, its right thread is pinned: that
      of `odd`, if there is such a node, leads to `aim`. */
  datatype Env = Env(sent: RbNode, cmp: Order, exact: bool, noisy: set<RbNode>, odd: RbNode?, aim: RbNode?)

  ghost predicate Ordered(cmp: Order, s: seq<RbNode>) {
    forall i, j :: 0 <= i < j < |s| ==> cmp(s[i].key, s[j].key) > 0
  }

  lemma OrderedSplit(cmp: Order, a: seq<RbNode>, b: seq<RbNode>)
    requires Ordered(cmp, a + b)
    ensures Ordered(cmp, a) && Ordered(cmp, b)
    ensures forall x, y :: x in a && y in b ==> cmp(x.key, y.key) > 0
  {
    assert forall i :: 0 <= i < |a| ==> (a + b)[i] == a[i];
    assert forall i :: 0 <= i < |b| ==> (a + b)[|a| + i] == b[i];
  }

  /** Is `target` acceptable as the thread of `n` in direction `d`, where `bound` is the in-order
      neighbour on that side (the sentinel if there is none)? */
  ghost predicate Thread(e: Env, n: RbNode, d: Dir, target: RbNode?, bound: RbNode) {
    if e.exact then target == bound
    else
      target != null &&
      match d
      case Left => bound == e.sent || Fair(e, bound, target)
      case Right => if n == e.odd then target == e.aim else Fair(e, n, target)
  }

  /** `target` is the sentinel, or noisy, or does not lie before `n`. */
  ghost predicate Fair(e: Env, n: RbNode, target: RbNode) {
    target == e.sent || target in e.noisy || e.cmp(target.key, n.key) <= 0
  }

  /** The link of `n` in direction `d` is the child `x`, or a thread when there is none. */
  ghost predicate LinkOk(e: Env, n: RbNode, d: Dir, x: RbNode?, bound: RbNode)
    reads n
  {
    && n.IsThread(d) == (x == null)
    && (if x != null then n.Link(d) == x else Thread(e, n, d, n.Link(d), bound))
  }

  lemma LinkChild(e: Env, n: RbNode, d: Dir, x: RbNode, bound: RbNode)
    requires LinkOk(e, n, d, x, bound)
    ensures n.Link(d) == x && !n.IsThread(d)
  {
  }

  function Top(t: Tree): RbNode? { if t.T? then t.n else null }

  /** The memory at the nodes of `t` has exactly the shape `t`; `lo` and `hi` are its in-order
      neighbours. */
  ghost predicate Rep(e: Env, t: Tree, lo: RbNode, hi: RbNode)
    reads Nodes(t)
  {
    match t
    case E => true
    case T(l, red, n, r) =>
      && n != e.sent && n.red == red
      && LinkOk(e, n, Left, Top(l), lo) && LinkOk(e, n, Right, Top(r), hi)
      && n !in Nodes(l) && n !in Nodes(r) && Nodes(l) !! Nodes(r)
      && Rep(e, l, lo, n) && Rep(e, r, n, hi)
  }

  /** Neighbours of the subtree in direction `d` of `n`, when the tree at `n` lies between `lo` and `hi`. */
  function KidLo(d: Dir, lo: RbNode, n: RbNode): RbNode { if d == Left then lo else n }
  function KidHi(d: Dir, n: RbNode, hi: RbNode): RbNode { if d == Left then n else hi }
  function Side(d: Dir, lo: RbNode, hi: RbNode): RbNode { if d == Left then lo else hi }

  ghost predicate NodeOk(e: Env, d: Dir, near: Tree, red: bool, n: RbNode, far: Tree, lo: RbNode, hi: RbNode)
    reads n
  {
    && n != e.sent && n.red == red
    && LinkOk(e, n, d, Top(near), Side(d, lo, hi)) && LinkOk(e, n, Opp(d), Top(far), Side(Opp(d), lo, hi))
  }

  ghost predicate KidsRep(e: Env, d: Dir, near: Tree, n: RbNode, far: Tree, lo: RbNode, hi: RbNode)
    reads Nodes(near), Nodes(far)
  {
    && Rep(e, near, KidLo(d, lo, n), KidHi(d, n, hi))
    && Rep(e, far, KidLo(Opp(d), lo, n), KidHi(Opp(d), n, hi))
  }

  ghost predicate Apart(near: Tree, n: RbNode, far: Tree) {
    n !in Nodes(near) && n !in Nodes(far) && Nodes(near) !! Nodes(far)
  }

  lemma MkRep(e: Env, d: Dir, near: Tree, red: bool, n: RbNode, far: Tree, lo: RbNode, hi: RbNode)
    ensures Rep(e, Mk(d, near, red, n, far), lo, hi) <==>
      NodeOk(e, d, near, red, n, far, lo, hi) && KidsRep(e, d, near, n, far, lo, hi) && Apart(near, n, far)
    ensures Nodes(Mk(d, near, red, n, far)) == Nodes(near) + {n} + Nodes(far)
  {
  }

  function Bound(e: Env, c: Ctx, d: Dir): RbNode {
    match c
    case Root => e.sent
    case Up(cd, _, n, _, up) => if cd == d then Bound(e, up, d) else n
  }

  /** The node whose link the hole is. */
  function Par(e: Env, c: Ctx): RbNode { if c.Up? then c.n else e.sent }

  function HoleDir(c: Ctx): Dir { if c.Up? then c.d else Left }

  ghost predicate SentOk(e: Env, x: RbNode?)
    reads e.sent
  {
    && e.sent.leftThread == (x == null) && (x != null ==> e.sent.left == x && e.sent.right == e.sent)
    && e.sent.rightThread && !e.sent.red
  }

  /** The memory around the hole has the shape `c`, and the hole's link leads to `x` (null: a thread). */
  ghost predicate RepC(e: Env, c: Ctx, x: RbNode?)
    reads CNodes(c), e.sent
  {
    match c
    case Root => SentOk(e, x)
    case Up(d, red, n, sib, up) =>
      && n != e.sent && n.red == red && e.sent !in Nodes(sib)
      && LinkOk(e, n, d, x, Bound(e, up, d)) && LinkOk(e, n, Opp(d), Top(sib), Bound(e, up, Opp(d)))
      && n !in Nodes(sib) && n !in CNodes(up) && Nodes(sib) !! CNodes(up)
      && Rep(e, sib, KidLo(Opp(d), Bound(e, up, Left), n), KidHi(Opp(d), n, Bound(e, up, Right)))
      && RepC(e, up, n)
  }

  ghost predicate RepZ(e: Env, c: Ctx, t: Tree)
    reads CNodes(c), Nodes(t), e.sent
  {
    && Rep(e, t, Bound(e, c, Left), Bound(e, c, Right)) && RepC(e, c, Top(t))
    && Nodes(t) !! CNodes(c) && e.sent !in Nodes(t) && e.sent !in CNodes(c)
  }

  lemma BoundUp(e: Env, d: Dir, red: bool, n: RbNode, sib: Tree, up: Ctx)
    ensures var c := Up(d, red, n, sib, up);
      && Bound(e, c, Left) == KidLo(d, Bound(e, up, Left), n)
      && Bound(e, c, Right) == KidHi(d, n, Bound(e, up, Right))
      && Side(d, Bound(e, up, Left), Bound(e, up, Right)) == Bound(e, up, d)
      && Side(Opp(d), Bound(e, up, Left), Bound(e, up, Right)) == Bound(e, up, Opp(d))
  {
  }

  /** Moving the focus one level up is a change of view only. */
  lemma ZipUp(e: Env, c: Ctx, t: Tree)
    requires c.Up? && RepZ(e, c, t)
    ensures RepZ(e, c.up, Mk(c.d, t, c.red, c.n, c.sib))
    ensures CNodes(c) + Nodes(t) == CNodes(c.up) + Nodes(Mk(c.d, t, c.red, c.n, c.sib))
  {
    BoundUp(e, c.d, c.red, c.n, c.sib, c.up);
    MkRep(e, c.d, t, c.red, c.n, c.sib, Bound(e, c.up, Left), Bound(e, c.up, Right));
  }

  /** And so is moving it one level down. */
  lemma ZipDown(e: Env, c: Ctx, t: Tree)
    requires c.Up? && RepZ(e, c.up, Mk(c.d, t, c.red, c.n, c.sib))
    ensures RepZ(e, c, t)
    ensures CNodes(c) + Nodes(t) == CNodes(c.up) + Nodes(Mk(c.d, t, c.red, c.n, c.sib))
  {
    BoundUp(e, c.d, c.red, c.n, c.sib, c.up);
    MkRep(e, c.d, t, c.red, c.n, c.sib, Bound(e, c.up, Left), Bound(e, c.up, Right));
  }

  lemma {:induction c} BoundIn(e: Env, c: Ctx, d: Dir)
    ensures Bound(e, c, d) == e.sent || Bound(e, c, d) in CNodes(c)
  {
  }

  lemma InorderNodes(t: Tree)
    ensures forall x :: x in Nodes(t) <==> x in Inorder(t)
  {
  }

  lemma KidBefore(cmp: Order, t: Tree, d: Dir)
    requires t.T? && Kid(t, Opp(d)).T? && Ordered(cmp, Inorder(t))
    ensures if d == Left then cmp(t.n.key, Kid(t, Opp(d)).n.key) > 0 else cmp(Kid(t, Opp(d)).n.key, t.n.key) > 0
  {
    var n := Kid(t, Opp(d)).n;
    assert n in Nodes(Kid(t, Opp(d)));
    InorderNodes(Kid(t, Opp(d)));
    if d == Left {
      OrderedSplit(cmp, Inorder(t.l) + [t.n], Inorder(t.r));
    } else {
      assert Inorder(t) == Inorder(t.l) + ([t.n] + Inorder(t.r));
      OrderedSplit(cmp, Inorder(t.l), [t.n] + Inorder(t.r));
    }
  }

  /** The three subtrees around the two nodes of a rotation in direction `d`: `a` below `root`, `b` between
      the two nodes, `c` below `n`. */
  ghost predicate Parts(e: Env, d: Dir, a: Tree, root: RbNode, b: Tree, n: RbNode, c: Tree, lo: RbNode, hi: RbNode)
    reads Nodes(a), Nodes(b), Nodes(c)
  {
    && Rep(e, a, KidLo(d, lo, root), KidHi(d, root, hi))
    && (if d == Left then Rep(e, b, root, n) else Rep(e, b, n, root))
    && Rep(e, c, KidLo(Opp(d), lo, n), KidHi(Opp(d), n, hi))
  }

  ghost predicate PartsApart(a: Tree, root: RbNode, b: Tree, n: RbNode, c: Tree) {
    && root != n && Apart(a, root, b) && Apart(b, n, c) && Nodes(a) !! Nodes(c)
    && n !in Nodes(a) && root !in Nodes(c)
  }

  /** The links of the two nodes when `root` is above. */
  ghost predicate LinksAbove(e: Env, d: Dir, a: Tree, root: RbNode, b: Tree, n: RbNode, c: Tree, lo: RbNode, hi: RbNode)
    reads root, n
  {
    && LinkOk(e, root, d, Top(a), Side(d, lo, hi)) && LinkOk(e, root, Opp(d), n, Side(Opp(d), lo, hi))
    && LinkOk(e, n, d, Top(b), root) && LinkOk(e, n, Opp(d), Top(c), Side(Opp(d), lo, hi))
  }

  /** The links of the two nodes when `n` is above. */
  ghost predicate LinksBelow(e: Env, d: Dir, a: Tree, root: RbNode, b: Tree, n: RbNode, c: Tree, lo: RbNode, hi: RbNode)
    reads root, n
  {
    && LinkOk(e, root, d, Top(a), Side(d, lo, hi)) && LinkOk(e, root, Opp(d), Top(b), n)
    && LinkOk(e, n, d, root, Side(d, lo, hi)) && LinkOk(e, n, Opp(d), Top(c), Side(Opp(d), lo, hi))
  }

  lemma TakeApart(e: Env, d: Dir, a: Tree, r0: bool, root: RbNode, b: Tree, r1: bool, n: RbNode, c: Tree,
                  lo: RbNode, hi: RbNode)
    requires Rep(e, Mk(d, a, r0, root, Mk(d, b, r1, n, c)), lo, hi)
    ensures Parts(e, d, a, root, b, n, c, lo, hi) && PartsApart(a, root, b, n, c)
    ensures LinksAbove(e, d, a, root, b, n, c, lo, hi) && root != e.sent && n != e.sent
  {
    var k := Mk(d, b, r1, n, c);
    MkRep(e, d, a, r0, root, k, lo, hi);
    MkRep(e, d, b, r1, n, c, KidLo(Opp(d), lo, root), KidHi(Opp(d), root, hi));
    assert n in Nodes(k) && Nodes(b) <= Nodes(k) && Nodes(c) <= Nodes(k);
  }

  lemma PutTogether(e: Env, d: Dir, a: Tree, root: RbNode, b: Tree, n: RbNode, c: Tree, lo: RbNode, hi: RbNode)
    requires Parts(e, d, a, root, b, n, c, lo, hi) && PartsApart(a, root, b, n, c)
    requires LinksBelow(e, d, a, root, b, n, c, lo, hi) && root != e.sent && n != e.sent && root.red && !n.red
    ensures Rep(e, Mk(d, Mk(d, a, true, root, b), false, n, c), lo, hi)
  {
    var k := Mk(d, a, true, root, b);
    MkRep(e, d, a, true, root, b, KidLo(d, lo, n), KidHi(d, n, hi));
    MkRep(e, d, k, false, n, c, lo, hi);
  }

  /** cldm_rbtree_rotate_single. `ok`: the memory has the shape `t`; otherwise only the writes are described. */
  method RotateSingle(root: RbNode, dir: Dir, ghost e: Env, ghost t: Tree, ghost lo: RbNode, ghost hi: RbNode,
                      ghost ok: bool := true)
    returns (n: RbNode)
    requires ok ==> t.T? && t.n == root && Kid(t, Opp(dir)).T? && Rep(e, t, lo, hi)
    requires ok ==> TotalOrder(e.cmp) && Ordered(e.cmp, Inorder(t)) && root != e.odd
    requires !ok ==> root.Link(Opp(dir)) != null && root.Link(Opp(dir)) != root
    modifies root, if ok then Kid(t, Opp(dir)).n else root.Link(Opp(dir))
    ensures ok ==> Rep(e, Rot(t, dir), lo, hi) && n == Rot(t, dir).n
    ensures !ok ==> n == old(root.Link(Opp(dir)))
    ensures Turned(root, n, dir)
  {
    hide Rep, Nodes, TotalOrder, Ordered, Inorder, LinkOk;
    ghost var a, b, c := E, E, E;
    if ok {
      var k := Kid(t, Opp(dir));
      a, b, c := Kid(t, dir), Kid(k, dir), Kid(k, Opp(dir));
      TakeApart(e, dir, a, t.red, root, b, k.red, k.n, c, lo, hi);
      KidBefore(e.cmp, t, dir);
      LinkChild(e, root, Opp(dir), k.n, Side(Opp(dir), lo, hi));
      assert allocated(Nodes(a)) && allocated(Nodes(b)) && allocated(Nodes(c));
    }
    n := root.Link(Opp(dir));
    RotateLinks(root, n, dir, e, a, b, c, lo, hi, ok);
    if ok { PutTogether(e, dir, a, root, b, n, c, lo, hi); }
  }

  /** The node that has been rotated above another is an acceptable thread of that node. */
  lemma ThreadUp(e: Env, root: RbNode, n: RbNode, dir: Dir)
    requires TotalOrder(e.cmp) && root != e.odd
    requires if dir == Left then e.cmp(root.key, n.key) > 0 else e.cmp(n.key, root.key) > 0
    ensures Thread(e, root, Opp(dir), n, n)
  {
  }

  /** The pointer writes of a rotation, given the three subtrees around the two nodes. */
  method RotateLinks(root: RbNode, n: RbNode, dir: Dir, ghost e: Env, ghost a: Tree, ghost b: Tree, ghost c: Tree,
                     ghost lo: RbNode, ghost hi: RbNode, ghost ok: bool := true)
    requires ok ==> LinksAbove(e, dir, a, root, b, n, c, lo, hi)
    requires ok ==> root != e.sent && n != e.sent && root != e.odd && TotalOrder(e.cmp)
    requires ok ==> if dir == Left then e.cmp(root.key, n.key) > 0 else e.cmp(n.key, root.key) > 0
    requires root != n && root.Link(Opp(dir)) == n
    modifies root, n
    ensures ok ==> LinksBelow(e, dir, a, root, b, n, c, lo, hi)
    ensures Turned(root, n, dir)
  {
    hide Thread, TotalOrder;
    if ok { ThreadUp(e, root, n, dir); }
    TurnOver(root, n, dir);
  }

  /** The writes of cldm_rbtree_rotate_single. When `n` has a thread towards `root`, the link of `root` already
      leads to `n`, and only the flag bits change. */
  method TurnOver(root: RbNode, n: RbNode, dir: Dir)
    requires root != n
    modifies root, n
    ensures Turned(root, n, dir)
  {
    if n.IsThread(dir) {
      root.SetThread(Opp(dir), true);
      n.SetThread(dir, false);
    } else {
      root.SetLink(Opp(dir), n.Link(dir));
    }
    n.SetLink(dir, root);
    root.red := true;
    n.red := false;
  }

  twostate predicate Turned(root: RbNode, n: RbNode, dir: Dir)
    reads root, n
  {
    && root.Link(dir) == old(root.Link(dir)) && root.IsThread(dir) == old(root.IsThread(dir))
    && root.Link(Opp(dir)) == old(if n.IsThread(dir) then root.Link(Opp(dir)) else n.Link(dir))
    && root.IsThread(Opp(dir)) == old(n.IsThread(dir) || root.IsThread(Opp(dir)))
    && n.Link(dir) == root && !n.IsThread(dir)
    && n.Link(Opp(dir)) == old(n.Link(Opp(dir))) && n.IsThread(Opp(dir)) == old(n.IsThread(Opp(dir)))
    && root.red && !n.red
  }

  /** What the two rotations of a double rotation write, in terms of the links before. */
  twostate predicate TurnedTwice(root: RbNode, k: RbNode, m: RbNode, dir: Dir)
    reads root, k, m
  {
    && k.Link(Opp(dir)) == old(k.Link(Opp(dir))) && k.IsThread(Opp(dir)) == old(k.IsThread(Opp(dir)))
    && k.Link(dir) == old(if m.IsThread(Opp(dir)) then k.Link(dir) else m.Link(Opp(dir)))
    && k.IsThread(dir) == old(m.IsThread(Opp(dir)) || k.IsThread(dir))
    && root.Link(dir) == old(root.Link(dir)) && root.IsThread(dir) == old(root.IsThread(dir))
    && root.Link(Opp(dir)) == old(if m.IsThread(dir) then m else m.Link(dir))
    && root.IsThread(Opp(dir)) == old(m.IsThread(dir) || root.IsThread(Opp(dir)))
    && m.Link(Opp(dir)) == k && m.Link(dir) == root && !m.leftThread && !m.rightThread
    && root.red && k.red && !m.red
  }

  /** cldm_rbtree_rotate_double. `ok`: the memory has the shape `t`; otherwise `k` and `m` are the nodes that
      turn about `root`. */
  method RotateDouble(root: RbNode, dir: Dir, ghost e: Env, ghost t: Tree, ghost lo: RbNode, ghost hi: RbNode,
                      ghost k: RbNode, ghost m: RbNode, ghost ok: bool := true)
    returns (n: RbNode)
    requires ok ==> t.T? && t.n == root && Kid(t, Opp(dir)).T? && Kid(Kid(t, Opp(dir)), dir).T? && Rep(e, t, lo, hi)
    requires ok ==> TotalOrder(e.cmp) && Ordered(e.cmp, Inorder(t)) && root != e.odd && Kid(t, Opp(dir)).n != e.odd
    requires ok ==> k == Kid(t, Opp(dir)).n && m == Kid(Kid(t, Opp(dir)), dir).n
    requires !ok ==> root.Link(Opp(dir)) == k && k.Link(dir) == m && root != k && k != m && root != m
    modifies root, k, m
    ensures ok ==> Rep(e, Rot2(t, dir), lo, hi) && n == Rot2(t, dir).n
    ensures ok ==> (root.IsThread(Opp(dir)) ==> root.Link(Opp(dir)) == n)
    ensures !ok ==> n == m && TurnedTwice(root, k, m, dir)
  {
    hide Rep, Nodes, TotalOrder, Ordered, Inorder, LinkOk;
    ghost var near, far, klo, khi := E, E, lo, hi;
    if ok {
      near, far := Kid(t, dir), Kid(t, Opp(dir));
      klo, khi := KidLo(Opp(dir), lo, root), KidHi(Opp(dir), root, hi);
      MkRep(e, dir, near, t.red, root, far, lo, hi);
      LinkChild(e, root, Opp(dir), k, Side(Opp(dir), lo, hi));
      OrderedKid(e.cmp, t, Opp(dir));
      NodesTop(t); NodesTop(far); NodesTop(Kid(far, dir));
      RotInorder(far, Opp(dir));
      assert allocated(Nodes(near)) && allocated(Nodes(far));
      MkRep(e, Opp(dir), Kid(far, Opp(dir)), far.red, k, Kid(far, dir), klo, khi);
    }
    var k0 := root.Link(Opp(dir));
    var m0 := RotateSingle(k0, Opp(dir), e, far, klo, khi, ok);
    ghost var far2, t2 := E, E;
    if ok {
      far2 := Rot(far, Opp(dir));
      assert allocated(Nodes(far2));
    }
    SwingLink(root, Opp(dir), m0, e, k, Top(near), Side(Opp(dir), lo, hi), Side(dir, lo, hi), ok);
    if ok {
      t2 := Mk(dir, near, t.red, root, far2);
      MkRep(e, dir, near, t.red, root, far2, lo, hi);
      MkInorder(Opp(dir), far, far2, t.red, root, near);
    }
    n := RotateSingle(root, dir, e, t2, lo, hi, ok);
  }

  /** Replaces one child by another node. */
  method SwingLink(n: RbNode, d: Dir, m: RbNode, ghost e: Env, ghost x: RbNode, ghost y: RbNode?,
                   ghost bx: RbNode, ghost bnd: RbNode, ghost ok: bool := true)
    requires ok ==> LinkOk(e, n, d, x, bx) && LinkOk(e, n, Opp(d), y, bnd)
    modifies n`left, n`right
    ensures ok ==> LinkOk(e, n, d, m, bx) && LinkOk(e, n, Opp(d), y, bnd)
    ensures n.Link(d) == m && n.Link(Opp(d)) == old(n.Link(Opp(d)))
  {
    n.SetLink(d, m);
  }

  lemma OrderedKid(cmp: Order, t: Tree, d: Dir)
    requires t.T? && Ordered(cmp, Inorder(t))
    ensures Ordered(cmp, Inorder(Kid(t, d)))
  {
    OrderedSplit(cmp, Inorder(t.l) + [t.n], Inorder(t.r));
    OrderedSplit(cmp, Inorder(t.l), [t.n]);
  }

  lemma NodesTop(t: Tree)
    requires t.T?
    ensures t.n in Nodes(t) && Nodes(t) == Nodes(t.l) + {t.n} + Nodes(t.r)
  {
  }
}
