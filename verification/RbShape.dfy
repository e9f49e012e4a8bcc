/** The values that describe a threaded red-black tree: the nodes themselves, the
    shape they form, and a shape with a hole (the place the descent has reached). */
module RbShape {
  import opened Wrappers

  /** The (file, name) pair a test record is filed under. */
  datatype Key = Key(file: CString, name: CString)

  /** A comparison callback: positive when the first key precedes the second. */
  type Order = (Key, Key) -> int

  /** Marker that names an instance of transitivity; always true. */
  ghost predicate Via(a: Key, b: Key, c: Key) { true }

  ghost predicate TotalOrder(cmp: Order) {
    && (forall a, b :: cmp(a, b) == 0 <==> a == b)
    && (forall a, b :: cmp(a, b) > 0 <==> cmp(b, a) < 0)
    && (forall a, b, c {:trigger Via(a, b, c)} :: cmp(a, b) > 0 && cmp(b, c) > 0 ==> cmp(a, c) > 0)
  }

  datatype Dir = Left | Right

  function Opp(d: Dir): Dir { if d == Left then Right else Left }

  class RbNode {
    const key: Key
    var left: RbNode?
    var right: RbNode?
    var red: bool
    /** The two flag bits: a set bit says that the link is a thread, not a child. */
    var leftThread: bool
    var rightThread: bool

    constructor (key: Key)
      ensures this.key == key
      ensures left == null && right == null && !red && !leftThread && !rightThread
    {
      this.key := key;
      left, right, red, leftThread, rightThread := null, null, false, false, false;
    }

    function Link(d: Dir): RbNode?
      reads this
    { if d == Left then left else right }

    predicate IsThread(d: Dir)
      reads this
    { if d == Left then leftThread else rightThread }

    predicate IsRedSafe(d: Dir)
      requires !IsThread(d) ==> Link(d) != null
      reads this, Link(d)
    { !IsThread(d) && Link(d).red }

    method SetLink(d: Dir, target: RbNode?)
      modifies this`left, this`right
      ensures Link(d) == target && Link(Opp(d)) == old(Link(Opp(d)))
    { if d == Left { left := target; } else { right := target; } }

    method SetThread(d: Dir, b: bool)
      modifies this`leftThread, this`rightThread
      ensures IsThread(d) == b && IsThread(Opp(d)) == old(IsThread(Opp(d)))
    { if d == Left { leftThread := b; } else { rightThread := b; } }
  }

  // ---------------------------------------------------------------- shapes

  datatype Tree = E | T(l: Tree, red: bool, n: RbNode, r: Tree)

  function Kid(t: Tree, d: Dir): Tree
    requires t.T?
  { if d == Left then t.l else t.r }

  /** The tree at `n` whose subtree in direction `d` is `near` and whose other one is `far`. */
  function Mk(d: Dir, near: Tree, red: bool, n: RbNode, far: Tree): Tree {
    if d == Left then T(near, red, n, far) else T(far, red, n, near)
  }

  predicate IsRed(t: Tree) { t.T? && t.red }

  function Paint(t: Tree, red: bool): Tree {
    match t case E => E case T(l, _, n, r) => T(l, red, n, r)
  }

  ghost function Nodes(t: Tree): set<RbNode> {
    match t case E => {} case T(l, _, n, r) => Nodes(l) + {n} + Nodes(r)
  }

  function Inorder(t: Tree): seq<RbNode> {
    match t case E => [] case T(l, _, n, r) => Inorder(l) + [n] + Inorder(r)
  }

  /** A shape with a hole. `Up(d, red, n, sib, up)`: the hole is the child in direction `d` of
      the node `n`, whose other subtree is `sib`; `up` is the hole that node itself fills. */
  datatype Ctx = Root | Up(d: Dir, red: bool, n: RbNode, sib: Tree, up: Ctx)

  function Plug(c: Ctx, t: Tree): Tree
    decreases c
  {
    match c case Root => t case Up(d, red, n, sib, up) => Plug(up, Mk(d, t, red, n, sib))
  }

  function Plug1(c: Ctx, t: Tree): Tree
    requires c.Up?
  { Mk(c.d, t, c.red, c.n, c.sib) }

  ghost function CNodes(c: Ctx): set<RbNode> {
    match c case Root => {} case Up(_, _, n, sib, up) => {n} + Nodes(sib) + CNodes(up)
  }

  /** In-order nodes to the left of the hole. */
  function Before(c: Ctx): seq<RbNode> {
    match c
    case Root => []
    case Up(d, _, n, sib, up) => if d == Right then Before(up) + (Inorder(sib) + [n]) else Before(up)
  }

  /** In-order nodes to the right of the hole. */
  function After(c: Ctx): seq<RbNode> {
    match c
    case Root => []
    case Up(d, _, n, sib, up) => if d == Left then ([n] + Inorder(sib)) + After(up) else After(up)
  }

  /** The whole in-order sequence when `t` fills the hole. */
  function Flat(c: Ctx, t: Tree): seq<RbNode> { Before(c) + Inorder(t) + After(c) }

  lemma {:induction false} FlatPlug(c: Ctx, t: Tree)
    ensures Inorder(Plug(c, t)) == Flat(c, t)
    decreases c
  {
    match c
    case Root =>
    case Up(d, red, n, sib, up) =>
      FlatPlug(up, Mk(d, t, red, n, sib));
      FlatStep(d, red, n, sib, up, t);
  }

  lemma FlatStep(d: Dir, red: bool, n: RbNode, sib: Tree, up: Ctx, t: Tree)
    ensures Flat(Up(d, red, n, sib, up), t) == Flat(up, Mk(d, t, red, n, sib))
  {
    var b, i, z := Before(up), Inorder(t), After(up);
    if d == Left {
      Regroup(b, i, [n], Inorder(sib), z);
    } else {
      Regroup(b, Inorder(sib), [n], i, z);
    }
  }

  lemma Regroup(a: seq<RbNode>, b: seq<RbNode>, c: seq<RbNode>, d: seq<RbNode>, e: seq<RbNode>)
    ensures (a + b) + ((c + d) + e) == (a + (b + c + d)) + e
    ensures ((a + (b + c)) + d) + e == (a + (b + c + d)) + e
  {
  }

  // ---------------------------------------------------------------- red-black rules

  /** Every path down `t` meets `h` black nodes and no red node has a red child. */
  ghost predicate Balanced(t: Tree, h: nat) {
    match t
    case E => h == 0
    case T(l, red, _, r) =>
      if red then !IsRed(l) && !IsRed(r) && Balanced(l, h) && Balanced(r, h)
      else h > 0 && Balanced(l, h - 1) && Balanced(r, h - 1)
  }

  predicate RedTop(c: Ctx) { c.Up? && c.red }

  /** Filling the hole with a tree of black height `h` breaks no rule above the hole. */
  ghost predicate CBalanced(c: Ctx, h: nat) {
    match c
    case Root => true
    case Up(_, red, _, sib, up) =>
      Balanced(sib, h) && (red ==> !IsRed(sib) && !RedTop(up)) && CBalanced(up, if red then h else h + 1)
  }

  /** `t` in the hole of `c` follows every rule, except that the root may be red. */
  ghost predicate ZBalanced(c: Ctx, t: Tree, h: nat) {
    Balanced(t, h) && CBalanced(c, h) && !(IsRed(t) && RedTop(c))
  }

  lemma {:induction false} PlugBalanced(c: Ctx, t: Tree, h: nat) returns (H: nat)
    requires ZBalanced(c, t, h)
    ensures Balanced(Plug(c, t), H)
    decreases c
  {
    match c
    case Root => H := h;
    case Up(d, red, n, sib, up) =>
      H := PlugBalanced(up, Mk(d, t, red, n, sib), if red then h else h + 1);
  }

  // ---------------------------------------------------------------- rotations

  /** What a single rotation in direction `d` makes of `t`: the child opposite `d` comes up black
      and the old root goes down red. */
  function Rot(t: Tree, d: Dir): Tree
    requires t.T? && Kid(t, Opp(d)).T?
  {
    var n := Kid(t, Opp(d));
    Mk(d, Mk(d, Kid(t, d), true, t.n, Kid(n, d)), false, n.n, Kid(n, Opp(d)))
  }

  function Rot2(t: Tree, d: Dir): Tree
    requires t.T? && Kid(t, Opp(d)).T? && Kid(Kid(t, Opp(d)), d).T?
  {
    Rot(Mk(d, Kid(t, d), t.red, t.n, Rot(Kid(t, Opp(d)), Opp(d))), d)
  }

  lemma MkInorder(d: Dir, a: Tree, b: Tree, red: bool, n: RbNode, far: Tree)
    requires Inorder(a) == Inorder(b)
    ensures Inorder(Mk(d, a, red, n, far)) == Inorder(Mk(d, b, red, n, far))
    ensures Mk(Opp(d), far, red, n, b) == Mk(d, b, red, n, far)
  {
  }

  lemma RotInorder(t: Tree, d: Dir)
    requires t.T? && Kid(t, Opp(d)).T?
    ensures Inorder(Rot(t, d)) == Inorder(t) && Nodes(Rot(t, d)) == Nodes(t)
  {
    var n := Kid(t, Opp(d));
    if d == Left {
      assert Inorder(t) == Inorder(t.l) + [t.n] + (Inorder(n.l) + [n.n] + Inorder(n.r));
    } else {
      assert Inorder(t) == (Inorder(n.l) + [n.n] + Inorder(n.r)) + [t.n] + Inorder(t.r);
    }
  }
}
