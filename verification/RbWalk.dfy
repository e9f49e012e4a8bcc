/** Looking up and walking a tree: bounds on the search path, and what threads say in a tree that was only
    inserted into. */
module RbWalk {
  import opened RbShape
  import opened RbHeap
  import opened RbSurgery

  function Pow2(n: nat): nat { if n == 0 then 1 else 2 * Pow2(n - 1) }

  lemma {:induction false} Pow2Mono(a: nat, b: nat)
    requires a <= b
    ensures Pow2(a) <= Pow2(b)
  {
    if a < b { Pow2Mono(a, b - 1); }
  }

  lemma {:induction false} Pow2Double(h: nat)
    ensures Pow2(2 * h) == Pow2(h) * Pow2(h)
  {
    if h > 0 {
      Pow2Double(h - 1);
      assert Pow2(2 * h) == 4 * Pow2(2 * (h - 1));
      var x := Pow2(h - 1);
      assert Pow2(h) * Pow2(h) == (2 * x) * (2 * x) == 4 * (x * x);
    }
  }

  /** A tree of black height `h` holds at least 2^h - 1 nodes. */
  lemma {:induction false} Bushy(t: Tree, h: nat)
    requires Balanced(t, h)
    ensures |Inorder(t)| + 1 >= Pow2(h)
  {
    if t.T? {
      Bushy(t.l, if t.red then h else h - 1);
      Bushy(t.r, if t.red then h else h - 1);
    }
  }

  /** At most 2h comparisons, where h is the black height, are at most 2 log2(n + 1). */
  lemma Logarithmic(t: Tree, h: nat, comparisons: nat)
    requires Balanced(t, h) && comparisons <= 2 * h
    ensures Pow2(comparisons) <= (|Inorder(t)| + 1) * (|Inorder(t)| + 1)
  {
    Bushy(t, h);
    Pow2Mono(comparisons, 2 * h);
    Pow2Double(h);
    Squares(Pow2(h), |Inorder(t)| + 1);
  }

  lemma Squares(x: nat, y: nat)
    requires x <= y
    ensures x * x <= y * y
  {
    assert x * x <= x * y <= y * y;
  }

  // ---------------------------------------------------------------- threads and order

  /** The node after position `i`, or `end` after the last one. */
  function NextOf(s: seq<RbNode>, i: nat, end: RbNode): RbNode {
    if i + 1 < |s| then s[i + 1] else end
  }

  /** The leftmost node of a subtree. */
  function First(t: Tree): RbNode
    requires t.T?
  { if t.l.T? then First(t.l) else t.n }

  lemma FirstIn(t: Tree)
    requires t.T?
    ensures Inorder(t) != [] && Inorder(t)[0] == First(t)
  {
  }

  /** What the links of the i-th node say: its right link is a thread to the next node, or its right
      subtree starts with the next node. */
  ghost predicate RightOf(x: RbNode, next: RbNode, sub: Tree)
    reads x
  {
    x.rightThread == sub.E? && if sub.E? then x.right == next else x.right == sub.n && First(sub) == next
  }

  lemma SuccessorAt(e: Env, t: Tree, lo: RbNode, hi: RbNode, i: nat) returns (sub: Tree, slo: RbNode, shi: RbNode)
    requires e.exact && Rep(e, t, lo, hi) && i < |Inorder(t)|
    ensures RightOf(Inorder(t)[i], NextOf(Inorder(t), i, hi), sub) && Rep(e, sub, slo, shi)
  {
    var k := |Inorder(t.l)|;
    var s := Inorder(t);
    if i < k {
      assert s[i] == Inorder(t.l)[i] && NextOf(s, i, hi) == NextOf(Inorder(t.l), i, t.n);
      sub, slo, shi := SuccessorAt(e, t.l, lo, t.n, i);
    } else if i > k {
      var j := i - k - 1;
      assert s[i] == Inorder(t.r)[j] && NextOf(s, i, hi) == NextOf(Inorder(t.r), j, hi);
      sub, slo, shi := SuccessorAt(e, t.r, t.n, hi, j);
    } else {
      sub, slo, shi := t.r, t.n, hi;
      if t.r.T? {
        FirstIn(t.r);
        assert s[i + 1] == Inorder(t.r)[0];
      }
    }
  }

  /** cldm_rbtree_leftmost */
  method Leftmost(node: RbNode, ghost e: Env, ghost t: Tree, ghost lo: RbNode, ghost hi: RbNode) returns (r: RbNode)
    requires t.T? && node == t.n && Rep(e, t, lo, hi)
    ensures r == First(t)
  {
    r := node;
    ghost var s, shi := t, hi;
    while !r.IsThread(Left)
      invariant s.T? && r == s.n && First(s) == First(t) && Rep(e, s, lo, shi)
      decreases s
    {
      shi := s.n;
      s := s.l;
      r := r.left;
    }
  }

  /** cldm_rbnode_successor */
  method Successor(node: RbNode, ghost e: Env, ghost next: RbNode, ghost sub: Tree, ghost slo: RbNode, ghost shi: RbNode)
    returns (r: RbNode)
    requires RightOf(node, next, sub) && Rep(e, sub, slo, shi)
    ensures r == next
  {
    if !node.IsThread(Right) {
      r := Leftmost(node.right, e, sub, slo, shi);
    } else {
      r := node.right;
    }
  }
}
