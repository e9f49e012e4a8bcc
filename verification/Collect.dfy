/** The tests in the order they are run in: collected into a tree, then read off it (cldm_collect.c, and the loop
    over the tree in cldm_parallel.c and cldm_sequential.c). */
module Collect {
  import opened RbBalance
  import opened RbHeap
  import opened RbInsert
  import opened RbMisled
  import opened RbRemove
  import opened RbSearch
  import opened RbShape
  import opened RbSurgery
  import opened RbTree
  import opened RbWhole
  import opened TestRecords

  /** The records of a list, without the missing ones. */
  ghost function Found(records: seq<RbNode?>): (s: set<RbNode>) { set n: RbNode | n in records }

  /** The first of the records with its file and name. */
  ghost predicate IsFirst(records: seq<RbNode?>, n: RbNode) {
    exists i :: 0 <= i < |records| && records[i] == n && forall j :: 0 <= j < i ==> Differ(records[j], n)
  }

  ghost predicate Differ(r: RbNode?, n: RbNode) { r == null || r == n || r.key != n.key }

  ghost function Firsts(records: seq<RbNode?>): (s: set<RbNode>) { set n: RbNode | n in records && IsFirst(records, n) }

  ghost function Elements(nodes: seq<RbNode>): (s: set<RbNode>) { set n | n in nodes }

  /** Tests one after the other, as their files and names ask for, none twice. */
  ghost predicate InOrder(keys: seq<Key>) { forall i, j :: 0 <= i < j < |keys| ==> Earlier(keys[i], keys[j]) }

  function KeysOf(nodes: seq<RbNode>): (r: seq<Key>)
    ensures |r| == |nodes| && forall i :: 0 <= i < |r| ==> r[i] == nodes[i].key
  { if nodes == [] then [] else [nodes[0].key] + KeysOf(nodes[1..]) }

  ghost predicate Has(records: seq<RbNode?>, key: Key) {
    exists j :: 0 <= j < |records| && records[j] != null && records[j].key == key
  }

  /** One more record keeps a tree of the first records of their keys. */
  lemma OneMore(records: seq<RbNode?>, was: seq<RbNode>, now: seq<RbNode>, node: RbNode, ok: bool)
    requires Elements(was) == Firsts(records)
    requires ok <==> forall x :: x in was ==> x.key != node.key
    requires ok ==> exists i :: 0 <= i <= |was| && now == PutAt(was, i, node)
    requires !ok ==> now == was
    ensures Elements(now) == Firsts(records + [node])
  {
    hide IsFirst;
    if ok { PutMember(was, now, node); }
    TakenIff(records, was, node);
    forall n
      ensures n in Elements(now) <==> n in Firsts(records + [node])
    {
      FirstOfMore(records, node, n);
      FirstIsOne(records, n);
      FirstIsOne(records + [node], n);
      assert n in Elements(was) <==> n in was;
    }
  }

  lemma FirstIsOne(records: seq<RbNode?>, n: RbNode)
    ensures IsFirst(records, n) ==> n in records
  {
  }

  lemma PutMember(was: seq<RbNode>, now: seq<RbNode>, node: RbNode)
    requires exists i :: 0 <= i <= |was| && now == PutAt(was, i, node)
    ensures forall n :: n in now <==> n in was || n == node
  {
    var i :| 0 <= i <= |was| && now == PutAt(was, i, node);
    assert was == was[..i] + was[i..];
  }

  lemma TakenIff(records: seq<RbNode?>, was: seq<RbNode>, node: RbNode)
    requires Elements(was) == Firsts(records)
    ensures !Has(records, node.key) <==> forall x :: x in was ==> x.key != node.key
  {
    if j :| 0 <= j < |records| && records[j] != null && records[j].key == node.key {
      var x := FirstWith(records, j);
      assert x in Elements(was);
    } else {
      assert forall x :: x in was ==> x in Elements(was);
    }
  }

  lemma FirstOfMore(records: seq<RbNode?>, node: RbNode, n: RbNode)
    ensures IsFirst(records + [node], n) <==> IsFirst(records, n) || (!Has(records, node.key) && n == node)
  {
    var more := records + [node];
    if IsFirst(records, n) {
      var i :| 0 <= i < |records| && records[i] == n && forall j :: 0 <= j < i ==> Differ(records[j], n);
      assert more[i] == n && forall j :: 0 <= j < i ==> Differ(more[j], n);
    } else if !Has(records, node.key) && n == node {
      assert more[|records|] == n;
    } else if IsFirst(more, n) {
      var i :| 0 <= i < |more| && more[i] == n && forall j :: 0 <= j < i ==> Differ(more[j], n);
      forall j | 0 <= j < i
        ensures j < |records| && Differ(records[j], n)
      {
        assert Differ(more[j], n);
      }
    }
  }

  /** Of the records with a key one is first. */
  lemma {:induction false} FirstWith(records: seq<RbNode?>, k: nat) returns (x: RbNode)
    requires k < |records| && records[k] != null
    ensures x.key == records[k].key && IsFirst(records, x)
  {
    if j :| 0 <= j < k && records[j] != null && records[j].key == records[k].key {
      x := FirstWith(records, j);
    } else {
      x := records[k];
    }
  }

  /** In a tree that was only inserted into nothing is misled. */
  lemma Untouched(tree: RbTree)
    requires tree.Valid() && tree.exact
    ensures tree.noisy == {} && forall x :: x in tree.Repr() <==> x in tree.Contents() || x == tree.sentinel
  {
    hide View, RedBlack, Inorder, Nodes;
    InorderNodes(tree.shape);
    assert CNodes(Root) == {};
  }

  /** cldm_collect: a tree of the test records, `records` being what the look-ups of the test symbols give. It fails
      exactly if one of them is missing; of records with the same file and name the first is kept. */
  method Collect(records: seq<RbNode?>) returns (tree: RbTree, ntests: int)
    modifies Found(records)
    ensures fresh(tree) && tree.Valid() && tree.exact && tree.compare == Compare
    ensures ntests == if null in records then -1 else |tree.Contents()|
    ensures null !in records ==> Elements(tree.Contents()) == Firsts(records)
  {
    hide View, All, Inorder, Nodes, RedBlack, TotalOrder, Compare, IsFirst, Ordered, Neighbour, Stray, Adds, Ensnared,
      Spot;
    CompareIsOrder();
    tree := new RbTree(Compare);
    var i := 0;
    while i < |records|
      invariant 0 <= i <= |records| && fresh(tree) && fresh(tree.sentinel) && null !in records[..i]
      invariant tree.Valid() && tree.exact && tree.compare == Compare
      invariant Elements(tree.Contents()) == Firsts(records[..i])
    {
      if records[i] == null {
        return tree, -1;
      }
      ghost var was := tree.Contents();
      Untouched(tree);
      assert forall n :: n in was ==> n in Elements(was);
      var ok;
      ghost var misled;
      ok, misled := tree.Insert(records[i]);
      OneMore(records[..i], was, tree.Contents(), records[i], ok);
      assert records[..i + 1] == records[..i] + [records[i]];
      i := i + 1;
    }
    assert records[..i] == records;
    ntests := tree.size;
  }

  /** The loop that fills the array of records from the tree: file by file and name by name. */
  method Records(tree: RbTree) returns (records: seq<RbNode>)
    requires tree.Valid() && tree.exact && tree.compare == Compare
    ensures records == tree.Contents() && InOrder(KeysOf(records))
  {
    hide Compare, Earlier;
    records := tree.ForEach();
    forall i, j | 0 <= i < j < |records|
      ensures Earlier(records[i].key, records[j].key)
    {
      CompareIsLexicographic(records[i].key, records[j].key);
    }
  }

  /** The keys and their order say everything: two runs over the same tests get them in the same order. */
  lemma {:induction false} OrderIsUnique(a: seq<Key>, b: seq<Key>)
    requires InOrder(a) && InOrder(b) && forall k :: k in a <==> k in b
    ensures a == b
  {
    hide Earlier;
    if a != [] && b != [] {
      SameFirst(a, b);
      forall k
        ensures k in a[1..] <==> k in a && k != a[0]
        ensures k in b[1..] <==> k in b && k != b[0]
      {
        Later(a, k);
        Later(b, k);
      }
      OrderIsUnique(a[1..], b[1..]);
      assert a == [a[0]] + a[1..] && b == [b[0]] + b[1..];
    } else {
      SomeKey(a);
      SomeKey(b);
    }
  }

  lemma SomeKey(a: seq<Key>)
    ensures a != [] ==> exists k :: k in a
  {
    if a != [] { assert a[0] in a; }
  }

  lemma NeverBoth(l: Key, r: Key)
    ensures !(Earlier(l, r) && Earlier(r, l)) && !Earlier(l, l)
  {
    CompareIsLexicographic(l, r);
    CompareIsLexicographic(l, l);
  }

  lemma Later(a: seq<Key>, k: Key)
    requires InOrder(a) && a != []
    ensures k in a[1..] <==> k in a && k != a[0]
  {
    hide Earlier;
    NeverBoth(a[0], a[0]);
    if k in a[1..] { assert Earlier(a[0], k); }
  }

  lemma SameFirst(a: seq<Key>, b: seq<Key>)
    requires InOrder(a) && InOrder(b) && a != [] && b != [] && forall k :: k in a <==> k in b
    ensures a[0] == b[0]
  {
    hide Earlier;
    if a[0] != b[0] {
      assert a[0] in b && b[0] in a;
      assert Earlier(a[0], b[0]) && Earlier(b[0], a[0]);
      NeverBoth(a[0], b[0]);
    }
  }

  /** Every file and name among the records is found in the tree, and no others are. */
  lemma AllKeys(records: seq<RbNode?>, nodes: seq<RbNode>, k: Key)
    requires Elements(nodes) == Firsts(records)
    ensures k in KeysOf(nodes) <==> Has(records, k)
  {
    if i :| 0 <= i < |records| && records[i] != null && records[i].key == k {
      var x := FirstWith(records, i);
      assert x in Elements(nodes);
      var j :| 0 <= j < |nodes| && nodes[j] == x;
      assert KeysOf(nodes)[j] == k;
    } else if k in KeysOf(nodes) {
      var j :| 0 <= j < |nodes| && KeysOf(nodes)[j] == k;
      assert nodes[j] in Elements(nodes);
    }
  }

  /** In which order the symbol table lists the tests, and how often, has no bearing on the order they run in. */
  lemma SameOrder(a: seq<RbNode?>, m: seq<RbNode>, b: seq<RbNode?>, n: seq<RbNode>)
    requires Elements(m) == Firsts(a) && InOrder(KeysOf(m))
    requires Elements(n) == Firsts(b) && InOrder(KeysOf(n))
    requires forall k :: Has(a, k) <==> Has(b, k)
    ensures KeysOf(m) == KeysOf(n)
  {
    hide Earlier, InOrder, Firsts, KeysOf, Has;
    forall k
      ensures k in KeysOf(m) <==> k in KeysOf(n)
    {
      AllKeys(a, m, k);
      AllKeys(b, n, k);
    }
    OrderIsUnique(KeysOf(m), KeysOf(n));
  }
}
