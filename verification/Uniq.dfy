/** cldm_uniq: drops repeated neighbours, also in place (cldm_algo.c). */
module Uniq {

  /** What is kept of `s` after `prev`, the last element kept. */
  function Kept<T(!new)>(cmp: (T, T) -> int, prev: T, s: seq<T>): (r: seq<T>)
    ensures |r| <= |s|
  {
    if s == [] then []
    else if cmp(prev, s[0]) != 0 then [s[0]] + Kept(cmp, s[0], s[1..])
    else Kept(cmp, prev, s[1..])
  }

  function Unique<T(!new)>(cmp: (T, T) -> int, s: seq<T>): (r: seq<T>)
    requires s != []
    ensures 1 <= |r| <= |s|
  { [s[0]] + Kept(cmp, s[0], s[1..]) }

  /** cldm_uniq, on one memory: `dst` and `src` are where the two areas begin. They may be the same, lie apart, or
      overlap with the destination first: `prev` and `curr` stay valid then, because a write never gets ahead of
      `curr` and passes `prev` only when that moves on. */
  method UniqInto<T(!new)>(mem: array<T>, dst: nat, src: nat, nelems: nat, cmp: (T, T) -> int) returns (k: nat)
    requires 1 <= nelems && src + nelems <= mem.Length && dst + nelems <= mem.Length
    requires dst <= src || src + nelems <= dst
    modifies mem
    ensures k == |Unique(cmp, old(mem[src..src + nelems]))| && mem[dst..dst + k] == Unique(cmp, old(mem[src..src + nelems]))
    ensures forall i :: 0 <= i < mem.Length && !(dst <= i < dst + k) ==> mem[i] == old(mem[i])
  {
    hide Kept, Unique, Laid, Progress;
    ghost var was, s := mem[..], mem[src..src + nelems];
    var prev, curr, d := src, src + 1, dst + 1;
    ghost var kept := [] + [s[0]];
    LaidNone(was, dst);
    Move(mem, dst, src, was, dst, []);
    ProgressStart(cmp, s);
    var i := 0;
    while i < nelems - 1
      invariant 0 <= i <= nelems - 1 && curr == src + i + 1 && src <= prev < curr
      invariant 1 <= d - dst == |kept| <= i + 1
      invariant Progress(cmp, s, kept, mem[prev], i + 1)
      invariant Laid(mem[..], was, dst, kept)
    {
      assert mem[curr] == s[i + 1] by { LaidAt(mem[..], was, dst, kept, curr); }
      ProgressStep(cmp, s, kept, mem[prev], i + 1);
      if cmp(mem[prev], mem[curr]) != 0 {
        Move(mem, d, curr, was, dst, kept);
        kept := kept + [s[i + 1]];
        d := d + 1;
        prev := curr;
      }
      curr := curr + 1;
      i := i + 1;
    }
    ProgressEnd(cmp, s, kept, mem[prev]);
    LaidDone(mem[..], was, dst, kept);
    return d - dst;
  }

  /** `kept` is what has been kept of the first `n` elements, `prev` being the last of it. */
  ghost predicate Progress<T(!new)>(cmp: (T, T) -> int, s: seq<T>, kept: seq<T>, prev: T, n: nat)
    requires n <= |s| && s != []
  { kept + Kept(cmp, prev, s[n..]) == Unique(cmp, s) }

  lemma ProgressStart<T(!new)>(cmp: (T, T) -> int, s: seq<T>)
    requires s != []
    ensures Progress(cmp, s, [] + [s[0]], s[0], 1)
  {
    assert [] + [s[0]] == [s[0]];
  }

  lemma ProgressStep<T(!new)>(cmp: (T, T) -> int, s: seq<T>, kept: seq<T>, prev: T, n: nat)
    requires n < |s| && Progress(cmp, s, kept, prev, n)
    ensures if cmp(prev, s[n]) != 0 then Progress(cmp, s, kept + [s[n]], s[n], n + 1)
            else Progress(cmp, s, kept, prev, n + 1)
  {
    assert s[n..][0] == s[n] && s[n..][1..] == s[n + 1..];
    assert kept + ([s[n]] + Kept(cmp, s[n], s[n + 1..])) == (kept + [s[n]]) + Kept(cmp, s[n], s[n + 1..]);
  }

  lemma ProgressEnd<T(!new)>(cmp: (T, T) -> int, s: seq<T>, kept: seq<T>, prev: T)
    requires s != [] && Progress(cmp, s, kept, prev, |s|)
    ensures kept == Unique(cmp, s)
  {
  }

  /** The memory is as it was, but for `kept` at `dst`. */
  ghost predicate Laid<T(!new)>(m: seq<T>, was: seq<T>, dst: nat, kept: seq<T>) {
    && |m| == |was| && dst + |kept| <= |m|
    && forall j :: 0 <= j < |m| ==> m[j] == if dst <= j < dst + |kept| then kept[j - dst] else was[j]
  }

  lemma LaidNone<T(!new)>(m: seq<T>, dst: nat)
    requires dst <= |m|
    ensures Laid(m, m, dst, [])
  {
  }

  lemma LaidAt<T(!new)>(m: seq<T>, was: seq<T>, dst: nat, kept: seq<T>, j: nat)
    requires Laid(m, was, dst, kept) && j < |was|
    ensures m[j] == if dst <= j < dst + |kept| then kept[j - dst] else was[j]
  {
  }

  lemma LaidDone<T(!new)>(m: seq<T>, was: seq<T>, dst: nat, kept: seq<T>)
    requires Laid(m, was, dst, kept)
    ensures |m| == |was| && dst + |kept| <= |m| && m[dst..dst + |kept|] == kept
    ensures forall i :: 0 <= i < |m| && !(dst <= i < dst + |kept|) ==> m[i] == was[i]
  {
  }

  /** memmove of one element behind those kept. */
  method Move<T(!new)>(mem: array<T>, d: nat, curr: nat, ghost was: seq<T>, ghost dst: nat, ghost kept: seq<T>)
    requires Laid(mem[..], was, dst, kept) && d == dst + |kept| < mem.Length && curr < mem.Length
    modifies mem
    ensures Laid(mem[..], was, dst, kept + [old(mem[curr])])
    ensures mem[curr] == old(mem[curr])
  {
    mem[d] := mem[curr];
  }

  ghost predicate Differ<T(!new)>(cmp: (T, T) -> int, s: seq<T>) {
    forall i :: 0 < i < |s| ==> cmp(s[i - 1], s[i]) != 0
  }

  /** Neighbours in the result differ. */
  lemma {:induction false} NeighboursDiffer<T(!new)>(cmp: (T, T) -> int, prev: T, s: seq<T>)
    ensures Differ(cmp, [prev] + Kept(cmp, prev, s))
  {
    if s != [] {
      if cmp(prev, s[0]) != 0 {
        NeighboursDiffer(cmp, s[0], s[1..]);
        var q := [s[0]] + Kept(cmp, s[0], s[1..]);
        var r := [prev] + Kept(cmp, prev, s);
        assert r == [prev] + q;
        forall i | 0 < i < |r|
          ensures cmp(r[i - 1], r[i]) != 0
        {
          if i > 1 { assert r[i - 1] == q[i - 2] && r[i] == q[i - 1]; }
        }
      } else {
        NeighboursDiffer(cmp, prev, s[1..]);
        assert Kept(cmp, prev, s) == Kept(cmp, prev, s[1..]);
      }
    }
  }

  /** The place after the last element that `p[j]` stands for. */
  function End(p: seq<nat>, j: nat, n: nat): nat { if j + 1 < |p| then p[j + 1] else n }

  /** Element `j` of `r` is the one of `s` at `p[j]`; it differs from the one before, and all elements up to the next
      place compare equal to it. */
  ghost predicate RunAt<T(!new)>(cmp: (T, T) -> int, s: seq<T>, p: seq<nat>, r: seq<T>, j: nat)
    requires j < |p| == |r|
  {
    && p[j] < End(p, j, |s|) <= |s| && r[j] == s[p[j]]
    && (0 < j ==> p[j - 1] < p[j] && cmp(s[p[j - 1]], s[p[j]]) != 0)
    && forall i :: p[j] < i < End(p, j, |s|) ==> cmp(s[p[j]], s[i]) == 0
  }

  ghost predicate Runs<T(!new)>(cmp: (T, T) -> int, s: seq<T>, p: seq<nat>, r: seq<T>) {
    |p| == |r| && forall j :: 0 <= j < |p| ==> RunAt(cmp, s, p, r, j)
  }

  /** Of any sequence the first element of every run of equal ones is kept, and nothing else. */
  lemma KeepsFirsts<T(!new)>(cmp: (T, T) -> int, s: seq<T>) returns (p: seq<nat>)
    requires s != []
    ensures p != [] && p[0] == 0 && Runs(cmp, s, p, Unique(cmp, s))
  {
    p := KeepsFrom(cmp, s, 0, 1);
  }

  lemma {:induction false} KeepsFrom<T(!new)>(cmp: (T, T) -> int, s: seq<T>, a: nat, n: nat) returns (p: seq<nat>)
    requires a < n <= |s| && forall i :: a < i < n ==> cmp(s[a], s[i]) == 0
    ensures p != [] && p[0] == a && Runs(cmp, s, p, [s[a]] + Kept(cmp, s[a], s[n..]))
    decreases |s| - n
  {
    if n == |s| {
      p := [a];
    } else {
      assert s[n..][0] == s[n] && s[n..][1..] == s[n + 1..];
      if cmp(s[a], s[n]) != 0 {
        var q := KeepsFrom(cmp, s, n, n + 1);
        p := [a] + q;
        OneMoreRun(cmp, s, a, q, [s[n]] + Kept(cmp, s[n], s[n + 1..]));
      } else {
        p := KeepsFrom(cmp, s, a, n + 1);
      }
    }
  }

  lemma OneMoreRun<T(!new)>(cmp: (T, T) -> int, s: seq<T>, a: nat, q: seq<nat>, r: seq<T>)
    requires q != [] && a < q[0] < |s| && Runs(cmp, s, q, r) && cmp(s[a], s[q[0]]) != 0
    requires forall i :: a < i < q[0] ==> cmp(s[a], s[i]) == 0
    ensures Runs(cmp, s, [a] + q, [s[a]] + r)
  {
    var p := [a] + q;
    forall j | 0 <= j < |p|
      ensures RunAt(cmp, s, p, [s[a]] + r, j)
    {
      if j > 0 {
        assert p[j] == q[j - 1] && End(p, j, |s|) == End(q, j - 1, |s|) && ([s[a]] + r)[j] == r[j - 1];
        assert RunAt(cmp, s, q, r, j - 1);
        if j > 1 { assert p[j - 1] == q[j - 2]; }
      }
    }
  }

  ghost predicate Sorted<T(!new)>(cmp: (T, T) -> int, s: seq<T>) {
    forall i, j :: 0 <= i < j < |s| ==> cmp(s[i], s[j]) <= 0
  }

  ghost predicate Increasing<T(!new)>(cmp: (T, T) -> int, s: seq<T>) {
    forall i, j :: 0 <= i < j < |s| ==> cmp(s[i], s[j]) < 0
  }

  /** A comparison that tells all values apart, with opposite signs for swapped arguments. */
  ghost predicate Orders<T(!new)>(cmp: (T, T) -> int) {
    && (forall a, b :: cmp(a, b) == 0 <==> a == b)
    && (forall a, b :: cmp(a, b) < 0 <==> cmp(b, a) > 0)
  }

  /** Of a sorted sequence every value is kept, once, in increasing order. */
  lemma {:induction false} SortedIsSet<T(!new)>(cmp: (T, T) -> int, s: seq<T>)
    requires Orders(cmp) && Sorted(cmp, s) && s != []
    ensures forall x :: x in Unique(cmp, s) <==> x in s
    ensures Increasing(cmp, Unique(cmp, s))
    decreases |s|
  {
    if |s| > 1 {
      SortedIsSet(cmp, s[1..]);
      UniqueStep(cmp, s);
      hide Kept, Unique;
      assert forall x :: x in s <==> x == s[0] || x in s[1..];
      if s[0] != s[1] {
        forall x | x in Unique(cmp, s[1..])
          ensures cmp(s[0], x) < 0
        {
          AboveFirst(cmp, s, x);
        }
      }
    }
  }

  lemma UniqueStep<T(!new)>(cmp: (T, T) -> int, s: seq<T>)
    requires |s| > 1 && (cmp(s[0], s[1]) == 0 <==> s[0] == s[1])
    ensures Unique(cmp, s) == if s[0] == s[1] then Unique(cmp, s[1..]) else [s[0]] + Unique(cmp, s[1..])
  {
  }

  /** No value comes back after a different one. */
  lemma AboveFirst<T(!new)>(cmp: (T, T) -> int, s: seq<T>, x: T)
    requires Orders(cmp) && Sorted(cmp, s) && |s| > 1 && s[0] != s[1] && x in s[1..]
    ensures cmp(s[0], x) < 0
  {
    var i :| 0 <= i < |s| - 1 && s[1..][i] == x;
    assert s[i + 1] == x;
    assert cmp(s[0], s[1]) < 0;
    assert i > 0 ==> cmp(s[1], s[i + 1]) <= 0;
  }
}
