/** cldm_avx2_memcmp: the difference of the first two bytes that differ. */
module MemCompare {
  import opened Memory

  /** The difference at the first index from `lo` on where the areas differ; 0 if there is none. */
  function Difference(a: seq<Byte>, b: seq<Byte>, lo: nat): int
    requires lo <= |a| == |b|
    decreases |a| - lo
  { if lo == |a| then 0 else if a[lo] != b[lo] then a[lo] - b[lo] else Difference(a, b, lo + 1) }

  predicate SameBelow(a: seq<Byte>, b: seq<Byte>, k: nat)
    requires k <= |a| == |b|
  { forall i :: 0 <= i < k ==> a[i] == b[i] }

  lemma {:induction false} DifferenceFrom(a: seq<Byte>, b: seq<Byte>, lo: nat, k: nat)
    requires lo <= k <= |a| == |b| && SameBelow(a, b, k)
    ensures Difference(a, b, lo) == Difference(a, b, k)
    decreases k - lo
  {
    if lo < k { DifferenceFrom(a, b, lo + 1, k); }
  }

  /** The sign decides the lexicographic order, and zero means equal. */
  lemma {:induction false} DifferenceMeans(a: seq<Byte>, b: seq<Byte>, lo: nat)
    requires lo <= |a| == |b|
    ensures Difference(a, b, lo) == 0 <==> a[lo..] == b[lo..]
    ensures Difference(a, b, lo) < 0 <==> exists k :: lo <= k < |a| && a[lo..k] == b[lo..k] && a[k] < b[k]
    ensures Difference(b, a, lo) == -Difference(a, b, lo)
    decreases |a| - lo
  {
    if lo < |a| {
      DifferenceMeans(a, b, lo + 1);
      assert a[lo..] == [a[lo]] + a[lo + 1..] && b[lo..] == [b[lo]] + b[lo + 1..];
      if a[lo] != b[lo] {
        assert a[lo..][0] != b[lo..][0];
        forall k | lo < k < |a|
          ensures a[lo..k] != b[lo..k]
        {
          assert a[lo..k][0] != b[lo..k][0];
        }
        assert a[lo..lo] == b[lo..lo];
      } else {
        forall k | lo < k < |a|
          ensures a[lo..k] == b[lo..k] <==> a[lo + 1..k] == b[lo + 1..k]
        {
          assert a[lo..k] == [a[lo]] + a[lo + 1..k] && b[lo..k] == [b[lo]] + b[lo + 1..k];
        }
      }
    }
  }

  /** vpcmpeqb: which lanes of two registers agree. */
  function Lanes(x: seq<Byte>, y: seq<Byte>): (m: seq<bool>)
    requires |x| == |y|
    ensures |m| == |x| && forall i :: 0 <= i < |x| ==> m[i] == (x[i] == y[i])
  { seq(|x|, i requires 0 <= i < |x| => x[i] == y[i]) }

  predicate AllSet(m: seq<bool>) { forall i :: 0 <= i < |m| ==> m[i] }

  /** vpmovmskb, not, tzcnt: the index of the first lane that is not set. */
  function FirstClear(m: seq<bool>): (i: nat)
    requires !AllSet(m)
    ensures i < |m| && !m[i] && forall j :: 0 <= j < i ==> m[j]
  { if !m[0] then 0 else
      assert !AllSet(m[1..]) by { assert forall i :: 0 < i < |m| ==> m[i] == m[1..][i - 1]; }
      1 + FirstClear(m[1..]) }

  /** Compares `k` bytes at `off`; the loads stay inside both areas. */
  method CompareAt(a: seq<Byte>, b: seq<Byte>, off: nat, k: nat) returns (m: seq<bool>)
    requires off + k <= |a| == |b|
    ensures |m| == k && forall i :: 0 <= i < k ==> m[i] == (a[off + i] == b[off + i])
  {
    m := Lanes(a[off..off + k], b[off..off + k]);
  }

  /** The same with an aligned load from the first area. */
  method CompareAligned(a: seq<Byte>, base: nat, b: seq<Byte>, off: nat) returns (m: seq<bool>)
    requires off + 32 <= |a| == |b| && OnBlock(base, off)
    ensures |m| == 32 && forall i :: 0 <= i < 32 ==> m[i] == (a[off + i] == b[off + i])
  {
    m := CompareAt(a, b, off, 32);
  }

  /** The return value once a window is known to hold the first difference. */
  method Located(a: seq<Byte>, b: seq<Byte>, off: nat, m: seq<bool>) returns (eax: int)
    requires off + |m| <= |a| == |b| && (forall i :: 0 <= i < |m| ==> m[i] == (a[off + i] == b[off + i]))
    requires !AllSet(m) && SameBelow(a, b, off)
    ensures eax == Difference(a, b, 0)
  {
    var l := FirstClear(m);
    var i := off + l;
    WindowSame(a, b, off, m, l);
    DifferenceFrom(a, b, 0, i);
    var x: int, y: int := a[i], b[i];
    eax := x - y;
  }

  lemma WindowSame(a: seq<Byte>, b: seq<Byte>, off: nat, m: seq<bool>, k: nat)
    requires off + |m| <= |a| == |b| && (forall i :: 0 <= i < |m| ==> m[i] == (a[off + i] == b[off + i]))
    requires k <= |m| && (forall i :: 0 <= i < k ==> m[i])
    requires SameBelow(a, b, off)
    ensures SameBelow(a, b, off + k)
  {
    forall i | 0 <= i < off + k
      ensures a[i] == b[i]
    {
      if i >= off { assert m[i - off]; }
    }
  }

  predicate BlockMasks(a: seq<Byte>, b: seq<Byte>, off: nat, masks: seq<seq<bool>>)
    requires off + 32 * |masks| <= |a| == |b|
  {
    forall j :: 0 <= j < |masks| ==>
      |masks[j]| == 32 && forall i :: 0 <= i < 32 ==> masks[j][i] == (a[off + 32 * j + i] == b[off + 32 * j + i])
  }

  /** Compares `words` times 32 bytes and reduces the results to one carry flag. */
  method CompareBlock(a: seq<Byte>, base: nat, b: seq<Byte>, off: nat, words: nat)
    returns (equal: bool, masks: seq<seq<bool>>)
    requires off + 32 * words <= |a| == |b| && OnBlock(base, off)
    ensures |masks| == words && BlockMasks(a, b, off, masks)
    ensures equal <==> forall j :: 0 <= j < words ==> AllSet(masks[j])
  {
    masks, equal := [], true;
    for j := 0 to words
      invariant |masks| == j && BlockMasks(a, b, off, masks)
      invariant equal <==> forall i :: 0 <= i < j ==> AllSet(masks[i])
    {
      AlignedPlus(base, off, j);
      var m := CompareAligned(a, base, b, off + 32 * j);
      ghost var before := masks;
      masks := masks + [m];
      equal := equal && AllSet(m);
      assert masks[j] == m && forall i :: 0 <= i < j ==> masks[i] == before[i];
    }
  }

  lemma BlockSame(a: seq<Byte>, b: seq<Byte>, off: nat, masks: seq<seq<bool>>, k: nat)
    requires off + 32 * |masks| <= |a| == |b| && BlockMasks(a, b, off, masks) && k <= |masks|
    requires SameBelow(a, b, off) && forall j :: 0 <= j < k ==> AllSet(masks[j])
    ensures SameBelow(a, b, off + 32 * k)
  {
    forall i | off <= i < off + 32 * k
      ensures a[i] == b[i]
    {
      var j, l := (i - off) / 32, (i - off) % 32;
      assert i == off + 32 * j + l && AllSet(masks[j]) && masks[j][l];
    }
  }

  /** Which window differs first: the offset advances past each equal window and stops for good at the first
      one that differs; that window is loaded again. */
  method BlockDiff(a: seq<Byte>, base: nat, b: seq<Byte>, off: nat, masks: seq<seq<bool>>) returns (eax: int)
    requires off + 32 * |masks| <= |a| == |b| && BlockMasks(a, b, off, masks) && OnBlock(base, off)
    requires SameBelow(a, b, off) && exists j :: 0 <= j < |masks| && !AllSet(masks[j])
    ensures eax == Difference(a, b, 0)
  {
    var rcx := off;
    var r8 := 0x20;
    ghost var w := 0;
    ghost var d :| 0 <= d < |masks| && !AllSet(masks[d]);
    for j := 0 to |masks| - 1
      invariant r8 == 0x20 || r8 == 0
      invariant w < |masks| && rcx == off + 32 * w
      invariant forall i :: 0 <= i < w ==> AllSet(masks[i])
      invariant if r8 == 0x20 then w == j else w < j && !AllSet(masks[w])
    {
      if !AllSet(masks[j]) {
        r8 := 0;
      }
      rcx := rcx + r8;
      if r8 == 0x20 { w := w + 1; }
    }
    assert r8 == 0x20 ==> d == w;
    BlockSame(a, b, off, masks, w);
    AlignedPlus(base, off, w);
    var m := CompareAligned(a, base, b, rcx);
    assert m == masks[w];
    eax := Located(a, b, rcx, m);
  }

  /** cldm_avx2_memcmp for areas of n = |a| = |b| bytes: no load leaves them. */
  method Memcmp(a: seq<Byte>, base: nat, b: seq<Byte>) returns (eax: int)
    requires |a| == |b|
    ensures eax == Difference(a, b, 0)
  {
    var n := |a|;
    if n < 0x20 {
      eax := MemcmpShort(a, b);
      return;
    }
    if n == 0x20 {
      var m := CompareAt(a, b, 0, 0x20);
      if AllSet(m) {
        WindowSame(a, b, 0, m, 0x20);
        DifferenceFrom(a, b, 0, 0x20);
        return 0;
      }
      eax := Located(a, b, 0, m);
      return;
    }
    var rcx := 0x20;
    if base % 32 != 0 {
      var m := CompareAt(a, b, 0, 0x20);
      if !AllSet(m) {
        eax := Located(a, b, 0, m);
        return;
      }
      WindowSame(a, b, 0, m, 0x20);
      rcx := (base + rcx + 0x20) / 32 * 32 - base;
    }
    rcx := rcx + 0xe0;
    while n >= rcx
      invariant 0x100 <= rcx && rcx - 0x100 <= n && OnBlock(base, rcx) && SameBelow(a, b, rcx - 0x100)
      decreases n - rcx
    {
      var done;
      done, eax := Rung(a, base, b, rcx - 0x100, 8);
      if done {
        return;
      }
      rcx := rcx + 0x100;
    }
    eax := MemcmpTail(a, base, b, rcx);
  }

  /** One rung of the ladder: a block of `words` windows. It ends the comparison if the block differs or
      nothing is left. */
  method Rung(a: seq<Byte>, base: nat, b: seq<Byte>, off: nat, words: nat) returns (done: bool, eax: int)
    requires off + 32 * words <= |a| == |b| && OnBlock(base, off) && SameBelow(a, b, off)
    ensures done ==> eax == Difference(a, b, 0)
    ensures !done ==> off + 32 * words < |a| && SameBelow(a, b, off + 32 * words)
  {
    var equal, masks := CompareBlock(a, base, b, off, words);
    if !equal {
      eax := BlockDiff(a, base, b, off, masks);
      return true, eax;
    }
    BlockSame(a, b, off, masks, words);
    if |a| == off + 32 * words {
      DifferenceFrom(a, b, 0, |a|);
      return true, 0;
    }
    return false, 0;
  }

  /** The ladder below a full block; the last window ends at n and overlaps what was compared before. */
  method MemcmpTail(a: seq<Byte>, base: nat, b: seq<Byte>, rcx0: nat) returns (eax: int)
    requires |a| == |b| && |a| > 0x20 && 0x100 <= rcx0 && rcx0 - 0x100 <= |a| < rcx0 && OnBlock(base, rcx0)
    requires SameBelow(a, b, rcx0 - 0x100)
    ensures eax == Difference(a, b, 0)
  {
    var n, done := |a|, false;
    hide OnBlock, Difference, SameBelow;
    AlignedPlus(base, rcx0, -4);
    AlignedPlus(base, rcx0, -8);
    var rcx := rcx0 - 0x80;
    if n >= rcx {
      done, eax := Rung(a, base, b, rcx - 0x80, 4);
      if done { return; }
      rcx := rcx + 0x80;
    }
    AlignedPlus(base, rcx, -2);
    AlignedPlus(base, rcx, -4);
    rcx := rcx - 0x40;
    if n >= rcx {
      done, eax := Rung(a, base, b, rcx - 0x40, 2);
      if done { return; }
      rcx := rcx + 0x40;
    }
    AlignedPlus(base, rcx, -1);
    AlignedPlus(base, rcx, -2);
    rcx := rcx - 0x20;
    if n >= rcx {
      done, eax := Rung(a, base, b, rcx - 0x20, 1);
      if done { return; }
      rcx := rcx + 0x20;
    }
    eax := LastWindow(a, b, rcx - 0x20);
  }

  /** The window that ends at n; the first `k` bytes are known to be the same. */
  method LastWindow(a: seq<Byte>, b: seq<Byte>, ghost k: nat) returns (eax: int)
    requires k <= |a| == |b| && 0x20 <= |a| <= k + 0x20 && SameBelow(a, b, k)
    ensures eax == Difference(a, b, 0)
  {
    var n := |a|;
    var m := CompareAt(a, b, n - 0x20, 0x20);
    if AllSet(m) {
      WindowSame(a, b, n - 0x20, m, 0x20);
      DifferenceFrom(a, b, 0, n);
      return 0;
    }
    eax := Located(a, b, n - 0x20, m);
  }

  /** Fewer than 32 bytes: 16 at once if there are as many, then byte by byte with an index that runs from
      -n to 0. */
  method MemcmpShort(a: seq<Byte>, b: seq<Byte>) returns (eax: int)
    requires |a| == |b| && |a| < 0x20
    ensures eax == Difference(a, b, 0)
  {
    var n := |a|;
    var r8 := 0;
    if n >= 0x10 {
      var m := CompareAt(a, b, 0, 0x10);
      r8 := r8 + 0x10;
      if !AllSet(m) {
        eax := Located(a, b, 0, m);
        return;
      }
      WindowSame(a, b, 0, m, 0x10);
    }
    if n == r8 {
      DifferenceFrom(a, b, 0, n);
      return 0;
    }
    var rdx := -n;
    eax := 0;
    while true
      invariant -n <= rdx < 0 && SameBelow(a, b, n + rdx)
      decreases -rdx
    {
      DifferenceFrom(a, b, 0, n + rdx);
      var x: int, y: int := a[n + rdx], b[n + rdx];
      eax := x - y;
      if eax != 0 {
        rdx := -1;
      } else {
        assert SameBelow(a, b, n + rdx + 1);
      }
      rdx := rdx + 1;
      if rdx == 0 {
        if eax == 0 { DifferenceFrom(a, b, 0, n); }
        return;
      }
    }
  }
}
