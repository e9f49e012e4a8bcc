/** cldm_avx2_memswp: exchanges two disjoint buffers with overlapping head and tail windows. */
module MemSwap {
  import opened Memory
  import opened MemCopy

  /** Exchanged in the index range [lo, hi), the same elsewhere. */
  twostate predicate Swapped(a: array<Byte>, b: array<Byte>, lo: int, hi: int)
    reads a, b
  {
    && (forall i :: 0 <= i < a.Length && i < b.Length ==>
        && a[i] == (if lo <= i < hi then old(b[i]) else old(a[i]))
        && b[i] == (if lo <= i < hi then old(a[i]) else old(b[i])))
    && (forall i :: b.Length <= i < a.Length ==> a[i] == old(a[i]))
    && (forall i :: a.Length <= i < b.Length ==> b[i] == old(b[i]))
  }

  /** One exchange of `k` bytes at `off`: both loads come before both stores. */
  method Swap(a: array<Byte>, b: array<Byte>, off: nat, k: nat)
    requires a != b && off + k <= a.Length && off + k <= b.Length
    modifies a, b
    ensures Swapped(a, b, off, off + k)
  {
    var x, y := a[off..off + k], b[off..off + k];
    Store(a, off, y);
    Store(b, off, x);
  }

  /** `words` exchanges of 32 bytes; the first buffer is accessed aligned. */
  method SwapWords(a: array<Byte>, base: nat, b: array<Byte>, off: nat, words: nat)
    requires a != b && OnBlock(base, off) && off + 32 * words <= a.Length && off + 32 * words <= b.Length
    modifies a, b
    ensures Swapped(a, b, off, off + 32 * words)
  {
    for j := 0 to words
      invariant Swapped(a, b, off, off + 32 * j)
    {
      AlignedPlus(base, off, j);
      SwapAligned(a, base, b, off + 32 * j, 32);
    }
  }

  method SwapAligned(a: array<Byte>, base: nat, b: array<Byte>, off: nat, k: nat)
    requires a != b && k > 0 && (base + off) % k == 0 && off + k <= a.Length && off + k <= b.Length
    modifies a, b
    ensures Swapped(a, b, off, off + k)
  {
    var x, y := a[off..off + k], b[off..off + k];
    StoreAligned(a, base, off, y);
    Store(b, off, x);
  }

  /** Exchanges [lo, n): a window of `k` bytes at `lo` and one that ends at `n`. The second window is loaded
      before the first is stored, so bytes in both are exchanged once. */
  method SwapEnds(a: array<Byte>, b: array<Byte>, lo: nat, n: nat, k: nat)
    requires a != b && lo + k <= n <= lo + 2 * k && n <= a.Length && n <= b.Length
    modifies a, b
    ensures Swapped(a, b, lo, n)
  {
    var x0, x1 := a[lo..lo + k], b[lo..lo + k];
    var x2, x3 := a[n - k..n], b[n - k..n];
    Store(a, lo, x1);
    Store(b, lo, x0);
    if n == lo + k {
      return;
    }
    Store(a, n - k, x3);
    Store(b, n - k, x2);
  }

  /** The same, with the first window of the first buffer accessed aligned. */
  method SwapEndsAligned(a: array<Byte>, base: nat, b: array<Byte>, lo: nat, n: nat, k: nat)
    requires a != b && lo + k <= n <= lo + 2 * k && n <= a.Length && n <= b.Length
    requires k > 0 && (base + lo) % k == 0
    modifies a, b
    ensures Swapped(a, b, lo, n)
  {
    SwapEnds(a, b, lo, n, k);
  }

  /** cldm_avx2_memswp: for n = 0 it still exchanges one byte. */
  method Memswp(a: array<Byte>, base: nat, b: array<Byte>, n: nat)
    requires a != b && Max(n, 1) <= a.Length && Max(n, 1) <= b.Length
    modifies a, b
    ensures a[..] == Over(old(a[..]), old(b[..]), Max(n, 1)) && b[..] == Over(old(b[..]), old(a[..]), Max(n, 1))
  {
    ghost var x, y := a[..], b[..];
    Exchange(a, base, b, n);
    assert a[..] == Over(x, y, Max(n, 1));
    assert b[..] == Over(y, x, Max(n, 1));
  }

  /** The body of cldm_avx2_memswp. */
  method Exchange(a: array<Byte>, base: nat, b: array<Byte>, n: nat)
    requires a != b && Max(n, 1) <= a.Length && Max(n, 1) <= b.Length
    modifies a, b
    ensures Swapped(a, b, 0, Max(n, 1))
  {
    var rax := NextAligned(base);
    if n <= rax + 0x20 {
      MemswpUnaligned(a, b, n);
      return;
    }
    hide OnBlock;
    SwapHead(a, base, b, rax);
    AlignedPlus(base, rax, 5);
    rax := rax + 0xa0;
    while n >= rax
      invariant OnBlock(base, rax) && 0xa0 < rax && rax - 0x80 < n
      invariant Swapped(a, b, 0, rax - 0x80)
      decreases n - rax
    {
      AlignedPlus(base, rax, -4);
      AlignedPlus(base, rax, 4);
      SwapWords(a, base, b, rax - 0x80, 4);
      if n == rax {
        return;
      }
      rax := rax + 0x80;
    }
    MemswpTail(a, base, b, n, rax);
  }

  /** The first 32 bytes unaligned and the next aligned 32, which overlap unless the buffer was aligned. */
  method SwapHead(a: array<Byte>, base: nat, b: array<Byte>, rax: nat)
    requires a != b && 1 <= rax <= 32 && OnBlock(base, rax) && rax + 0x20 <= a.Length && rax + 0x20 <= b.Length
    modifies a, b
    ensures Swapped(a, b, 0, rax + 0x20)
  {
    var x0, x1 := a[..0x20], b[..0x20];
    var x2, x3 := a[rax..rax + 0x20], b[rax..rax + 0x20];
    Store(a, 0, x1);
    Store(b, 0, x0);
    StoreAligned(a, base, rax, x3);
    Store(b, rax, x2);
  }

  /** The ladder below a full block of 128 bytes: [lo, n) with lo = rax0 - 0x80 is still to be exchanged. */
  method MemswpTail(a: array<Byte>, base: nat, b: array<Byte>, n: nat, rax0: nat)
    requires a != b && n <= a.Length && n <= b.Length
    requires OnBlock(base, rax0) && 0xa0 < rax0 && rax0 - 0x80 < n < rax0
    modifies a, b
    ensures Swapped(a, b, rax0 - 0x80, n)
  {
    hide OnBlock;
    AlignedPlus(base, rax0, -4);
    AlignedPlus(base, rax0, -2);
    var rax := rax0 - 0x40;
    if n >= rax {
      SwapWords(a, base, b, rax - 0x40, 2);
      if n == rax { return; }
      rax := rax + 0x40;
    }
    AlignedPlus(base, rax, -2);
    MemswpLast(a, base, b, n, rax);
  }

  /** Fewer than 64 bytes from rax0 - 0x40 on. */
  method MemswpLast(a: array<Byte>, base: nat, b: array<Byte>, n: nat, rax0: nat)
    requires a != b && n <= a.Length && n <= b.Length
    requires 0x40 <= rax0 && OnBlock(base, rax0 - 0x40) && rax0 - 0x40 < n < rax0
    modifies a, b
    ensures Swapped(a, b, rax0 - 0x40, n)
  {
    var rax := rax0;
    HalfBlock(base, rax - 0x40);
    hide OnBlock;
    rax := rax - 0x20;
    if n >= rax {
      SwapEndsAligned(a, base, b, rax - 0x20, n, 0x20);
      return;
    }
    rax := rax - 0x10;
    if n >= rax {
      SwapEndsAligned(a, base, b, rax - 0x10, n, 0x10);
      return;
    }
    rax := rax - 0x08;
    if n >= rax {
      SwapEnds(a, b, rax - 0x08, n, 0x08);
      return;
    }
    rax := rax - 0x04;
    if n >= rax {
      SwapEnds(a, b, rax - 0x04, n, 0x04);
      return;
    }
    rax := rax - 0x02;
    if n >= rax {
      Swap(a, b, rax - 0x02, 1);
      Swap(a, b, rax - 0x01, 1);
      if n == rax { return; }
      rax := rax + 0x02;
    }
    rax := rax - 0x01;
    Swap(a, b, rax - 0x01, 1);
  }

  lemma HalfBlock(base: nat, off: nat)
    requires OnBlock(base, off)
    ensures (base + off) % 0x20 == 0 && (base + off) % 0x10 == 0
  {
  }

  method MemswpUnaligned(a: array<Byte>, b: array<Byte>, n: nat)
    requires a != b && n <= 0x40 && Max(n, 1) <= a.Length && Max(n, 1) <= b.Length
    modifies a, b
    ensures Swapped(a, b, 0, Max(n, 1))
  {
    if n >= 0x20 {
      SwapEnds(a, b, 0, n, 0x20);
    } else if n >= 0x10 {
      SwapEnds(a, b, 0, n, 0x10);
    } else if n >= 0x08 {
      SwapEnds(a, b, 0, n, 0x08);
    } else if n >= 0x04 {
      SwapEnds(a, b, 0, n, 0x04);
    } else {
      var rax := 0;
      if n >= 0x02 {
        Swap(a, b, 0, 1);
        Swap(a, b, 1, 1);
        if n == 0x02 { return; }
        rax := rax + 0x02;
      }
      Swap(a, b, rax, 1);
    }
  }

  /** Exactly the first n bytes are exchanged unless n is zero and the one byte exchanged anyway differs. */
  lemma MemswpIsExact(a: seq<Byte>, b: seq<Byte>, n: nat)
    requires Max(n, 1) <= |a| && Max(n, 1) <= |b|
    ensures (Over(a, b, Max(n, 1)) == Over(a, b, n) && Over(b, a, Max(n, 1)) == Over(b, a, n)) <==> n > 0 || a[0] == b[0]
  {
    MemcpyIsScalar(a, b, n);
    MemcpyIsScalar(b, a, n);
  }
}
