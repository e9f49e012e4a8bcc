/** cldm_avx2_memcpy and cldm_avx2_memset against the byte loops of cldm_byteseq.c. */
module MemCopy {
  import opened Memory

  /** The portable cldm_memcpy. */
  method ScalarMemcpy(dst: array<Byte>, src: array<Byte>, n: nat)
    requires dst != src && n <= dst.Length && n <= src.Length
    modifies dst
    ensures dst[..] == Over(old(dst[..]), src[..], n)
  {
    for i := 0 to n
      invariant forall j :: 0 <= j < dst.Length ==> dst[j] == if j < i then src[j] else old(dst[j])
    {
      dst[i] := src[i];
    }
  }

  /** dst holds src below `k` and its old bytes from `n` on; what lies between is still to be written. */
  twostate predicate Progress(dst: array<Byte>, src: array<Byte>, k: int, n: nat)
    requires n <= src.Length
    reads dst, src
  {
    && (forall i :: 0 <= i < k && i < n && i < dst.Length ==> dst[i] == src[i])
    && (forall i :: n <= i < dst.Length ==> dst[i] == old(dst[i]))
  }

  /** `words` unrolled 32-byte copies starting at `off`; the stores are aligned. */
  method MoveWords(dst: array<Byte>, base: nat, src: array<Byte>, off: nat, words: nat)
    requires dst != src && OnBlock(base, off)
    requires off + 32 * words <= dst.Length && off + 32 * words <= src.Length
    modifies dst
    ensures forall i :: 0 <= i < dst.Length ==> dst[i] == if off <= i < off + 32 * words then src[i] else old(dst[i])
  {
    for j := 0 to words
      invariant forall i :: 0 <= i < dst.Length ==> dst[i] == if off <= i < off + 32 * j then src[i] else old(dst[i])
    {
      AlignedPlus(base, off, j);
      StoreAligned(dst, base, off + 32 * j, src[off + 32 * j..off + 32 * j + 32]);
    }
  }

  /** One unaligned copy of `k` bytes. */
  method Move(dst: array<Byte>, src: array<Byte>, off: nat, k: nat)
    requires dst != src && off + k <= dst.Length && off + k <= src.Length
    modifies dst
    ensures forall i :: 0 <= i < dst.Length ==> dst[i] == if off <= i < off + k then src[i] else old(dst[i])
  {
    Store(dst, off, src[off..off + k]);
  }

  /** The head and tail of a short copy: two moves of `k` bytes that may overlap. */
  method MoveEnds(dst: array<Byte>, src: array<Byte>, n: nat, k: nat)
    requires dst != src && k <= n <= 2 * k && n <= dst.Length && n <= src.Length
    modifies dst
    ensures forall i :: 0 <= i < dst.Length ==> dst[i] == if i < n then src[i] else old(dst[i])
  {
    Move(dst, src, 0, k);
    if n == k {
      return;
    }
    Move(dst, src, n - k, k);
  }

  /** cldm_avx2_memcpy: for n = 0 it still copies one byte. */
  method Memcpy(dst: array<Byte>, base: nat, src: array<Byte>, n: nat)
    requires dst != src && Max(n, 1) <= dst.Length && Max(n, 1) <= src.Length
    modifies dst
    ensures dst[..] == Over(old(dst[..]), src[..], Max(n, 1))
  {
    if n < 0x20 {
      MemcpyShort(dst, src, n);
      return;
    }
    if n == 0x20 {
      Move(dst, src, 0, 0x20);
      return;
    }
    Move(dst, src, 0, 0x20);
    hide OnBlock;
    AlignedPlus(base, NextAligned(base), 8);
    var rcx := NextAligned(base) + 0x100;
    while n >= rcx
      invariant 0x100 < rcx && OnBlock(base, rcx) && rcx - 0x100 <= n
      invariant Progress(dst, src, rcx - 0x100, n)
      decreases n - rcx
    {
      AlignedPlus(base, rcx, -8);
      AlignedPlus(base, rcx, 8);
      MoveWords(dst, base, src, rcx - 0x100, 8);
      if n == rcx {
        return;
      }
      rcx := rcx + 0x100;
    }
    MemcpyTail(dst, base, src, n, rcx);
  }

  /** The ladder of 128, 64 and 32 bytes below a full block, ending with an unaligned move of the last 32. */
  method MemcpyTail(dst: array<Byte>, base: nat, src: array<Byte>, n: nat, rcx0: nat)
    requires dst != src && 0x20 < n <= dst.Length && n <= src.Length
    requires 0x100 < rcx0 && OnBlock(base, rcx0) && rcx0 - 0x100 <= n < rcx0
    requires forall i :: 0 <= i < rcx0 - 0x100 ==> dst[i] == src[i]
    modifies dst
    ensures forall i :: 0 <= i < dst.Length ==> dst[i] == if i < n then src[i] else old(dst[i])
  {
    hide OnBlock;
    AlignedPlus(base, rcx0, -4);
    AlignedPlus(base, rcx0, -8);
    var rcx := rcx0 - 0x80;
    if n >= rcx {
      MoveWords(dst, base, src, rcx - 0x80, 4);
      if n <= rcx { return; }
      rcx := rcx + 0x80;
    }
    AlignedPlus(base, rcx, -2);
    AlignedPlus(base, rcx, -4);
    rcx := rcx - 0x40;
    if n >= rcx {
      MoveWords(dst, base, src, rcx - 0x40, 2);
      if n <= rcx { return; }
      rcx := rcx + 0x40;
    }
    AlignedPlus(base, rcx, -1);
    AlignedPlus(base, rcx, -2);
    rcx := rcx - 0x20;
    if n >= rcx {
      MoveWords(dst, base, src, rcx - 0x20, 1);
      if n <= rcx { return; }
      rcx := rcx + 0x20;
    }
    var r8 := rcx - 0x20;
    rcx := rcx - n;
    r8 := r8 - rcx;
    Move(dst, src, r8, 0x20);
  }

  /** Fewer than 32 bytes. */
  method MemcpyShort(dst: array<Byte>, src: array<Byte>, n: nat)
    requires dst != src && n < 0x20 && Max(n, 1) <= dst.Length && Max(n, 1) <= src.Length
    modifies dst
    ensures forall i :: 0 <= i < dst.Length ==> dst[i] == if i < Max(n, 1) then src[i] else old(dst[i])
  {
    var rcx := 0;
    if n >= 0x10 {
      MoveEnds(dst, src, n, 0x10);
    } else if n >= 0x08 {
      MoveEnds(dst, src, n, 0x08);
    } else if n >= 0x04 {
      MoveEnds(dst, src, n, 0x04);
    } else {
      if n >= 0x02 {
        dst[0] := src[0];
        dst[1] := src[1];
        if n == 0x02 { return; }
        rcx := rcx + 0x02;
      }
      dst[rcx] := src[rcx];
    }
  }

  /** The vector copy does what the byte loop does, exactly when there is a byte to copy or the one byte it
      copies anyway is already in place. */
  lemma MemcpyIsScalar(d: seq<Byte>, s: seq<Byte>, n: nat)
    requires Max(n, 1) <= |d| && Max(n, 1) <= |s|
    ensures Over(d, s, Max(n, 1)) == Over(d, s, n) <==> n > 0 || d[0] == s[0]
  {
    if n == 0 {
      assert Over(d, s, 0) == d;
      assert Over(d, s, 1)[0] == s[0];
      if d[0] == s[0] { assert Over(d, s, 1) == d; }
    }
  }

  // ---------------------------------------------------------------- memset

  /** `d` with its first `n` bytes set. */
  function Filled(d: seq<Byte>, b: Byte, n: nat): seq<Byte>
    requires n <= |d|
  { seq(n, _ => b) + d[n..] }

  /** The portable cldm_memset. */
  method ScalarMemset(dst: array<Byte>, v: int, n: nat)
    requires n <= dst.Length
    modifies dst
    ensures dst[..] == Filled(old(dst[..]), v % 256, n)
  {
    for i := 0 to n
      invariant forall j :: 0 <= j < dst.Length ==> dst[j] == if j < i then v % 256 else old(dst[j])
    {
      dst[i] := v % 256;
    }
  }

  method FillWords(dst: array<Byte>, base: nat, b: Byte, off: nat, words: nat)
    requires OnBlock(base, off) && off + 32 * words <= dst.Length
    modifies dst
    ensures forall i :: 0 <= i < dst.Length ==> dst[i] == if off <= i < off + 32 * words then b else old(dst[i])
  {
    for j := 0 to words
      invariant forall i :: 0 <= i < dst.Length ==> dst[i] == if off <= i < off + 32 * j then b else old(dst[i])
    {
      AlignedPlus(base, off, j);
      StoreAligned(dst, base, off + 32 * j, seq(32, _ => b));
    }
  }

  method FillEnds(dst: array<Byte>, b: Byte, n: nat, k: nat)
    requires k <= n <= 2 * k && n <= dst.Length
    modifies dst
    ensures forall i :: 0 <= i < dst.Length ==> dst[i] == if i < n then b else old(dst[i])
  {
    Store(dst, 0, seq(k, _ => b));
    if n == k {
      return;
    }
    Store(dst, n - k, seq(k, _ => b));
  }

  /** cldm_avx2_memset: for n = 0 it still sets one byte. */
  method Memset(dst: array<Byte>, base: nat, v: int, n: nat)
    requires Max(n, 1) <= dst.Length
    modifies dst
    ensures dst[..] == Filled(old(dst[..]), v % 256, Max(n, 1))
  {
    var b: Byte := v % 256;
    if n < 0x20 {
      MemsetShort(dst, b, n);
      return;
    }
    if n == 0x20 {
      FillEnds(dst, b, 0x20, 0x10);
      return;
    }
    Store(dst, 0, seq(0x20, _ => b));
    var rdi := (base + 0x11f) / 32 * 32 - base;
    while n >= rdi
      invariant 0x100 <= rdi && OnBlock(base, rdi) && rdi - 0x100 <= n
      invariant forall i :: 0 <= i < rdi - 0x100 ==> dst[i] == b
      invariant forall i :: n <= i < dst.Length ==> dst[i] == old(dst[i])
      decreases n - rdi
    {
      FillWords(dst, base, b, rdi - 0x100, 8);
      if n == rdi {
        return;
      }
      rdi := rdi + 0x100;
    }
    MemsetTail(dst, base, b, n, rdi);
  }

  method MemsetTail(dst: array<Byte>, base: nat, b: Byte, n: nat, rdi0: nat)
    requires 0x20 < n <= dst.Length && 0x100 <= rdi0 && OnBlock(base, rdi0) && rdi0 - 0x100 <= n < rdi0
    requires forall i :: 0 <= i < rdi0 - 0x100 ==> dst[i] == b
    modifies dst
    ensures forall i :: 0 <= i < dst.Length ==> dst[i] == if i < n then b else old(dst[i])
  {
    hide OnBlock;
    AlignedPlus(base, rdi0, -4);
    AlignedPlus(base, rdi0, -8);
    var rdi := rdi0 - 0x80;
    if n >= rdi {
      FillWords(dst, base, b, rdi - 0x80, 4);
      if n == rdi { return; }
      rdi := rdi + 0x80;
    }
    AlignedPlus(base, rdi, -2);
    AlignedPlus(base, rdi, -4);
    rdi := rdi - 0x40;
    if n >= rdi {
      FillWords(dst, base, b, rdi - 0x40, 2);
      if n == rdi { return; }
      rdi := rdi + 0x40;
    }
    AlignedPlus(base, rdi, -1);
    AlignedPlus(base, rdi, -2);
    rdi := rdi - 0x20;
    if n >= rdi {
      FillWords(dst, base, b, rdi - 0x20, 1);
      if n == rdi { return; }
      rdi := rdi + 0x20;
    }
    Store(dst, n - 0x20, seq(0x20, _ => b));
  }

  method MemsetShort(dst: array<Byte>, b: Byte, n: nat)
    requires n < 0x20 && Max(n, 1) <= dst.Length
    modifies dst
    ensures forall i :: 0 <= i < dst.Length ==> dst[i] == if i < Max(n, 1) then b else old(dst[i])
  {
    var rdi := 0;
    if n >= 0x10 {
      FillEnds(dst, b, n, 0x10);
    } else if n >= 0x08 {
      FillEnds(dst, b, n, 0x08);
    } else if n >= 0x04 {
      FillEnds(dst, b, n, 0x04);
    } else {
      if n >= 0x02 {
        dst[0] := b;
        dst[1] := b;
        rdi := 0x02;
        if n == 0x02 { return; }
      }
      dst[rdi] := b;
    }
  }

  lemma MemsetIsScalar(d: seq<Byte>, b: Byte, n: nat)
    requires Max(n, 1) <= |d|
    ensures Filled(d, b, Max(n, 1)) == Filled(d, b, n) <==> n > 0 || d[0] == b
  {
    if n == 0 {
      assert Filled(d, b, 0) == d;
      assert Filled(d, b, 1)[0] == b;
      if d[0] == b { assert Filled(d, b, 1) == d; }
    }
  }
}
