/** cldm_avx2_strscpy against the scalar cldm_strscpy: the same result and the same bytes up to the
    terminator, with nothing written past the buffer, for every page offset of the source. */
module StrCopy {
  import opened Memory
  import opened CStrings
  import StrLen

  const E2BIG := 7

  /** The first `f` bytes of the buffer are those of the source, and nothing from `n` on has changed. */
  ghost predicate Copied(dst: array<Byte>, was: seq<Byte>, mem: seq<Byte>, s: nat, f: nat, n: nat)
    reads dst
  {
    && f <= n <= dst.Length == |was| && s + f <= |mem|
    && (forall i :: 0 <= i < f ==> dst[i] == mem[s + i])
    && forall i :: n <= i < |was| ==> dst[i] == was[i]
  }

  /** What a bounded copy of a string of length `len` into `n` >= 1 bytes promises. */
  ghost predicate Outcome(dst: array<Byte>, was: seq<Byte>, mem: seq<Byte>, s: nat, len: nat, n: nat, ret: int): (b: bool)
    reads dst
    ensures b ==> (ret < 0 <==> len >= n) && (ret >= 0 ==> ret == len)
  {
    if len < n then
      ret == len && Copied(dst, was, mem, s, len + 1, n) && dst[len] == 0
    else
      1 <= n && ret == -E2BIG && Copied(dst, was, mem, s, n - 1, n) && dst[n - 1] == 0
  }

  /** cldm_strscpy, the byte loop */
  method ScalarStrscpy(dst: array<Byte>, mem: seq<Byte>, s: nat, n: nat, ghost len: nat) returns (ret: int)
    requires Mapped(mem, s, len, len + 1) && 1 <= n <= dst.Length
    modifies dst
    ensures Outcome(dst, old(dst[..]), mem, s, len, n, ret)
    ensures (ret < 0 <==> len >= n) && (ret >= 0 ==> ret == len)
    ensures forall i :: len < i < dst.Length ==> dst[i] == old(dst[i])
  {
    ghost var was := dst[..];
    var srclen := StrLen.Strlen(mem, s, len);
    var i, d := n, 0;
    while true
      invariant d == n - i && d <= len && Copied(dst, was, mem, s, d, n)
      invariant forall i :: d <= i < dst.Length ==> dst[i] == was[i]
      decreases i
    {
      if i == 0 { break; }
      i := i - 1;
      var c := mem[s + d];
      dst[d] := c;
      d := d + 1;
      if c == 0 { break; }
    }
    if srclen >= n {
      dst[n - 1] := 0;
      return -E2BIG;
    }
    return srclen;
  }

  /** Two copies of the same string into buffers of the same size agree on the result and on every byte up to
      the terminator, wherever the string lies. */
  lemma OutcomesAgree(dst: array<Byte>, was: seq<Byte>, mem: seq<Byte>, s: nat, ret: int,
                      dst': array<Byte>, was': seq<Byte>, mem': seq<Byte>, s': nat, ret': int, len: nat, n: nat)
    requires Outcome(dst, was, mem, s, len, n, ret) && Outcome(dst', was', mem', s', len, n, ret')
    requires var k := if len < n then len + 1 else n;
      s + k <= |mem| && s' + k <= |mem'| && mem[s..s + k] == mem'[s'..s' + k]
    ensures ret == ret'
    ensures forall i :: 0 <= i < n && i <= len ==> dst[i] == dst'[i]
  {
    var k := if len < n then len + 1 else n;
    forall i | 0 <= i < n && i <= len
      ensures dst[i] == dst'[i]
    {
      assert mem[s..s + k][i] == mem'[s'..s' + k][i];
    }
  }

  /** A register loaded at `off` and stored there; its null mask. */
  method Move(mem: seq<Byte>, s: nat, n: nat, dst: array<Byte>, ghost len: nat, ghost was: seq<Byte>,
              ghost f: nat, off: nat, k: nat) returns (m: seq<bool>)
    requires Mapped(mem, s, len, n) && Copied(dst, was, mem, s, f, n)
    requires off <= f <= len && off + k <= n && s + off + k <= |mem|
    modifies dst
    ensures m == Nulls(Load(mem, s, off, k))
    ensures Any(m) ==> off + FirstSet(m) == len && Outcome(dst, was, mem, s, len, n, off + FirstSet(m))
    ensures !Any(m) ==> off + k <= len && Copied(dst, was, mem, s, Max(f, off + k), n)
  {
    hide Mapped, FirstSet, Any;
    var v := Load(mem, s, off, k);
    m := Nulls(v);
    Window(mem, s, len, n, off, k);
    Store(dst, off, v);
  }

  /** A load of 4 or 8 bytes: the lanes above are zero, so the mask is never empty, and an index past the
      bytes loaded means that none of them is null. */
  method MoveNarrow(mem: seq<Byte>, s: nat, n: nat, dst: array<Byte>, ghost len: nat, ghost was: seq<Byte>,
                    ghost f: nat, off: nat, k: nat) returns (r8: nat)
    requires Mapped(mem, s, len, n) && Copied(dst, was, mem, s, f, n)
    requires off <= f <= len && off + k <= n && s + off + k <= |mem| && k < 16
    modifies dst
    ensures r8 < k ==> Outcome(dst, was, mem, s, len, n, off + r8)
    ensures r8 >= k ==> r8 == k && off + k <= len && Copied(dst, was, mem, s, Max(f, off + k), n)
  {
    hide Mapped, FirstSet, Any, Outcome, Copied;
    var m := Move(mem, s, n, dst, len, was, f, off, k);
    var xmm4 := Nulls(Load(mem, s, off, k) + seq(16 - k, _ => 0));
    Padded(Load(mem, s, off, k), k);
    r8 := FirstSet(xmm4);
  }

  /** A register loaded from an aligned address at the point the copy has reached. */
  method MoveAligned(mem: seq<Byte>, s: nat, n: nat, dst: array<Byte>, ghost len: nat, ghost was: seq<Byte>,
                     off: nat) returns (m: seq<bool>)
    requires Mapped(mem, s, len, n) && Copied(dst, was, mem, s, off, n)
    requires off <= len && off + 32 <= n && s + off + 32 <= |mem| && Aligned(s + off)
    modifies dst
    ensures m == Nulls(LoadAligned(mem, s, off))
    ensures Any(m) ==> off + FirstSet(m) == len && Outcome(dst, was, mem, s, len, n, off + FirstSet(m))
    ensures !Any(m) ==> off + 32 <= len && Copied(dst, was, mem, s, off + 32, n)
  {
    hide Mapped, FirstSet, Any, Nulls, Load, Outcome, Copied;
    m := Move(mem, s, n, dst, len, was, off, off, 32);
  }

  lemma Padded(v: seq<Byte>, k: nat)
    requires |v| == k < 16
    ensures var m := Nulls(v + seq(16 - k, _ => 0));
      Any(m) && FirstSet(m) == if Any(Nulls(v)) then FirstSet(Nulls(v)) else k
  {
    var m := Nulls(v + seq(16 - k, _ => 0));
    assert m[k];
    var i := FirstSet(m);
    if Any(Nulls(v)) {
      var j := FirstSet(Nulls(v));
      assert m[j];
      assert Nulls(v)[i];
    } else {
      assert forall j :: 0 <= j < k ==> !Nulls(v)[j];
    }
  }

  /** .Lepi_ovfz */
  method Overflow(mem: seq<Byte>, s: nat, n: nat, dst: array<Byte>, ghost len: nat, ghost was: seq<Byte>)
    returns (ret: int)
    requires 1 <= n <= len && Copied(dst, was, mem, s, n, n)
    modifies dst
    ensures Outcome(dst, was, mem, s, len, n, ret)
  {
    dst[n - 1] := 0;
    return -E2BIG;
  }

  /** cldm_avx2_strscpy */
  method Strscpy(dst: array<Byte>, mem: seq<Byte>, s: nat, n: nat, ghost len: nat) returns (ret: int)
    requires (n > 0 ==> Mapped(mem, s, len, n)) && n <= dst.Length
    modifies dst
    ensures n > 0 ==> Outcome(dst, old(dst[..]), mem, s, len, n, ret)
    ensures n == 0 ==> ret == -E2BIG && dst[..] == old(dst[..])
    ensures (ret < 0 <==> len >= n) && (ret >= 0 ==> ret == len)
  {
    hide Mapped, PageOffset, Aligned, Any, FirstSet, Nulls, Load, Outcome;
    if n == 0 {
      return -E2BIG;
    }
    ghost var was := dst[..];
    FirstPage(mem, s, len, n);
    if PageOffset(s) > PGSIZE - 0x20 {
      ret := PageEdge(mem, s, n, dst, len, was);
      return;
    }
    if n < 0x20 {
      ret := EndUnaligned(mem, s, n, dst, len, was, 0);
      return;
    }
    var ymm4 := Move(mem, s, n, dst, len, was, 0, 0, 32);
    if Any(ymm4) {
      return FirstSet(ymm4);
    }
    Aligning(s);
    Fewer(dst, was, mem, s, NextAligned(s), 32, n);
    ret := Blocks(mem, s, n, dst, len, was, NextAligned(s));
  }

  lemma Aligning(s: nat)
    ensures Aligned(s + NextAligned(s))
  {
  }

  /** Copying may start again below the point it has reached. */
  lemma Fewer(dst: array<Byte>, was: seq<Byte>, mem: seq<Byte>, s: nat, e: nat, f: nat, n: nat)
    requires e <= f && Copied(dst, was, mem, s, f, n)
    ensures Copied(dst, was, mem, s, e, n)
  {
  }

  /** With less than a page tail left of the buffer, all of it faces mapped bytes. */
  lemma RestMapped(mem: seq<Byte>, s: nat, len: nat, n: nat, rax: nat)
    requires Mapped(mem, s, len, n) && rax <= len && rax <= n && n - rax <= ToPageEnd(s + rax)
    ensures s + n <= |mem|
  {
    if rax < n {
      NextMapped(mem, s, len, n, rax);
    } else {
      NextMapped(mem, s, len, n, n - 1);
    }
  }

  /** An aligned block does not cross the end of its page. */
  lemma BlockEnd(i: nat)
    requires Aligned(i)
    ensures ToPageEnd(i) >= 32
  {
  }

  /** .Lcpy128b_prlg and .Lcpy128b: four registers at a time from an aligned offset on. */
  method Blocks(mem: seq<Byte>, s: nat, n: nat, dst: array<Byte>, ghost len: nat, ghost was: seq<Byte>,
                rax0: nat) returns (ret: int)
    requires Mapped(mem, s, len, n) && Copied(dst, was, mem, s, rax0, n)
    requires rax0 <= len && rax0 <= n && Aligned(s + rax0) && n >= 32
    modifies dst
    ensures Outcome(dst, was, mem, s, len, n, ret)
  {
    hide Mapped, PageOffset, Aligned, Copied, Outcome;
    var rax := rax0;
    while true
      invariant rax <= len && rax <= n && Copied(dst, was, mem, s, rax, n) && Aligned(s + rax)
      decreases len - rax
    {
      if PageOffset(s + rax) > PGSIZE - 0x80 {
        var done;
        done, ret, rax := PageTail(mem, s, n, dst, len, was, rax);
        if done {
          return;
        }
        PageStart(s + rax);
      }
      if rax + 0x80 > n {
        RestMapped(mem, s, len, n, rax);
        ret := EndAligned(mem, s, n, dst, len, was, rax);
        return;
      }
      var done;
      done, ret := Four(mem, s, n, dst, len, was, rax);
      if done {
        return;
      }
      NextBlocks(s + rax);
      rax := rax + 0x80;
    }
  }

  /** .Lcpy128b: up to the register that holds the terminator, everything is stored. */
  method Four(mem: seq<Byte>, s: nat, n: nat, dst: array<Byte>, ghost len: nat, ghost was: seq<Byte>, rax: nat)
    returns (done: bool, ret: int)
    requires Mapped(mem, s, len, n) && Copied(dst, was, mem, s, rax, n)
    requires rax <= len && rax + 0x80 <= n && Aligned(s + rax) && PageOffset(s + rax) <= PGSIZE - 0x80
    modifies dst
    ensures done ==> Outcome(dst, was, mem, s, len, n, ret)
    ensures !done ==> rax + 0x80 <= len && Copied(dst, was, mem, s, rax + 0x80, n)
  {
    hide Mapped, PageOffset, Aligned, Copied, Outcome, Nulls, Any, FirstSet, Load;
    NextMapped(mem, s, len, n, rax);
    NextBlocks(s + rax);
    var ymm4 := Nulls(LoadAligned(mem, s, rax));
    var ymm5 := Nulls(LoadAligned(mem, s, rax + 0x20));
    var ymm6 := Nulls(LoadAligned(mem, s, rax + 0x40));
    var ymm7 := Nulls(LoadAligned(mem, s, rax + 0x60));
    var _ := Move(mem, s, n, dst, len, was, rax, rax, 32);
    if !(Any(ymm4) || Any(ymm5) || Any(ymm6) || Any(ymm7)) {
      var _ := Move(mem, s, n, dst, len, was, rax + 0x20, rax + 0x20, 32);
      var _ := Move(mem, s, n, dst, len, was, rax + 0x40, rax + 0x40, 32);
      var _ := Move(mem, s, n, dst, len, was, rax + 0x60, rax + 0x60, 32);
      return false, 0;
    }
    if Any(ymm4) || Any(ymm5) {
      if Any(ymm4) {
        return true, rax + FirstSet(ymm4);
      }
      var _ := Move(mem, s, n, dst, len, was, rax + 0x20, rax + 0x20, 32);
      return true, rax + 0x20 + FirstSet(ymm5);
    }
    var _ := Move(mem, s, n, dst, len, was, rax + 0x20, rax + 0x20, 32);
    var _ := Move(mem, s, n, dst, len, was, rax + 0x40, rax + 0x40, 32);
    if Any(ymm6) {
      return true, rax + 0x40 + FirstSet(ymm6);
    }
    var _ := Move(mem, s, n, dst, len, was, rax + 0x60, rax + 0x60, 32);
    return true, rax + 0x60 + FirstSet(ymm7);
  }

  /** .Lpgx32b: one register at a time to the end of the page, or of the buffer. */
  method PageTail(mem: seq<Byte>, s: nat, n: nat, dst: array<Byte>, ghost len: nat, ghost was: seq<Byte>,
                  rax0: nat) returns (done: bool, ret: int, rax: nat)
    requires Mapped(mem, s, len, n) && Copied(dst, was, mem, s, rax0, n)
    requires rax0 <= len && rax0 <= n && Aligned(s + rax0) && n >= 32
    modifies dst
    ensures done ==> Outcome(dst, was, mem, s, len, n, ret)
    ensures !done ==> rax0 < rax <= len && rax <= n && PageOffset(s + rax) == 0 && Copied(dst, was, mem, s, rax, n)
  {
    hide Mapped, PageOffset, Aligned, Outcome, Nulls, Any, FirstSet, Load;
    rax := rax0;
    while true
      invariant rax0 <= rax <= len && Copied(dst, was, mem, s, rax, n) && Aligned(s + rax)
      decreases len - rax
    {
      BlockEnd(s + rax);
      if rax + 0x20 > n {
        RestMapped(mem, s, len, n, rax);
        var rcx := -(n - rax);
        ret := LastRegister(mem, s, n, dst, len, was, rax, rax - (0x20 + rcx));
        done := true;
        return;
      }
      BlockMapped(mem, s, len, n, rax);
      var ymm4 := MoveAligned(mem, s, n, dst, len, was, rax);
      if Any(ymm4) {
        return true, rax + FirstSet(ymm4), rax;
      }
      NextBlocks(s + rax);
      rax := rax + 0x20;
      if PageOffset(s + rax) == 0 {
        return false, 0, rax;
      }
    }
  }

  /** .Lbufend_aligned: fewer than 128 bytes of buffer left; whole registers, then one that ends with the
      buffer and may overlap what is already copied. */
  method EndAligned(mem: seq<Byte>, s: nat, n: nat, dst: array<Byte>, ghost len: nat, ghost was: seq<Byte>,
                    rax0: nat) returns (ret: int)
    requires Mapped(mem, s, len, n) && Copied(dst, was, mem, s, rax0, n)
    requires rax0 <= len && Aligned(s + rax0) && rax0 <= n && 32 <= n < rax0 + 0x80 && s + n <= |mem|
    modifies dst
    ensures Outcome(dst, was, mem, s, len, n, ret)
  {
    hide Mapped, Aligned, Copied, Outcome, Nulls, Any, FirstSet, Load;
    var rax := rax0;
    var rcx := n - rax;
    var r9, r10 := rcx / 32, 0x20 - rcx % 32;
    NextBlocks(s + rax);
    if r9 == 0 {
      ret := LastRegister(mem, s, n, dst, len, was, rax, rax - r10);
    } else if r9 == 1 {
      var ymm4 := MoveAligned(mem, s, n, dst, len, was, rax);
      if Any(ymm4) { return rax + FirstSet(ymm4); }
      ret := LastRegister(mem, s, n, dst, len, was, rax + 0x20, rax + 0x20 - r10);
    } else if r9 == 2 {
      var ymm4 := MoveAligned(mem, s, n, dst, len, was, rax);
      if Any(ymm4) { return rax + FirstSet(ymm4); }
      var ymm5 := MoveAligned(mem, s, n, dst, len, was, rax + 0x20);
      if Any(ymm5) { return rax + 0x20 + FirstSet(ymm5); }
      ret := LastRegister(mem, s, n, dst, len, was, rax + 0x40, rax + 0x40 - r10);
    } else {
      var ymm4 := MoveAligned(mem, s, n, dst, len, was, rax);
      if Any(ymm4) { return rax + FirstSet(ymm4); }
      var ymm5 := MoveAligned(mem, s, n, dst, len, was, rax + 0x20);
      if Any(ymm5) { return rax + 0x20 + FirstSet(ymm5); }
      var ymm6 := MoveAligned(mem, s, n, dst, len, was, rax + 0x40);
      if Any(ymm6) { return rax + 0x40 + FirstSet(ymm6); }
      ret := LastRegister(mem, s, n, dst, len, was, rax + 0x60, rax + 0x60 - r10);
    }
  }

  /** The register that ends with the buffer, `off` already being retracted. */
  method LastRegister(mem: seq<Byte>, s: nat, n: nat, dst: array<Byte>, ghost len: nat, ghost was: seq<Byte>,
                      ghost f: nat, off: nat) returns (ret: int)
    requires Mapped(mem, s, len, n) && Copied(dst, was, mem, s, f, n)
    requires off <= f <= len && off + 0x20 == n && f <= n && s + n <= |mem|
    modifies dst
    ensures Outcome(dst, was, mem, s, len, n, ret)
  {
    hide Mapped, Copied, Outcome, Nulls, Any, FirstSet, Load;
    var ymm4 := Move(mem, s, n, dst, len, was, f, off, 32);
    if Any(ymm4) { return off + FirstSet(ymm4); }
    ret := Overflow(mem, s, n, dst, len, was);
  }

  /** The bit index of the most significant set bit. */
  function Msb(x: nat): (i: nat)
    requires x > 0
    ensures x < 2 ==> i == 0
    ensures 2 <= x < 4 ==> i == 1
    ensures 4 <= x < 8 ==> i == 2
    ensures 8 <= x < 16 ==> i == 3
    ensures 16 <= x < 32 ==> i == 4
  { if x < 2 then 0 else 1 + Msb(x / 2) }

  /** .Lpgx_unaligned: the string starts fewer than 32 bytes before the end of a page. */
  method PageEdge(mem: seq<Byte>, s: nat, n: nat, dst: array<Byte>, ghost len: nat, ghost was: seq<Byte>)
    returns (ret: int)
    requires Mapped(mem, s, len, n) && Copied(dst, was, mem, s, 0, n) && n >= 1
    requires PageOffset(s) > PGSIZE - 0x20
    modifies dst
    ensures Outcome(dst, was, mem, s, len, n, ret)
  {
    hide Mapped, Copied, Outcome, PageOffset;
    FirstPage(mem, s, len, n);
    var r9 := PGSIZE - PageOffset(s);
    if r9 >= n {
      ret := EndUnaligned(mem, s, n, dst, len, was, 0);
      return;
    }
    var done;
    match Msb(r9) {
      case 0 => done, ret := Edge1(mem, s, n, dst, len, was);
      case 1 => done, ret := Edge2(mem, s, n, dst, len, was, r9);
      case 2 => done, ret := EdgeNarrow(mem, s, n, dst, len, was, r9, 4);
      case 3 => done, ret := EdgeNarrow(mem, s, n, dst, len, was, r9, 8);
      case 4 => done, ret := Edge16(mem, s, n, dst, len, was, r9);
    }
    if !done {
      ret := NextPage(mem, s, n, dst, len, was, r9);
    }
  }

  /** .Lpgx1b */
  method Edge1(mem: seq<Byte>, s: nat, n: nat, dst: array<Byte>, ghost len: nat, ghost was: seq<Byte>)
    returns (done: bool, ret: int)
    requires Mapped(mem, s, len, n) && Copied(dst, was, mem, s, 0, n) && 1 <= n && s + 1 <= |mem|
    modifies dst
    ensures done ==> Outcome(dst, was, mem, s, len, n, ret)
    ensures !done ==> 1 <= len && Copied(dst, was, mem, s, 1, n)
  {
    var ecx := mem[s];
    dst[0] := ecx;
    return ecx == 0, 0;
  }

  /** .Lpgx2b: two bytes, and the third if there is one. */
  method Edge2(mem: seq<Byte>, s: nat, n: nat, dst: array<Byte>, ghost len: nat, ghost was: seq<Byte>, r9: nat)
    returns (done: bool, ret: int)
    requires Mapped(mem, s, len, n) && Copied(dst, was, mem, s, 0, n) && 2 <= r9 <= 3 && r9 <= n && s + r9 <= |mem|
    modifies dst
    ensures done ==> Outcome(dst, was, mem, s, len, n, ret)
    ensures !done ==> r9 <= len && Copied(dst, was, mem, s, r9, n)
  {
    var eax, ecx := mem[s], mem[s + 1];
    dst[0] := eax;
    dst[1] := ecx;
    if eax == 0 || ecx == 0 {
      return true, if eax != 0 then 1 else 0;
    }
    if r9 == 2 {
      return false, 0;
    }
    ecx := mem[s + 2];
    dst[2] := ecx;
    return ecx == 0, 2;
  }

  /** .Lpgx4b and .Lpgx8b: two overlapping moves that end with the page. */
  method EdgeNarrow(mem: seq<Byte>, s: nat, n: nat, dst: array<Byte>, ghost len: nat, ghost was: seq<Byte>,
                    r9: nat, k: nat) returns (done: bool, ret: int)
    requires Mapped(mem, s, len, n) && Copied(dst, was, mem, s, 0, n)
    requires 0 < k <= r9 < 2 * k && k < 16 && r9 <= n && s + r9 <= |mem|
    modifies dst
    ensures done ==> Outcome(dst, was, mem, s, len, n, ret)
    ensures !done ==> r9 <= len && Copied(dst, was, mem, s, r9, n)
  {
    hide Mapped, Copied, Outcome;
    var eax: nat := MoveNarrow(mem, s, n, dst, len, was, 0, 0, k);
    if eax < k { return true, eax; }
    if r9 == k { return false, 0; }
    var ecx := r9 - k;
    eax := ecx + k - k;
    var r8 := MoveNarrow(mem, s, n, dst, len, was, k, eax, k);
    return r8 < k, eax + r8;
  }

  /** .Lpgx16b */
  method Edge16(mem: seq<Byte>, s: nat, n: nat, dst: array<Byte>, ghost len: nat, ghost was: seq<Byte>, r9: nat)
    returns (done: bool, ret: int)
    requires Mapped(mem, s, len, n) && Copied(dst, was, mem, s, 0, n)
    requires 16 <= r9 < 32 && r9 <= n && s + r9 <= |mem|
    modifies dst
    ensures done ==> Outcome(dst, was, mem, s, len, n, ret)
    ensures !done ==> r9 <= len && Copied(dst, was, mem, s, r9, n)
  {
    hide Mapped, Copied, Outcome, Nulls, Any, FirstSet, Load;
    var xmm4 := Move(mem, s, n, dst, len, was, 0, 0, 16);
    if Any(xmm4) { return true, FirstSet(xmm4); }
    if r9 == 0x10 { return false, 0; }
    var eax := r9 - 0x10;
    var xmm5 := Move(mem, s, n, dst, len, was, 16, eax, 16);
    if !Any(xmm5) { return false, 0; }
    return true, eax + FirstSet(xmm5);
  }

  /** .Lpgx_bufchk: the copy has reached the start of the second page. */
  method NextPage(mem: seq<Byte>, s: nat, n: nat, dst: array<Byte>, ghost len: nat, ghost was: seq<Byte>,
                  rax: nat) returns (ret: int)
    requires Mapped(mem, s, len, n) && Copied(dst, was, mem, s, rax, n)
    requires s + rax == PGSIZE && 1 <= rax <= len && rax < n
    modifies dst
    ensures Outcome(dst, was, mem, s, len, n, ret)
  {
    hide Mapped, Copied, Outcome, Nulls, Any, FirstSet, Load;
    assert PageOffset(s + rax) == 0;
    PageStart(s + rax);
    BlockMapped(mem, s, len, n, rax);
    if n < rax + 0x20 {
      ret := EndUnaligned(mem, s, n, dst, len, was, rax);
      return;
    }
    var ymm4 := MoveAligned(mem, s, n, dst, len, was, rax);
    if Any(ymm4) { return rax + FirstSet(ymm4); }
    Fewer(dst, was, mem, s, rax, rax + 32, n);
    ret := Blocks(mem, s, n, dst, len, was, rax);
  }

  /** .Lbufend_unaligned: fewer than 32 bytes of buffer left. */
  method EndUnaligned(mem: seq<Byte>, s: nat, n: nat, dst: array<Byte>, ghost len: nat, ghost was: seq<Byte>,
                      rax: nat) returns (ret: int)
    requires Mapped(mem, s, len, n) && Copied(dst, was, mem, s, rax, n)
    requires rax <= len && rax < n < rax + 32 && s + n <= |mem|
    modifies dst
    ensures Outcome(dst, was, mem, s, len, n, ret)
  {
    hide Mapped, Copied, Outcome;
    match Msb(n - rax) {
      case 0 => ret := End1(mem, s, n, dst, len, was, rax);
      case 1 => ret := End2(mem, s, n, dst, len, was, rax);
      case 2 => ret := EndNarrow(mem, s, n, dst, len, was, rax, 4);
      case 3 => ret := EndNarrow(mem, s, n, dst, len, was, rax, 8);
      case 4 => ret := End16(mem, s, n, dst, len, was, rax);
    }
  }

  /** .Lbufend1b: the byte is not stored, only tested. */
  method End1(mem: seq<Byte>, s: nat, n: nat, dst: array<Byte>, ghost len: nat, ghost was: seq<Byte>, rax: nat)
    returns (ret: int)
    requires Mapped(mem, s, len, n) && Copied(dst, was, mem, s, rax, n)
    requires rax <= len && n == rax + 1 && s + n <= |mem|
    modifies dst
    ensures Outcome(dst, was, mem, s, len, n, ret)
  {
    var r8 := mem[s + rax];
    dst[rax] := 0;
    ret := if r8 != 0 then -E2BIG else rax;
  }

  /** .Lbufend2b */
  method End2(mem: seq<Byte>, s: nat, n: nat, dst: array<Byte>, ghost len: nat, ghost was: seq<Byte>, rax: nat)
    returns (ret: int)
    requires Mapped(mem, s, len, n) && Copied(dst, was, mem, s, rax, n)
    requires rax <= len && rax + 2 <= n <= rax + 3 && s + n <= |mem|
    modifies dst
    ensures Outcome(dst, was, mem, s, len, n, ret)
  {
    var r8, ecx := mem[s + rax], mem[s + rax + 1];
    dst[rax] := r8;
    dst[rax + 1] := ecx;
    if r8 == 0 || ecx == 0 {
      return rax + if r8 != 0 then 1 else 0;
    }
    if n <= rax + 2 {
      ret := Overflow(mem, s, n, dst, len, was);
      return;
    }
    ret := End1(mem, s, n, dst, len, was, rax + 2);
  }

  /** .Lbufend4b and .Lbufend8b */
  method EndNarrow(mem: seq<Byte>, s: nat, n: nat, dst: array<Byte>, ghost len: nat, ghost was: seq<Byte>,
                   rax: nat, k: nat) returns (ret: int)
    requires Mapped(mem, s, len, n) && Copied(dst, was, mem, s, rax, n)
    requires rax <= len && 0 < k <= n - rax < 2 * k && k < 16 && s + n <= |mem|
    modifies dst
    ensures Outcome(dst, was, mem, s, len, n, ret)
  {
    hide Mapped, Copied, Outcome;
    var r8: nat := MoveNarrow(mem, s, n, dst, len, was, rax, rax, k);
    if r8 < k { return rax + r8; }
    if n <= rax + k {
      ret := Overflow(mem, s, n, dst, len, was);
      return;
    }
    var eax := n - k;
    r8 := MoveNarrow(mem, s, n, dst, len, was, rax + k, eax, k);
    if r8 < k { return eax + r8; }
    ret := Overflow(mem, s, n, dst, len, was);
  }

  /** .Lbufend16b */
  method End16(mem: seq<Byte>, s: nat, n: nat, dst: array<Byte>, ghost len: nat, ghost was: seq<Byte>, rax: nat)
    returns (ret: int)
    requires Mapped(mem, s, len, n) && Copied(dst, was, mem, s, rax, n)
    requires rax <= len && 16 <= n - rax < 32 && s + n <= |mem|
    modifies dst
    ensures Outcome(dst, was, mem, s, len, n, ret)
  {
    hide Mapped, Copied, Outcome, Nulls, Any, FirstSet, Load;
    var xmm4 := Move(mem, s, n, dst, len, was, rax, rax, 16);
    if Any(xmm4) { return rax + FirstSet(xmm4); }
    if n <= rax + 0x10 {
      ret := Overflow(mem, s, n, dst, len, was);
      return;
    }
    var eax := n - 0x10;
    var xmm5 := Move(mem, s, n, dst, len, was, rax + 16, eax, 16);
    if Any(xmm5) { return eax + FirstSet(xmm5); }
    ret := Overflow(mem, s, n, dst, len, was);
  }
}
