/** cldm_avx2_strlen: the index of the terminator, without a load from a page the string does not touch. */
module StrLen {
  import opened Memory
  import opened CStrings

  /** cldm_avx2_strlen */
  method Strlen(mem: seq<Byte>, s: nat, ghost len: nat) returns (rax: nat)
    requires Mapped(mem, s, len, len + 1)
    ensures rax == len
  {
    hide Mapped, PageOffset, Any, FirstSet;
    NextMapped(mem, s, len, len + 1, 0);
    if PageOffset(s) > PGSIZE - 0x20 {
      var found;
      found, rax := PageEdge(mem, s, len);
      if !found {
        PageStart(s + rax);
        rax := Blocks(mem, s, len, rax);
      }
      return;
    }
    var ymm4 := Nulls(Load(mem, s, 0, 32));
    Window(mem, s, len, len + 1, 0, 32);
    if Any(ymm4) {
      return FirstSet(ymm4);
    }
    rax := NextAligned(s);
    rax := Blocks(mem, s, len, rax);
  }

  /** From an aligned offset on: 128 bytes at a time, 32 at a time near the end of a page. */
  method Blocks(mem: seq<Byte>, s: nat, ghost len: nat, rax0: nat) returns (rax: nat)
    requires Mapped(mem, s, len, len + 1) && rax0 <= len && Aligned(s + rax0)
    ensures rax == len
  {
    hide Mapped, Aligned, PageOffset;
    rax := rax0;
    while true
      invariant rax <= len && Aligned(s + rax)
      decreases len - rax
    {
      if PageOffset(s + rax) > PGSIZE - 0x80 {
        var found;
        found, rax := PageTail(mem, s, len, rax);
        if found {
          return;
        }
        PageStart(s + rax);
      }
      var found;
      found, rax := Four(mem, s, len, rax);
      if found {
        return;
      }
    }
  }

  /** Four registers at once; when one of them holds a null byte, steps that stop at it add up to its offset. */
  method Four(mem: seq<Byte>, s: nat, ghost len: nat, rax0: nat) returns (found: bool, rax: nat)
    requires Mapped(mem, s, len, len + 1) && rax0 <= len && Aligned(s + rax0) && PageOffset(s + rax0) <= PGSIZE - 0x80
    ensures found ==> rax == len
    ensures !found ==> rax == rax0 + 0x80 <= len && Aligned(s + rax)
  {
    hide Mapped, Aligned, PageOffset, Any, FirstSet, Nulls, Load;
    rax := rax0;
    NextMapped(mem, s, len, len + 1, rax);
    NextBlocks(s + rax);
    var ymm4 := Nulls(LoadAligned(mem, s, rax));
    var ymm5 := Nulls(LoadAligned(mem, s, rax + 0x20));
    var ymm6 := Nulls(LoadAligned(mem, s, rax + 0x40));
    var ymm7 := Nulls(LoadAligned(mem, s, rax + 0x60));
    Window(mem, s, len, len + 1, rax, 32);
    if !Any(ymm4) { Window(mem, s, len, len + 1, rax + 0x20, 32); }
    if !Any(ymm4) && !Any(ymm5) { Window(mem, s, len, len + 1, rax + 0x40, 32); }
    if !Any(ymm4) && !Any(ymm5) && !Any(ymm6) { Window(mem, s, len, len + 1, rax + 0x60, 32); }
    if !(Any(ymm4) || Any(ymm5) || Any(ymm6) || Any(ymm7)) {
      return false, rax + 0x80;
    }
    var ecx := 0x20;
    if Any(ymm4) { ecx := 0; }
    rax := rax + ecx;
    if Any(ymm5) { ecx := 0; }
    rax := rax + ecx;
    if Any(ymm6) { ecx := 0; }
    rax := rax + ecx;
    return true, rax + FirstSet(Nulls(LoadAligned(mem, s, rax)));
  }

  /** 32 bytes at a time up to the end of the page. */
  method PageTail(mem: seq<Byte>, s: nat, ghost len: nat, rax0: nat) returns (found: bool, rax: nat)
    requires Mapped(mem, s, len, len + 1) && rax0 <= len && Aligned(s + rax0)
    ensures found ==> rax == len
    ensures !found ==> rax0 < rax <= len && PageOffset(s + rax) == 0
  {
    hide Mapped, Any, FirstSet, Nulls, Load;
    rax := rax0;
    while true
      invariant rax0 <= rax <= len && Aligned(s + rax)
      decreases len - rax
    {
      BlockMapped(mem, s, len, len + 1, rax);
      var ymm4 := Nulls(LoadAligned(mem, s, rax));
      Window(mem, s, len, len + 1, rax, 32);
      if Any(ymm4) {
        return true, rax + FirstSet(ymm4);
      }
      rax := rax + 0x20;
      if PageOffset(s + rax) == 0 {
        return false, rax;
      }
    }
  }

  /** Fewer than 32 bytes before the end of the page: 16, 8, 4, 2 and 1 of them, as they fit. */
  method PageEdge(mem: seq<Byte>, s: nat, ghost len: nat) returns (found: bool, rax: nat)
    requires Mapped(mem, s, len, len + 1) && PageOffset(s) > PGSIZE - 0x20
    ensures found ==> rax == len
    ensures !found ==> rax <= len && PageOffset(s + rax) == 0
  {
    hide Mapped, PageOffset;
    rax := 0;
    FirstPage(mem, s, len, len + 1);
    if PageOffset(s) <= PGSIZE - 0x10 {
      found, rax := Narrow(mem, s, len, rax, 16);
      if found { return; }
    }
    InFirstPage(s + rax);
    if PageOffset(s + rax) == 0 { return false, rax; }
    if PageOffset(s + rax) <= PGSIZE - 0x08 {
      found, rax := Narrow(mem, s, len, rax, 8);
      if found { return; }
    }
    InFirstPage(s + rax);
    if PageOffset(s + rax) == 0 { return false, rax; }
    if PageOffset(s + rax) <= PGSIZE - 0x04 {
      found, rax := Narrow(mem, s, len, rax, 4);
      if found { return; }
    }
    found, rax := LastThree(mem, s, len, rax);
  }

  /** The last 0 to 3 bytes of the page. */
  method LastThree(mem: seq<Byte>, s: nat, ghost len: nat, off: nat) returns (found: bool, rax: nat)
    requires Mapped(mem, s, len, len + 1) && off <= len && PGSIZE - 4 < s + off <= PGSIZE
    ensures found ==> rax == len
    ensures !found ==> rax <= len && PageOffset(s + rax) == 0
  {
    hide Mapped, PageOffset;
    FirstPage(mem, s, len, len + 1);
    rax := off;
    InFirstPage(s + rax);
    if PageOffset(s + rax) == 0 { return false, rax; }
    if PageOffset(s + rax) <= PGSIZE - 0x02 {
      found, rax := Word(mem, s, len, rax);
      if found { return; }
    }
    InFirstPage(s + rax);
    if (s + rax) % 2 == 0 { return false, rax; }
    assert s + rax == PGSIZE - 1;
    InFirstPage(s + (rax + 1));
    Window(mem, s, len, len + 1, rax, 1);
    found := mem[s + rax] == 0;
    assert Nulls(Load(mem, s, rax, 1))[0] == found;
    return found, if found then rax else rax + 1;
  }

  /** A load of `k` <= 16 bytes into a register of 16: the lanes above are zero and compare as null bytes, so
      the mask is shifted up to drop them and its index corrected. */
  method Narrow(mem: seq<Byte>, s: nat, ghost len: nat, off: nat, k: nat) returns (found: bool, rax: nat)
    requires Mapped(mem, s, len, len + 1) && off <= len && 0 < k <= 16 && s + off + k <= |mem|
    ensures found ==> rax == len
    ensures !found ==> rax == off + k <= len
  {
    var v := Load(mem, s, off, k);
    var xmm4 := Nulls(v + seq(16 - k, _ => 0));
    var xmm7 := seq(16 - k, _ => false) + xmm4[..k];
    Shifted(v, k);
    Window(mem, s, len, len + 1, off, k);
    if !Any(xmm7) {
      return false, off + k;
    }
    return true, off + FirstSet(xmm7[16 - k..]);
  }

  lemma Shifted(v: seq<Byte>, k: nat)
    requires |v| == k <= 16
    ensures var m := seq(16 - k, _ => false) + Nulls(v + seq(16 - k, _ => 0))[..k];
      m[16 - k..] == Nulls(v) && Any(m) == Any(Nulls(v))
  {
    var m := seq(16 - k, _ => false) + Nulls(v + seq(16 - k, _ => 0))[..k];
    assert m[16 - k..] == Nulls(v);
    if Any(m) {
      var i :| 0 <= i < 16 && m[i];
      assert Nulls(v)[i - (16 - k)];
    }
    if Any(Nulls(v)) {
      var i :| 0 <= i < k && Nulls(v)[i];
      assert m[16 - k + i];
    }
  }

  /** Two bytes tested by masks, with a step that is switched off by the first null byte. */
  method Word(mem: seq<Byte>, s: nat, ghost len: nat, off: nat) returns (found: bool, rax: nat)
    requires Mapped(mem, s, len, len + 1) && off <= len && s + off + 2 <= |mem|
    ensures found ==> rax == len
    ensures !found ==> rax == off + 2 <= len
  {
    rax := off;
    var ecx := 1;
    if mem[s + off] == 0 { ecx := 0; }
    rax := rax + ecx;
    if mem[s + off + 1] == 0 { ecx := 0; }
    rax := rax + ecx;
    found := ecx == 0;
  }
}
