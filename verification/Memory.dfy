/** Byte memory and the moves of the vector routines: a register is a sequence of bytes, a move is one slice
    of an array, and addresses are numbers, so that alignment is real. */
module Memory {

  type Byte = x: int | 0 <= x < 256

  function Max(a: nat, b: nat): nat { if a > b then a else b }

  /** `s` over the first `n` bytes of `d`. */
  function Over(d: seq<Byte>, s: seq<Byte>, n: nat): seq<Byte>
    requires n <= |d| && n <= |s|
  { s[..n] + d[n..] }

  /** An unaligned store of a register. */
  method Store(a: array<Byte>, off: int, v: seq<Byte>)
    requires 0 <= off && off + |v| <= a.Length
    modifies a
    ensures forall i :: 0 <= i < a.Length ==> a[i] == if off <= i < off + |v| then v[i - off] else old(a[i])
  {
    forall i | 0 <= i < |v| { a[off + i] := v[i]; }
  }

  /** An aligned store faults unless the address is a multiple of the register size. */
  method StoreAligned(a: array<Byte>, base: nat, off: int, v: seq<Byte>)
    requires 0 <= off && off + |v| <= a.Length
    requires |v| > 0 && (base + off) % |v| == 0
    modifies a
    ensures forall i :: 0 <= i < a.Length ==> a[i] == if off <= i < off + |v| then v[i - off] else old(a[i])
  {
    Store(a, off, v);
  }

  /** The first multiple of 32 above `base`, as an offset from it: 1 to 32. */
  function NextAligned(base: nat): (off: nat)
    ensures 1 <= off <= 32 && OnBlock(base, off)
  { (base + 32) / 32 * 32 - base }

  /** An offset an aligned move of 32 bytes accepts. */
  predicate OnBlock(base: nat, off: int) { (base + off) % 32 == 0 }

  lemma AlignedPlus(base: nat, off: int, k: int)
    requires OnBlock(base, off)
    ensures OnBlock(base, off + 32 * k)
  {
  }
}
