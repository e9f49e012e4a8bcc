/** A C string in paged memory: only the pages that hold a byte of the string, terminator included, are
    mapped, so a load that stays inside `mem` touches no other page. */
module CStrings {
  import opened Memory

  const PGSIZE: nat := 4096

  /** A string of length `len` at `s`, in the first page of `mem`; the last page of `mem` holds the last of its
      first `n` bytes, terminator included. Nothing is said of the bytes after those. */
  ghost predicate Mapped(mem: seq<Byte>, s: nat, len: nat, n: nat) {
    && s < PGSIZE && |mem| % PGSIZE == 0 && 1 <= n
    && (forall i :: s <= i < s + len && i < |mem| ==> mem[i] != 0)
    && (s + len < |mem| ==> mem[s + len] == 0)
    && var last := if len < n then len else n - 1;
       |mem| - PGSIZE <= s + last < |mem|
  }

  function PageOffset(i: nat): (o: nat)
    ensures o < PGSIZE
  { i % PGSIZE }

  /** An address an aligned load of a 32-byte register accepts. */
  predicate Aligned(i: nat) { i % 32 == 0 }

  lemma PageStart(i: nat)
    requires PageOffset(i) == 0
    ensures Aligned(i)
  {
  }

  lemma NextBlocks(i: nat)
    requires Aligned(i)
    ensures Aligned(i + 0x20) && Aligned(i + 0x40) && Aligned(i + 0x60) && Aligned(i + 0x80)
  {
  }

  /** In the first page a page offset is the address itself. */
  lemma InFirstPage(i: nat)
    requires i <= PGSIZE
    ensures PageOffset(i) == if i == PGSIZE then 0 else i
  {
  }

  /** How far the page of the byte at `i` goes on from there. */
  function ToPageEnd(i: nat): (r: nat)
    ensures 1 <= r <= PGSIZE && r == PGSIZE - PageOffset(i)
  { PGSIZE - PageOffset(i) }

  /** As long as no terminator has been met and fewer than `n` bytes, the page of the next byte is mapped to its end. */
  lemma NextMapped(mem: seq<Byte>, s: nat, len: nat, n: nat, k: nat)
    requires Mapped(mem, s, len, n) && k <= len && k < n
    ensures s + k + ToPageEnd(s + k) <= |mem|
  {
  }

  /** The string starts in the first page, which is mapped to its end. */
  lemma FirstPage(mem: seq<Byte>, s: nat, len: nat, n: nat)
    requires Mapped(mem, s, len, n)
    ensures s < PGSIZE <= |mem| && PageOffset(s) == s && ToPageEnd(s) == PGSIZE - s
  {
    NextMapped(mem, s, len, n, 0);
  }

  /** Where an aligned block starts, at least the block is mapped. */
  lemma BlockMapped(mem: seq<Byte>, s: nat, len: nat, n: nat, k: nat)
    requires Mapped(mem, s, len, n) && k <= len && k < n && Aligned(s + k)
    ensures ToPageEnd(s + k) >= 32 && s + k + 32 <= |mem|
  {
    NextMapped(mem, s, len, n, k);
  }

  /** A load of `k` bytes at string offset `off`. */
  function Load(mem: seq<Byte>, s: nat, off: nat, k: nat): (v: seq<Byte>)
    requires s + off + k <= |mem|
    ensures |v| == k && forall i :: 0 <= i < k ==> v[i] == mem[s + off + i]
  { mem[s + off..s + off + k] }

  /** An aligned load of 32 bytes. */
  function LoadAligned(mem: seq<Byte>, s: nat, off: nat): (v: seq<Byte>)
    requires s + off + 32 <= |mem| && Aligned(s + off)
    ensures v == Load(mem, s, off, 32)
  { Load(mem, s, off, 32) }

  /** vpcmpeqb against zero. */
  function Nulls(v: seq<Byte>): (m: seq<bool>)
    ensures |m| == |v| && forall i :: 0 <= i < |v| ==> m[i] == (v[i] == 0)
  { seq(|v|, i requires 0 <= i < |v| => v[i] == 0) }

  /** vptest: some lane is set. */
  predicate Any(m: seq<bool>) { exists i :: 0 <= i < |m| && m[i] }

  /** vpmovmskb and tzcnt: the first set lane. */
  function FirstSet(m: seq<bool>): (i: nat)
    requires Any(m)
    ensures i < |m| && m[i] && forall j :: 0 <= j < i ==> !m[j]
  {
    if m[0] then 0
    else
      assert Any(m[1..]) by { var i :| 0 <= i < |m| && m[i]; assert m[1..][i - 1]; }
      1 + FirstSet(m[1..])
  }

  /** A register loaded at or before the terminator shows where it is, or that it lies further on. */
  lemma Window(mem: seq<Byte>, s: nat, len: nat, n: nat, off: nat, k: nat)
    requires Mapped(mem, s, len, n) && off <= len && s + off + k <= |mem|
    ensures var m := Nulls(Load(mem, s, off, k));
      if Any(m) then off + FirstSet(m) == len else off + k <= len
  {
    var m := Nulls(Load(mem, s, off, k));
    if len < off + k {
      assert m[len - off];
      var i := FirstSet(m);
      assert mem[s + (off + i)] == 0;
    } else {
      forall i | 0 <= i < k
        ensures !m[i]
      {
        assert mem[s + off + i] != 0;
      }
    }
  }
}
