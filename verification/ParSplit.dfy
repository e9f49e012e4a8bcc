/** The work split: contiguous blocks that tile the records, and the reduction as a fold over values. */
module ParSplit {
  import opened ParModel
  import opened Wrappers
  import opened Bits

  function BlockStart(c: Config, i: nat): nat
    requires c.jobs > 0
  { if i == 0 then 0 else BlockStart(c, i - 1) + BlockSize(c, i - 1) }

  lemma {:induction false} BlockStartClosed(c: Config, i: nat)
    requires 0 < c.jobs && i <= c.jobs
    ensures BlockStart(c, i) == i * (c.records / c.jobs) + (if i < c.records % c.jobs then i else c.records % c.jobs)
  {
    if i > 0 {
      BlockStartClosed(c, i - 1);
      Times(i, c.records / c.jobs);
      hide BlockSize;
      assert BlockSize(c, i - 1) == c.records / c.jobs + (if i - 1 < c.records % c.jobs then 1 else 0) by {
        BlockSizeIs(c, i - 1);
      }
    }
  }

  lemma BlockSizeIs(c: Config, i: nat)
    requires 0 < c.jobs
    ensures BlockSize(c, i) == c.records / c.jobs + (if i < c.records % c.jobs then 1 else 0)
  {
  }

  lemma Times(i: nat, q: nat)
    requires i > 0
    ensures i * q == (i - 1) * q + q
  {
  }

  lemma {:induction false} BlockStartMono(c: Config, i: nat, j: nat)
    requires c.jobs > 0 && i <= j
    ensures BlockStart(c, i) <= BlockStart(c, j)
  {
    if i < j { BlockStartMono(c, i, j - 1); }
  }

  /** Nothing is left over, and no block is larger than another by more than one, or than an earlier one at all. */
  lemma BlocksFair(c: Config, i: nat, j: nat)
    requires c.jobs > 0
    ensures BlockStart(c, c.jobs) == c.records
    ensures BlockSize(c, i) <= BlockSize(c, j) + 1
    ensures i <= j ==> BlockSize(c, j) <= BlockSize(c, i)
  {
    BlockStartClosed(c, c.jobs);
    assert c.jobs * (c.records / c.jobs) + c.records % c.jobs == c.records;
  }

  /** The blocks tile [0, records): every index lies in exactly one. */
  lemma BlocksTile(c: Config, x: nat) returns (i: nat)
    requires c.jobs > 0 && x < c.records
    ensures i < c.jobs && BlockStart(c, i) <= x < BlockStart(c, i) + BlockSize(c, i)
    ensures forall j :: 0 <= j < c.jobs && BlockStart(c, j) <= x < BlockStart(c, j) + BlockSize(c, j) ==> j == i
  {
    hide BlockSize;
    BlocksFair(c, 0, 0);
    i := 0;
    while BlockStart(c, i + 1) <= x
      invariant i < c.jobs && BlockStart(c, i) <= x
      decreases c.jobs - i
    {
      if i + 1 == c.jobs { assert false; }
      i := i + 1;
    }
    forall j | 0 <= j < c.jobs && BlockStart(c, j) <= x < BlockStart(c, j) + BlockSize(c, j)
      ensures j == i
    {
      if j < i { BlockStartMono(c, j + 1, i); }
      if i < j { BlockStartMono(c, i + 1, j); }
    }
  }

  // ---------------------------------------------------------------- the reduction

  /** Number of rounds: the first one with offset zero. */
  function Rounds(c: Config): nat { if c.jobs < 4 then 2 else if c.jobs < 8 then 3 else if c.jobs < 16 then 4 else 5 }

  lemma Offsets(c: Config, r: nat)
    requires ValidConfig(c)
    ensures Off(c, r) > 0 <==> r < Rounds(c)
    ensures r + 1 < Rounds(c) ==> Off(c, r) == 2 * Off(c, r + 1)
    ensures Off(c, 0) <= c.jobs < 2 * Off(c, 0) <= SLOTS
    ensures 2 * Off(c, r) <= SLOTS && Off(c, r) <= c.jobs && (r + 1 == Rounds(c) ==> Off(c, r) == 1)
  {
    hide First, Halved;
    FirstIs(c);
    HalvedAre(First(c));
    if r > 5 { HalvedZero(First(c), r); }
    if r + 1 > 5 { HalvedZero(First(c), r + 1); }
  }

  lemma HalvedAre(n: nat)
    ensures Halved(n, 0) == n
    ensures Halved(n, 1) == n / 2
    ensures Halved(n, 2) == n / 2 / 2
    ensures Halved(n, 3) == n / 2 / 2 / 2
    ensures Halved(n, 4) == n / 2 / 2 / 2 / 2
    ensures Halved(n, 5) == n / 2 / 2 / 2 / 2 / 2
  {
  }

  lemma HalvedZero(n: nat, r: nat)
    requires r >= 5 && Halved(n, 5) == 0
    ensures Halved(n, r) == 0
  {
    if r > 5 { HalvedZero(n, r - 1); }
  }

  /** Does every thread that takes part in a round with offset `off` read a slot that exists? */
  predicate InSlots(off: nat) { forall t :: 0 <= t < off ==> Reads(t, off) < SLOTS }

  /** The slot thread `t` reads in a round with offset `off`. */
  function Reads(t: nat, off: nat): nat { t + off }

  lemma FloorSlots()
    ensures Flp232(SLOTS as bv32) as nat == SLOTS
  {
  }

  /** With 32 threads the first round would read past the last slot; with fewer no round ever does. */
  lemma SlotsSuffice(c: Config)
    requires 2 <= c.jobs <= SLOTS
    ensures (forall r :: 0 <= r ==> InSlots(Off(c, r))) <==> c.jobs < SLOTS
  {
    hide Flp232;
    assert c.jobs % 0x1_0000_0000 == c.jobs;
    if c.jobs == SLOTS {
      FloorSlots();
      assert Reads(0, SLOTS) >= SLOTS;
      assert !InSlots(Off(c, 0));
    } else {
      FirstIs(c);
      forall r | 0 <= r
        ensures InSlots(Off(c, r))
      {
        HalvedShrinks(First(c), r);
      }
    }
  }

  lemma HalvedShrinks(n: nat, r: nat)
    ensures Halved(n, r) <= n
  {
  }

  /** All slots after one round with offset `h`. */
  function RoundOf(s: seq<Counters>, h: nat): seq<Counters>
    requires 2 * h <= |s|
  { seq(|s|, t requires 0 <= t < |s| => if t < h then Plus(s[t], s[t + h]) else s[t]) }

  function Sum(s: seq<Counters>, a: nat, b: nat): Counters
    requires a <= b <= |s|
  { if a == b then ZERO else Plus(Sum(s, a, b - 1), s[b - 1]) }

  function Total(xs: seq<int>): int { if xs == [] then 0 else Total(xs[..|xs| - 1]) + xs[|xs| - 1] }

  /** A sum of counters adds up each counter by itself. */
  lemma {:induction false} SumIsTotal(s: seq<Counters>, n: nat, asserts: seq<int>, tests: seq<int>, all: seq<int>)
    requires n <= |s| && |asserts| == |tests| == |all| == n
    requires forall t :: 0 <= t < n ==>
      asserts[t] == s[t].failedAsserts && tests[t] == s[t].failedTests && all[t] == s[t].asserts
    ensures var r := Sum(s, 0, n);
      r.failedAsserts == Total(asserts) && r.failedTests == Total(tests) && r.asserts == Total(all)
  {
    if n > 0 { SumIsTotal(s, n - 1, asserts[..n - 1], tests[..n - 1], all[..n - 1]); }
  }

  lemma {:induction false} SumConcat(s: seq<Counters>, a: nat, b: nat, d: nat)
    requires a <= b <= d <= |s|
    ensures Sum(s, a, d) == Plus(Sum(s, a, b), Sum(s, b, d))
  {
    if b < d { SumConcat(s, a, b, d - 1); }
  }

  lemma PlusSwap(a: Counters, b: Counters, x: Counters, y: Counters)
    ensures Plus(Plus(a, b), Plus(x, y)) == Plus(Plus(a, x), Plus(b, y))
  {
  }

  lemma PlusZero(a: Counters)
    ensures Plus(ZERO, a) == a == Plus(a, ZERO)
  {
  }

  lemma {:induction false} SumRound(s: seq<Counters>, h: nat, n: nat)
    requires 2 * h <= |s| && n <= h
    ensures Sum(RoundOf(s, h), 0, n) == Plus(Sum(s, 0, n), Sum(s, h, h + n))
  {
    hide Plus;
    if n > 0 {
      SumRound(s, h, n - 1);
      assert Sum(s, h, h + n) == Plus(Sum(s, h, h + n - 1), s[h + n - 1]);
      PlusSwap(Sum(s, 0, n - 1), Sum(s, h, h + n - 1), s[n - 1], s[h + n - 1]);
    } else {
      assert Plus(ZERO, ZERO) == ZERO by { PlusZero(ZERO); }
    }
  }

  lemma {:induction false} SumIdle(s: seq<Counters>, n: nat, m: nat)
    requires n <= m <= |s| && forall t :: n <= t < m ==> s[t] == ZERO
    ensures Sum(s, 0, m) == Sum(s, 0, n)
  {
    if n < m { SumIdle(s, n, m - 1); }
  }

  /** All slots after `r` rounds, when `own` are the counters at the start. */
  function Folded(c: Config, own: seq<Counters>, r: nat): (f: seq<Counters>)
    requires ValidConfig(c) && |own| == SLOTS
    ensures |f| == SLOTS
  {
    if r == 0 then own
    else
      Offsets(c, r - 1);
      RoundOf(Folded(c, own, r - 1), Off(c, r - 1))
  }

  lemma {:induction false} FoldedSum(c: Config, own: seq<Counters>, r: nat)
    requires ValidConfig(c) && |own| == SLOTS && r < Rounds(c)
    ensures 2 * Off(c, 0) <= SLOTS && Off(c, r) <= SLOTS
    ensures Sum(Folded(c, own, r + 1), 0, Off(c, r)) == Sum(own, 0, 2 * Off(c, 0))
  {
    hide Off, Sum;
    Offsets(c, r);
    var s, h := Folded(c, own, r), Off(c, r);
    SumRound(s, h, h);
    SumConcat(s, 0, h, 2 * h);
    if r > 0 {
      Offsets(c, r - 1);
      FoldedSum(c, own, r - 1);
    }
  }

  lemma ReductionSum(c: Config, own: seq<Counters>)
    requires ValidConfig(c) && |own| == SLOTS && forall t :: c.jobs <= t < SLOTS ==> own[t] == ZERO
    ensures Folded(c, own, Rounds(c))[0] == Sum(own, 0, c.jobs)
  {
    hide Off, Folded;
    var R := Rounds(c);
    Offsets(c, R - 1);
    FoldedSum(c, own, R - 1);
    var f := Folded(c, own, R);
    assert Sum(f, 0, 1) == Plus(Sum(f, 0, 0), f[0]) == f[0];
    SumIdle(own, c.jobs, 2 * Off(c, 0));
  }

  /** The halving reduction leaves the sum over all threads in slot 0: it starts at a power of two that
      covers every thread, and the slots above are zero. */
  lemma ReductionSums(c: Config, own: seq<Counters>)
    requires ValidConfig(c) && |own| == SLOTS && forall t :: c.jobs <= t < SLOTS ==> own[t] == ZERO
    ensures var r := Folded(c, own, Rounds(c))[0];
      && r.failedAsserts == Total(seq(c.jobs, t requires 0 <= t < c.jobs => own[t].failedAsserts))
      && r.failedTests == Total(seq(c.jobs, t requires 0 <= t < c.jobs => own[t].failedTests))
      && r.asserts == Total(seq(c.jobs, t requires 0 <= t < c.jobs => own[t].asserts))
  {
    hide Off, Folded, Sum, Rounds, Total;
    ReductionSum(c, own);
    SumIsTotal(own, c.jobs, seq(c.jobs, t requires 0 <= t < c.jobs => own[t].failedAsserts),
               seq(c.jobs, t requires 0 <= t < c.jobs => own[t].failedTests),
               seq(c.jobs, t requires 0 <= t < c.jobs => own[t].asserts));
  }
}
