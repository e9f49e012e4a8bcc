/** The tests run, thread by thread, and what their outcomes add up to in plain numbers. */
module ParSums {
  import opened ParModel
  import opened ParSplit
  import opened ParSafety
  import opened ParTotals

  /** The tests run by the first `n` threads. */
  function TestsRun(th: seq<Thread>, n: nat): seq<nat>
    requires n <= |th|
  { if n == 0 then [] else TestsRun(th, n - 1) + th[n - 1].ran }

  lemma TestsRunNext(th: seq<Thread>, n: nat)
    requires n < |th|
    ensures TestsRun(th, n + 1) == TestsRun(th, n) + th[n].ran
  {
  }

  lemma NoTestsRun(c: Config, th: seq<Thread>, own: seq<Counters>)
    ensures TestsRun(th, 0) == [] && SumTests(c, []) == ZERO == Sum(own, 0, 0)
  {
  }

  /** The tests among those of `ran` with failures. */
  ghost function Failing(c: Config, ran: seq<nat>): (s: set<nat>) { set x | x in ran && c.outcome(x).failures > 0 }

  lemma {:induction false} FailuresAre(c: Config, ran: seq<nat>, xs: seq<int>)
    requires |xs| == |ran| && forall i :: 0 <= i < |ran| ==> xs[i] == c.outcome(ran[i]).failures
    ensures SumTests(c, ran).failedAsserts == Total(xs)
  {
    if ran != [] { FailuresAre(c, ran[..|ran| - 1], xs[..|xs| - 1]); }
  }

  lemma {:induction false} AssertsAre(c: Config, ran: seq<nat>, xs: seq<int>)
    requires |xs| == |ran| && forall i :: 0 <= i < |ran| ==> xs[i] == c.outcome(ran[i]).asserts
    ensures SumTests(c, ran).asserts == Total(xs)
  {
    if ran != [] { AssertsAre(c, ran[..|ran| - 1], xs[..|xs| - 1]); }
  }

  ghost predicate NoneTwiceIn(ran: seq<nat>) { forall i, j :: 0 <= i < j < |ran| ==> ran[i] != ran[j] }

  lemma {:induction false} FailingAre(c: Config, ran: seq<nat>)
    requires NoneTwiceIn(ran)
    ensures SumTests(c, ran).failedTests == |Failing(c, ran)|
  {
    if ran == [] {
      assert Failing(c, ran) == {};
    } else {
      FailingAre(c, ran[..|ran| - 1]);
      OneMoreFailing(c, ran[..|ran| - 1], ran[|ran| - 1], ran);
    }
  }

  lemma OneMoreFailing(c: Config, less: seq<nat>, x: nat, ran: seq<nat>)
    requires ran == less + [x] && x !in less
    ensures |Failing(c, ran)| == |Failing(c, less)| + if c.outcome(x).failures > 0 then 1 else 0
  {
    assert Failing(c, ran) == Failing(c, less) + if c.outcome(x).failures > 0 then {x} else {};
  }

  lemma SumTestsSnoc(c: Config, ran: seq<nat>, x: nat)
    ensures SumTests(c, ran + [x]) == Plus(SumTests(c, ran), Adds(c.outcome(x)))
  {
    assert (ran + [x])[..|ran|] == ran;
  }

  lemma {:induction false} SumTestsConcat(c: Config, a: seq<nat>, b: seq<nat>)
    ensures SumTests(c, a + b) == Plus(SumTests(c, a), SumTests(c, b))
    decreases |b|, 0
  {
    if b == [] {
      assert a + b == a;
    } else {
      var b', x := b[..|b| - 1], b[|b| - 1];
      assert b == b' + [x] && a + b == (a + b') + [x];
      SumTestsMore(c, a, b', x);
    }
  }

  lemma SumTestsMore(c: Config, a: seq<nat>, b: seq<nat>, x: nat)
    ensures SumTests(c, (a + b) + [x]) == Plus(SumTests(c, a), SumTests(c, b + [x]))
    decreases |b|, 1
  {
    hide SumTests, Adds;
    SumTestsConcat(c, a, b);
    SumTestsSnoc(c, a + b, x);
    SumTestsSnoc(c, b, x);
  }

  /** The counters of the first `n` threads add up to those of the tests they ran. */
  lemma {:induction false} OwnTotal(c: Config, s: State, n: nat)
    requires ValidConfig(c) && Shaped(c, s) && n <= c.jobs
    ensures Sum(Own(c, s), 0, n) == SumTests(c, TestsRun(s.th, n))
  {
    hide SumTests, Plus, Own, TestsRun;
    NoTestsRun(c, s.th, Own(c, s));
    if n > 0 {
      OwnTotal(c, s, n - 1);
      OwnAt(c, s);
      TestsRunNext(s.th, n - 1);
      SumTestsConcat(c, TestsRun(s.th, n - 1), s.th[n - 1].ran);
    }
  }

  /** Threads run tests of their own blocks, so no test is run twice. */
  lemma {:induction false} NoneRunTwice(c: Config, s: State, n: nat)
    requires ValidConfig(c) && Shaped(c, s) && n <= c.jobs && Blocks(c, s)
    ensures NoneTwiceIn(TestsRun(s.th, n)) && forall x :: x in TestsRun(s.th, n) ==> x < BlockStart(c, n)
  {
    if n > 0 {
      hide BlockSize, BlockStart;
      NoneRunTwice(c, s, n - 1);
      assert RanOk(c, n - 1, s.th[n - 1]);
      BlockStartNext(c, n - 1);
      var less, ran := TestsRun(s.th, n - 1), s.th[n - 1].ran;
      assert forall i :: 0 <= i < |ran| ==> ran[i] == BlockStart(c, n - 1) + i;
      forall i, j | 0 <= i < j < |less + ran|
        ensures (less + ran)[i] != (less + ran)[j]
      {
        if i < |less| { assert less[i] in less; }
      }
    }
  }

  lemma RangeConcat(x: nat, k: nat)
    ensures Range(0, x + k) == Range(0, x) + Range(x, k)
  {
  }

  /** Full blocks, one after the other, are all tests in order. */
  lemma {:induction false} FullBlocks(c: Config, th: seq<Thread>, n: nat)
    requires ValidConfig(c) && n <= c.jobs <= |th|
    requires forall t :: 0 <= t < n ==> th[t].ran == Range(BlockStart(c, t), BlockSize(c, t))
    ensures TestsRun(th, n) == Range(0, BlockStart(c, n))
  {
    hide BlockSize, BlockStart, TestsRun;
    if n > 0 {
      FullBlocks(c, th, n - 1);
      TestsRunNext(th, n - 1);
      BlockStartNext(c, n - 1);
      RangeConcat(BlockStart(c, n - 1), BlockSize(c, n - 1));
    } else {
      NoTestsRun(c, th, []);
      FirstBlock(c);
    }
  }

  lemma FirstBlock(c: Config)
    requires c.jobs > 0
    ensures BlockStart(c, 0) == 0 && Range(0, 0) == []
  {
  }
}
