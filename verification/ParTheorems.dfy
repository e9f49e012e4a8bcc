/** The theorems about the runner, for every schedule. */
module ParTheorems {
  import opened ParModel
  import opened Wrappers
  import opened ParSplit
  import opened ParSafety
  import opened ParSums
  import opened ParTotals

  // ---------------------------------------------------------------- stopping early

  /** The flag is only set in fail-fast runs, and a thread starts at most one test after it is set. */
  ghost predicate FailFast(c: Config, s: State)
    requires ValidConfig(c) && Shaped(c, s)
  {
    && (s.abort ==> c.failFast)
    && (forall t :: 0 <= t < c.jobs ==> LateOk(c, s.abort, s.th[t]))
  }

  predicate LateOk(c: Config, abort: bool, me: Thread) {
    && me.late <= 1 && (me.late > 0 ==> abort && !me.pc.Loop? && me.ran != [])
    && (me.pc.SetAbort? ==> c.failFast)
  }

  lemma FailFastStep(c: Config, s: State, t: nat)
    requires ValidConfig(c) && Shaped(c, s) && t < c.jobs && Exec(c, s, t).Some?
    requires Blocks(c, s) && FailFast(c, s)
    ensures Shaped(c, Exec(c, s, t).value) && FailFast(c, Exec(c, s, t).value)
  {
    hide BlockSize, BlockStart, Off;
    StepOthers(c, s, t);
    var s' := Exec(c, s, t).value;
    assert RanOk(c, t, s.th[t]) && LateOk(c, s.abort, s.th[t]);
    assert LateOk(c, s'.abort, s'.th[t]);
  }

  /** No test of the run gives a reason to stop early. */
  ghost predicate AllGood(c: Config) { forall x :: 0 <= x < c.records ==> Good(c, c.outcome(x)) }

  /** The thread is through with its tests. */
  predicate Past(pc: Pc) {
    match pc
    case WantLock(_, last) => last
    case Print(_, _, last) => last
    case Arrive(b) => b > 0
    case Wait(b) => b > 0
    case Reduce(_, _) => true
    case Done => true
    case _ => false
  }

  predicate FullOk(c: Config, t: nat, me: Thread)
    requires ValidConfig(c)
  { !me.pc.SetAbort? && (Past(me.pc) ==> |me.ran| == BlockSize(c, t)) }

  ghost predicate Complete(c: Config, s: State)
    requires ValidConfig(c) && Shaped(c, s)
  { AllGood(c) ==> !s.abort && forall t :: 0 <= t < c.jobs ==> FullOk(c, t, s.th[t]) }

  lemma InRecords(c: Config, t: nat, i: nat)
    requires ValidConfig(c) && t < c.jobs && i < BlockSize(c, t)
    ensures BlockStart(c, t) + i < c.records
  {
    hide BlockSize;
    BlocksFair(c, 0, 0);
    BlockStartNext(c, t);
    BlockStartMono(c, t + 1, c.jobs);
  }

  lemma StepFull(c: Config, s: State, t: nat)
    requires ValidConfig(c) && Shaped(c, s) && t < c.jobs && Exec(c, s, t).Some?
    requires RanOk(c, t, s.th[t]) && FullOk(c, t, s.th[t]) && !s.abort
    requires Phase(c, s.th[t].pc) > 0 ==> BlockKnown(c, s, t)
    requires s.th[t].pc.Append? ==> Good(c, c.outcome(s.start[t] + s.th[t].pc.i))
    ensures var s' := Exec(c, s, t).value; |s'.th| == c.jobs && !s'.abort && FullOk(c, t, s'.th[t])
  {
    hide BlockSize, BlockStart, Off;
  }

  lemma CompleteStep(c: Config, s: State, t: nat)
    requires ValidConfig(c) && Shaped(c, s) && t < c.jobs && Exec(c, s, t).Some?
    requires Sync(c, s) && Blocks(c, s) && Complete(c, s)
    ensures Shaped(c, Exec(c, s, t).value) && Complete(c, Exec(c, s, t).value)
  {
    hide Exec, BlockSize, BlockStart, RanOk, FullOk;
    StepOthers(c, s, t);
    if AllGood(c) {
      assert RanOk(c, t, s.th[t]) && FullOk(c, t, s.th[t]);
      if Phase(c, s.th[t].pc) > 0 { SplitComplete(c, s, t); }
      if s.th[t].pc.Append? {
        AppendInBlock(c, t, s.th[t]);
        InRecords(c, t, s.th[t].pc.i);
      }
      StepFull(c, s, t);
    }
  }

  lemma AppendInBlock(c: Config, t: nat, me: Thread)
    requires ValidConfig(c) && RanOk(c, t, me) && me.pc.Append?
    ensures me.pc.i < BlockSize(c, t)
  {
  }

  // ---------------------------------------------------------------- why a thread stops

  /** The last test a thread started gives a reason to stop. */
  predicate LastBad(c: Config, me: Thread) { me.ran != [] && !Good(c, c.outcome(me.ran[|me.ran| - 1])) }

  /** Only the last test of a thread may be a bad one, and a thread that is through before its block is either
      had one or saw the abort flag. */
  ghost predicate ReasonOk(c: Config, t: nat, abort: bool, me: Thread)
    requires ValidConfig(c)
  {
    && (forall i :: 0 <= i < |me.ran| - 1 ==> Good(c, c.outcome(me.ran[i])))
    && (me.pc.Loop? || me.pc.ReadAbort? ==> !LastBad(c, me))
    && (me.pc.SetAbort? ==> LastBad(c, me))
    && (Past(me.pc) && |me.ran| < BlockSize(c, t) ==> LastBad(c, me) || (abort && me.ran != []))
    && (c.failFast && Past(me.pc) && LastBad(c, me) ==> abort)
  }

  ghost predicate Reasons(c: Config, s: State)
    requires ValidConfig(c) && Shaped(c, s)
  {
    && (forall t :: 0 <= t < c.jobs ==> ReasonOk(c, t, s.abort, s.th[t]))
    && (s.abort ==> exists t :: 0 <= t < c.jobs && Past(s.th[t].pc) && LastBad(c, s.th[t]))
  }

  lemma ReasonLater(c: Config, t: nat, me: Thread)
    requires ValidConfig(c) && ReasonOk(c, t, false, me)
    ensures ReasonOk(c, t, true, me)
  {
  }

  /** A thread keeps its tests, but for the one it may start at the head of the loop. */
  lemma StepReason(c: Config, s: State, t: nat)
    requires ValidConfig(c) && Shaped(c, s) && t < c.jobs && Exec(c, s, t).Some? && RanOk(c, t, s.th[t])
    requires Phase(c, s.th[t].pc) > 0 ==> BlockKnown(c, s, t)
    requires ReasonOk(c, t, s.abort, s.th[t])
    ensures var s' := Exec(c, s, t).value;
      && |s'.th| == c.jobs && ReasonOk(c, t, s'.abort, s'.th[t]) && (s.abort ==> s'.abort)
      && (s'.abort && !s.abort ==> Past(s'.th[t].pc) && LastBad(c, s'.th[t]))
      && (Past(s.th[t].pc) ==> Past(s'.th[t].pc) && s'.th[t].ran == s.th[t].ran)
  {
    hide RanOk, ReasonOk, BlockKnown, Exec;
    if s.th[t].pc.Append? {
      StepReasonAppend(c, s, t);
    } else if s.th[t].pc.Loop? {
      StepReasonLoop(c, s, t);
    } else if s.th[t].pc.Arrive? || s.th[t].pc.Wait? {
      StepReasonBarrier(c, s, t);
    } else {
      StepReasonRest(c, s, t);
    }
  }

  lemma StepReasonAppend(c: Config, s: State, t: nat)
    requires ValidConfig(c) && Shaped(c, s) && t < c.jobs && Exec(c, s, t).Some? && RanOk(c, t, s.th[t])
    requires BlockKnown(c, s, t) && ReasonOk(c, t, s.abort, s.th[t]) && s.th[t].pc.Append?
    ensures var s' := Exec(c, s, t).value;
      |s'.th| == c.jobs && ReasonOk(c, t, s'.abort, s'.th[t]) && s'.abort == s.abort
  {
    hide BlockSize, BlockStart;
    var me := s.th[t];
    assert me.ran[|me.ran| - 1] == s.start[t] + me.pc.i;
  }

  lemma StepReasonLoop(c: Config, s: State, t: nat)
    requires ValidConfig(c) && Shaped(c, s) && t < c.jobs && Exec(c, s, t).Some? && RanOk(c, t, s.th[t])
    requires BlockKnown(c, s, t) && ReasonOk(c, t, s.abort, s.th[t]) && s.th[t].pc.Loop?
    ensures var s' := Exec(c, s, t).value;
      |s'.th| == c.jobs && ReasonOk(c, t, s'.abort, s'.th[t]) && s'.abort == s.abort
  {
    hide BlockSize, BlockStart;
  }

  lemma StepReasonBarrier(c: Config, s: State, t: nat)
    requires ValidConfig(c) && Shaped(c, s) && t < c.jobs && Exec(c, s, t).Some? && RanOk(c, t, s.th[t])
    requires ReasonOk(c, t, s.abort, s.th[t]) && (s.th[t].pc.Arrive? || s.th[t].pc.Wait?)
    ensures var s' := Exec(c, s, t).value;
      && |s'.th| == c.jobs && ReasonOk(c, t, s'.abort, s'.th[t]) && s'.abort == s.abort
      && (Past(s.th[t].pc) ==> Past(s'.th[t].pc)) && s'.th[t].ran == s.th[t].ran
  {
    hide BlockSize, BlockStart, Off, Verdict;
  }

  lemma StepReasonRest(c: Config, s: State, t: nat)
    requires ValidConfig(c) && Shaped(c, s) && t < c.jobs && Exec(c, s, t).Some? && RanOk(c, t, s.th[t])
    requires var pc := s.th[t].pc; !pc.Append? && !pc.Loop? && !pc.Arrive? && !pc.Wait?
    requires ReasonOk(c, t, s.abort, s.th[t])
    ensures var s' := Exec(c, s, t).value;
      && |s'.th| == c.jobs && ReasonOk(c, t, s'.abort, s'.th[t]) && (s.abort ==> s'.abort)
      && (s'.abort && !s.abort ==> Past(s'.th[t].pc) && LastBad(c, s'.th[t]))
      && (Past(s.th[t].pc) ==> Past(s'.th[t].pc)) && s'.th[t].ran == s.th[t].ran
  {
    hide BlockSize, BlockStart, Off, AfterBarrier, Verdict, Range;
  }

  lemma ReasonsStep(c: Config, s: State, t: nat)
    requires ValidConfig(c) && Shaped(c, s) && t < c.jobs && Exec(c, s, t).Some?
    requires Sync(c, s) && Blocks(c, s) && Reasons(c, s)
    ensures Shaped(c, Exec(c, s, t).value) && Reasons(c, Exec(c, s, t).value)
  {
    hide Exec, BlockSize, BlockStart, RanOk, ReasonOk;
    StepOthers(c, s, t);
    assert RanOk(c, t, s.th[t]) && ReasonOk(c, t, s.abort, s.th[t]);
    if Phase(c, s.th[t].pc) > 0 { SplitComplete(c, s, t); }
    StepReason(c, s, t);
    var s' := Exec(c, s, t).value;
    forall u | 0 <= u < c.jobs
      ensures ReasonOk(c, u, s'.abort, s'.th[u])
    {
      if u != t {
        assert ReasonOk(c, u, s.abort, s.th[u]);
        if s.abort != s'.abort { ReasonLater(c, u, s.th[u]); }
      }
    }
    if s.abort {
      var u :| 0 <= u < c.jobs && Past(s.th[u].pc) && LastBad(c, s.th[u]);
      assert Past(s'.th[u].pc) && LastBad(c, s'.th[u]);
    }
  }

  // ---------------------------------------------------------------- all schedules

  ghost predicate Inv(c: Config, s: State)
    requires ValidConfig(c) && Shaped(c, s)
  { Sync(c, s) && Blocks(c, s) && Printing(c, s) && Totals(c, s) && FailFast(c, s) && Complete(c, s) && Reasons(c, s) }

  lemma InvStart(c: Config)
    requires ValidConfig(c)
    ensures Shaped(c, Start(c)) && Inv(c, Start(c))
  {
    var s := Start(c);
    assert forall t :: 0 <= t < c.jobs ==> s.th[t] == Thread(if t == 1 then Collect(0, 0) else InitLog, [], [], 0);
    assert s.th[1].pc == Collect(0, 0);
    hide Reasons;
    ReasonsStart(c);
  }

  lemma ReasonsStart(c: Config)
    requires ValidConfig(c)
    ensures Shaped(c, Start(c)) && Reasons(c, Start(c))
  {
  }

  lemma InvStep(c: Config, s: State, t: nat)
    requires ValidConfig(c) && Shaped(c, s) && t < c.jobs && Inv(c, s) && Exec(c, s, t).Some?
    ensures Shaped(c, Exec(c, s, t).value) && Inv(c, Exec(c, s, t).value)
  {
    hide Exec, Sync, Blocks, Printing, Totals, FailFast, Complete, Reasons;
    SyncStep(c, s, t);
    BlocksStep(c, s, t);
    PrintingStep(c, s, t);
    TotalsStep(c, s, t);
    FailFastStep(c, s, t);
    CompleteStep(c, s, t);
    ReasonsStep(c, s, t);
  }

  lemma {:induction false} Invariant(c: Config, schedule: seq<nat>)
    requires ValidConfig(c)
    ensures Inv(c, Run(c, schedule))
  {
    hide Inv, Exec;
    if schedule == [] {
      InvStart(c);
    } else {
      var before := Run(c, schedule[..|schedule| - 1]);
      var t := schedule[|schedule| - 1];
      Invariant(c, schedule[..|schedule| - 1]);
      if t < c.jobs && Exec(c, before, t).Some? { InvStep(c, before, t); }
    }
  }

  predicate AllDone(c: Config, s: State)
    requires Shaped(c, s)
  { forall t :: 0 <= t < c.jobs ==> s.th[t].pc == Done }

  /** However the threads interleave, once thread 0 is through the reduction its counters are those of the tests run
      by all threads: the numbers of failed assertions and of assertions are added up, the tests with failures are
      counted, and no test is run twice. */
  lemma ReductionTotal(c: Config, schedule: seq<nat>)
    requires ValidConfig(c) && Run(c, schedule).th[0].pc == Done
    ensures var s := Run(c, schedule);
      var ran := TestsRun(s.th, c.jobs);
      && s.logs[0].failedAsserts == Total(seq(|ran|, i requires 0 <= i < |ran| => c.outcome(ran[i]).failures))
      && s.logs[0].asserts == Total(seq(|ran|, i requires 0 <= i < |ran| => c.outcome(ran[i]).asserts))
      && s.logs[0].failedTests == |set x | x in ran && c.outcome(x).failures > 0|
      && forall i, j :: 0 <= i < j < |ran| ==> ran[i] != ran[j]
  {
    hide Run, Folded, Sum, SumTests, TestsRun, Total, Rounds, Own, BlockStart;
    Invariant(c, schedule);
    var s := Run(c, schedule);
    assert s.logs[0] == Slot(c, Own(c, s), s.th[0], 0);
    OwnIdle(c, s);
    ReductionSum(c, Own(c, s));
    OwnTotal(c, s, c.jobs);
    NoneRunTwice(c, s, c.jobs);
    var ran := TestsRun(s.th, c.jobs);
    FailuresAre(c, ran, seq(|ran|, i requires 0 <= i < |ran| => c.outcome(ran[i]).failures));
    AssertsAre(c, ran, seq(|ran|, i requires 0 <= i < |ran| => c.outcome(ran[i]).asserts));
    FailingAre(c, ran);
  }

  lemma OwnIdle(c: Config, s: State)
    requires ValidConfig(c) && Shaped(c, s)
    ensures forall t :: c.jobs <= t < SLOTS ==> Own(c, s)[t] == ZERO
  {
  }

  lemma AllTests(c: Config)
    ensures var ran := Range(0, c.records);
      && seq(|ran|, i requires 0 <= i < |ran| => c.outcome(ran[i]).failures)
         == seq(c.records, x requires 0 <= x < c.records => c.outcome(x).failures)
      && seq(|ran|, i requires 0 <= i < |ran| => c.outcome(ran[i]).asserts)
         == seq(c.records, x requires 0 <= x < c.records => c.outcome(x).asserts)
      && (set x | x in ran && c.outcome(x).failures > 0)
         == (set x | 0 <= x < c.records && c.outcome(x).failures > 0)
  {
    forall x: nat
      ensures x in Range(0, c.records) <==> x < c.records
    {
      InRange(0, c.records, x);
    }
  }

  /** If no test is fatal, and in a fail-fast run none has failures, every record is run by exactly one thread, each
      thread runs its whole block in order, and the final counters are those of all records. */
  lemma EveryTestOnce(c: Config, schedule: seq<nat>)
    requires ValidConfig(c) && AllDone(c, Run(c, schedule))
    requires forall x :: 0 <= x < c.records ==>
      !c.outcome(x).fatal && (c.failFast ==> c.outcome(x).failures == 0)
    ensures var s := Run(c, schedule);
      && (forall t :: 0 <= t < c.jobs ==> s.th[t].ran == Range(BlockStart(c, t), BlockSize(c, t)))
      && s.logs[0].failedAsserts == Total(seq(c.records, x requires 0 <= x < c.records => c.outcome(x).failures))
      && s.logs[0].asserts == Total(seq(c.records, x requires 0 <= x < c.records => c.outcome(x).asserts))
      && s.logs[0].failedTests == |set x | 0 <= x < c.records && c.outcome(x).failures > 0|
    ensures forall x :: 0 <= x < c.records ==> OneRunner(c, Run(c, schedule), x)
  {
    hide Run, BlockSize, BlockStart, Total;
    Invariant(c, schedule);
    var s := Run(c, schedule);
    forall t | 0 <= t < c.jobs
      ensures s.th[t].ran == Range(BlockStart(c, t), BlockSize(c, t))
    {
      assert FullOk(c, t, s.th[t]) && RanOk(c, t, s.th[t]);
    }
    ReductionTotal(c, schedule);
    FullBlocks(c, s.th, c.jobs);
    BlocksFair(c, 0, 0);
    AllTests(c);
    forall x | 0 <= x < c.records
      ensures OneRunner(c, s, x)
    {
      RunOnce(c, s, x);
    }
  }

  lemma RunOnce(c: Config, s: State, x: nat)
    requires ValidConfig(c) && Shaped(c, s) && x < c.records
    requires forall t :: 0 <= t < c.jobs ==> s.th[t].ran == Range(BlockStart(c, t), BlockSize(c, t))
    ensures OneRunner(c, s, x)
  {
    hide BlockSize, BlockStart;
    var i := BlocksTile(c, x);
    InRange(BlockStart(c, i), BlockSize(c, i), x);
    forall j | 0 <= j < c.jobs && x in s.th[j].ran
      ensures j == i
    {
      InRange(BlockStart(c, j), BlockSize(c, j), x);
    }
    assert x in s.th[i].ran;
  }

  ghost predicate OneRunner(c: Config, s: State, x: nat)
    requires Shaped(c, s)
  {
    && (exists i :: 0 <= i < c.jobs && x in s.th[i].ran)
    && (forall i, j :: 0 <= i < c.jobs && 0 <= j < c.jobs && x in s.th[i].ran && x in s.th[j].ran ==> i == j)
  }

  lemma InRange(a: nat, n: nat, x: nat)
    ensures x in Range(a, n) <==> a <= x < a + n
  {
    if a <= x < a + n { assert Range(a, n)[x - a] == x; }
  }

  /** Lines of which each thread's are a part of its block, in order, are about different tests. */
  lemma {:induction false} NoneTwice(c: Config, lines: seq<Line>)
    requires c.jobs > 0 && forall i :: 0 <= i < |lines| ==> lines[i].thread < c.jobs
    requires forall t :: 0 <= t < c.jobs ==> TestsOf(lines, t) <= Range(BlockStart(c, t), BlockSize(c, t))
    ensures forall i, j :: 0 <= i < j < |lines| ==> lines[i].test != lines[j].test
  {
    hide BlockSize, BlockStart, TestsOf;
    if lines != [] {
      var rest, last := lines[..|lines| - 1], lines[|lines| - 1];
      assert lines == rest + [last];
      forall t | 0 <= t < c.jobs
        ensures TestsOf(rest, t) <= Range(BlockStart(c, t), BlockSize(c, t))
      {
        TestsOfAppend(rest, last, t);
      }
      NoneTwice(c, rest);
      TestsOfAppend(rest, last, last.thread);
      var x, k := BlockStart(c, last.thread), |TestsOf(rest, last.thread)|;
      assert TestsOf(lines, last.thread)[k] == last.test == x + k;
      forall i | 0 <= i < |rest|
        ensures rest[i].test != last.test
      {
        var u := rest[i].thread;
        TestIn(rest, i);
        InRange(BlockStart(c, u), BlockSize(c, u), rest[i].test);
        InRange(x, BlockSize(c, last.thread), last.test);
        if rest[i].test == last.test { BlocksApart(c, u, last.thread, last.test); }
      }
    }
  }

  lemma {:induction false} TestIn(lines: seq<Line>, i: nat)
    requires i < |lines|
    ensures lines[i].test in TestsOf(lines, lines[i].thread)
  {
    var rest := lines[..|lines| - 1];
    if i < |rest| { TestIn(rest, i); }
  }

  lemma BlocksApart(c: Config, i: nat, j: nat, x: nat)
    requires c.jobs > 0 && i < c.jobs && j < c.jobs
    requires BlockStart(c, i) <= x < BlockStart(c, i) + BlockSize(c, i)
    requires BlockStart(c, j) <= x < BlockStart(c, j) + BlockSize(c, j)
    ensures i == j
  {
    if j < i { BlocksInOrder(c, j, i); }
    if i < j { BlocksInOrder(c, i, j); }
  }

  lemma BlocksInOrder(c: Config, i: nat, j: nat)
    requires c.jobs > 0 && i < j
    ensures BlockStart(c, i) + BlockSize(c, i) <= BlockStart(c, j)
  {
    hide BlockSize;
    BlockStartMono(c, i + 1, j);
  }

  lemma Prefixes(a: seq<nat>, b: seq<nat>, d: seq<nat>)
    requires a <= b <= d
    ensures a <= d
  {
  }

  /** Lines carry the indices 1, 2, 3, ... and the lines of each finished thread are exactly the tests it
      ran, in the order it ran them, none of them twice; at no time does a buffer hold more than 16 entries. */
  lemma PrintedOnce(c: Config, schedule: seq<nat>)
    requires ValidConfig(c)
    ensures var s := Run(c, schedule);
      && s.ioIndex == |s.printed|
      && (forall j :: 0 <= j < |s.printed| ==> s.printed[j].index == j + 1 && s.printed[j].thread < c.jobs)
      && (forall t :: 0 <= t < c.jobs ==> TestsOf(s.printed, t) <= s.th[t].ran && |s.th[t].buffer| <= BUFFER)
      && (forall t :: 0 <= t < c.jobs && s.th[t].pc == Done ==> TestsOf(s.printed, t) == s.th[t].ran)
      && (forall i, j :: 0 <= i < j < |s.printed| ==> s.printed[i].test != s.printed[j].test)
  {
    hide Run, TestsOf, BlockSize, BlockStart;
    Invariant(c, schedule);
    var s := Run(c, schedule);
    forall t | 0 <= t < c.jobs
      ensures TestsOf(s.printed, t) <= Range(BlockStart(c, t), BlockSize(c, t))
    {
      assert TestsOf(s.printed, t) + Pending(s.th[t]) == Logged(s.th[t]) && RanOk(c, t, s.th[t]);
      assert Logged(s.th[t]) <= s.th[t].ran <= Range(BlockStart(c, t), BlockSize(c, t));
      assert TestsOf(s.printed, t) <= Logged(s.th[t]);
      Prefixes(TestsOf(s.printed, t), Logged(s.th[t]), Range(BlockStart(c, t), BlockSize(c, t)));
    }
    NoneTwice(c, s.printed);
    forall t | 0 <= t < c.jobs
      ensures TestsOf(s.printed, t) <= s.th[t].ran && |s.th[t].buffer| <= BUFFER
      ensures s.th[t].pc == Done ==> TestsOf(s.printed, t) == s.th[t].ran
    {
      assert TestsOf(s.printed, t) + Pending(s.th[t]) == Logged(s.th[t]) && BufferOk(s.th[t]);
      assert Logged(s.th[t]) <= s.th[t].ran;
    }
  }

  /** The test that a thread started last. */
  function Last(me: Thread): (x: nat)
    requires me.ran != []
    ensures me.ran == me.ran[..|me.ran| - 1] + [x]
  { me.ran[|me.ran| - 1] }

  predicate Failed(o: Outcome) { o.fatal || o.failures > 0 }

  /** At all times each thread has run a prefix of its block, and no test of it but the last was fatal. In a fail-fast
      run none but the last had failures either; a thread whose last test failed or was fatal sets the flag before
      it goes on to anything else, and only such a thread does. A thread that is through with less than its block
      had a fatal test last; or, in a fail-fast run, one with failures, or the flag was set. Without fail-fast there
      is no flag, and failures alone never end a thread. */
  lemma StopsInTime(c: Config, schedule: seq<nat>)
    requires ValidConfig(c)
    ensures var s := Run(c, schedule);
      && (s.abort ==> c.failFast && exists t :: 0 <= t < c.jobs && Past(s.th[t].pc) && EndsFailed(c, s.th[t]))
      && (forall t :: 0 <= t < c.jobs ==>
        && s.th[t].ran <= Range(BlockStart(c, t), BlockSize(c, t))
        && StopsRight(c, s.th[t], s.abort, BlockSize(c, t)))
  {
    hide Run, BlockSize, BlockStart;
    Invariant(c, schedule);
    var s := Run(c, schedule);
    forall t | 0 <= t < c.jobs
      ensures s.th[t].ran <= Range(BlockStart(c, t), BlockSize(c, t))
      ensures StopsRight(c, s.th[t], s.abort, BlockSize(c, t))
    {
      assert RanOk(c, t, s.th[t]) && LateOk(c, s.abort, s.th[t]) && ReasonOk(c, t, s.abort, s.th[t]);
    }
    if s.abort {
      var t :| 0 <= t < c.jobs && Past(s.th[t].pc) && LastBad(c, s.th[t]);
      assert EndsFailed(c, s.th[t]);
    }
  }

  predicate EndsFailed(c: Config, me: Thread) { me.ran != [] && Failed(c.outcome(Last(me))) }

  /** What the outcomes of its tests, the flag and the size of its block say about a thread. */
  ghost predicate StopsRight(c: Config, me: Thread, abort: bool, block: nat) {
    && (forall i :: 0 <= i < |me.ran| - 1 ==> !c.outcome(me.ran[i]).fatal)
    && (c.failFast ==> forall i :: 0 <= i < |me.ran| - 1 ==> c.outcome(me.ran[i]).failures == 0)
    && (c.failFast && Past(me.pc) && EndsFailed(c, me) ==> abort)
    && (Past(me.pc) && |me.ran| < block ==>
         me.ran != [] && (c.outcome(Last(me)).fatal || (c.failFast && (c.outcome(Last(me)).failures > 0 || abort))))
  }

  /** In the end the flag of a fail-fast run tells whether any test fails, however the threads interleave: if none
      does, all have been run. */
  lemma FlagTells(c: Config, schedule: seq<nat>)
    requires ValidConfig(c) && c.failFast && AllDone(c, Run(c, schedule))
    ensures Run(c, schedule).abort <==> exists x :: 0 <= x < c.records && Failed(c.outcome(x))
  {
    hide Run, BlockSize, BlockStart;
    StopsInTime(c, schedule);
    var s := Run(c, schedule);
    if s.abort {
      var t :| 0 <= t < c.jobs && Past(s.th[t].pc) && EndsFailed(c, s.th[t]);
      InRecords(c, t, |s.th[t].ran| - 1);
      assert Last(s.th[t]) < c.records;
    } else {
      forall x | 0 <= x < c.records
        ensures !Failed(c.outcome(x))
      {
        var i := BlocksTile(c, x);
        assert StopsRight(c, s.th[i], s.abort, BlockSize(c, i));
        assert s.th[i].ran[x - BlockStart(c, i)] == x;
      }
    }
  }

  /** Once the flag is set, no thread starts more than one further test, whatever happens then. */
  lemma AtMostOneMore(c: Config, schedule: seq<nat>, more: seq<nat>)
    requires ValidConfig(c) && Run(c, schedule).abort
    ensures forall t :: 0 <= t < c.jobs ==>
      |Run(c, schedule).th[t].ran| <= |Run(c, schedule + more).th[t].ran| <= |Run(c, schedule).th[t].ran| + 1
  {
    hide Run;
    Invariant(c, schedule);
    Invariant(c, schedule + more);
    LateCounts(c, schedule, more);
    var s, s' := Run(c, schedule), Run(c, schedule + more);
    forall t | 0 <= t < c.jobs
      ensures |s.th[t].ran| <= |s'.th[t].ran| <= |s.th[t].ran| + 1
    {
      assert LateOk(c, s'.abort, s'.th[t]);
    }
  }

  /** After the flag is set, it stays set and every test started is counted as late. */
  lemma {:induction false} LateCounts(c: Config, schedule: seq<nat>, more: seq<nat>)
    requires ValidConfig(c) && Run(c, schedule).abort
    ensures var s, s' := Run(c, schedule), Run(c, schedule + more);
      s'.abort && forall t :: 0 <= t < c.jobs ==>
        s'.th[t].late >= s.th[t].late && s'.th[t].late - s.th[t].late == |s'.th[t].ran| - |s.th[t].ran|
    decreases |more|
  {
    hide Run, Exec;
    if more == [] {
      assert schedule + more == schedule;
    } else {
      var less, u := more[..|more| - 1], more[|more| - 1];
      LateCounts(c, schedule, less);
      assert schedule + more == (schedule + less) + [u];
      RunSnoc(c, schedule + less, u);
      var s := Run(c, schedule + less);
      if u < c.jobs && Exec(c, s, u).Some? {
        StepLate(c, s, u);
        StepOthers(c, s, u);
      }
    }
  }

  lemma RunSnoc(c: Config, schedule: seq<nat>, t: nat)
    requires ValidConfig(c)
    ensures var s := Run(c, schedule);
      Run(c, schedule + [t]) == if t < c.jobs && Exec(c, s, t).Some? then Exec(c, s, t).value else s
  {
    hide Exec;
    assert (schedule + [t])[..|schedule|] == schedule;
  }

  lemma StepLate(c: Config, s: State, t: nat)
    requires ValidConfig(c) && Shaped(c, s) && t < c.jobs && Exec(c, s, t).Some? && s.abort
    ensures var s' := Exec(c, s, t).value;
      && |s'.th| == c.jobs && s'.abort
      && s'.th[t].late - s.th[t].late == |s'.th[t].ran| - |s.th[t].ran| >= 0
  {
    hide BlockSize, Off, AfterBarrier, Verdict;
  }

  // ---------------------------------------------------------------- no deadlock

  /** Unless every thread has returned, some thread can step: none is left waiting at a barrier, the lock
      is never orphaned, and no reduction step leaves the slot array. */
  lemma Progress(c: Config, s: State) returns (t: nat)
    requires ValidConfig(c) && Shaped(c, s) && Inv(c, s) && !AllDone(c, s)
    ensures t < c.jobs && Exec(c, s, t).Some?
  {
    hide Exec, Blocks, Totals, FailFast, Complete, BlockSize, Off;
    t :| 0 <= t < c.jobs && s.th[t].pc != Done;
    assert InStep(c, s.th[t].pc, s.gen);
    if s.th[t].pc == Wait(s.gen) {
      t := SomeoneOutside(c, s);
      assert InStep(c, s.th[t].pc, s.gen);
      NotDone(c, s, t);
    }
    if s.th[t].pc.WantLock? && s.holder.Some? {
      t := s.holder.value;
      assert s.th[t].pc.Print?;
    }
    Enabled(c, s, t);
  }

  /** If someone waits for the current barrier, someone else has not reached it. */
  lemma SomeoneOutside(c: Config, s: State) returns (t: nat)
    requires ValidConfig(c) && Shaped(c, s) && Sync(c, s)
    ensures t < c.jobs && s.th[t].pc != Wait(s.gen)
  {
    IdsAre(c.jobs);
    if Ids(c.jobs) <= s.arrived {
      Included(Ids(c.jobs), s.arrived);
      assert false;
    }
    t :| t in Ids(c.jobs) && t !in s.arrived;
  }

  /** Threads return together: none is done while another waits for a barrier yet to come. */
  lemma NotDone(c: Config, s: State, t: nat)
    requires ValidConfig(c) && Shaped(c, s) && Sync(c, s) && t < c.jobs
    requires exists u :: 0 <= u < c.jobs && s.th[u].pc == Wait(s.gen)
    ensures s.th[t].pc != Done
  {
    var u :| 0 <= u < c.jobs && s.th[u].pc == Wait(s.gen);
    assert InStep(c, s.th[u].pc, s.gen) && InStep(c, s.th[t].pc, s.gen);
  }

  /** What it takes for a thread to be able to step. */
  lemma Enabled(c: Config, s: State, t: nat)
    requires ValidConfig(c) && Shaped(c, s) && t < c.jobs && s.th[t].pc != Done
    requires InStep(c, s.th[t].pc, s.gen) && s.th[t].pc != Wait(s.gen)
    requires s.th[t].pc.WantLock? ==> s.holder == None
    requires Totals(c, s)
    ensures Exec(c, s, t).Some?
  {
    hide BlockSize;
    if s.th[t].pc.Reduce? { Offsets(c, s.th[t].pc.r); }
  }
}
