/** Every run of the runner is finite and, as long as some thread is given a turn, ends with all threads
    returned. */
module ParTermination {
  import opened ParModel
  import opened Wrappers
  import opened ParSplit
  import opened ParSafety
  import opened ParTotals
  import opened ParTheorems

  /** An upper bound on the steps a thread has left. */
  function Rank(c: Config, t: nat, me: Thread): int
    requires ValidConfig(c)
  {
    var top := 6 * Rounds(c);
    var size := BlockSize(c, t);
    match me.pc
    case Collect(k, _) => top + 26 + 50 * size + c.jobs - k
    case InitLog => top + 25 + 50 * size
    case Arrive(b) => if b == 0 then top + 24 + 50 * size else top - 6 * (b - 1) + 2
    case Wait(b) => if b == 0 then top + 23 + 50 * size else top - 6 * (b - 1) + 1
    case Loop(i) => Left(c, t, i)
    case Running(i) => Left(c, t, i) - 1
    case WantLock(i, last) => if last then top + 20 else Left(c, t, i) - 2
    case Print(i, j, last) => if last then top + 3 + |me.buffer| - j else Left(c, t, i) - 3 - j
    case Append(i) => Left(c, t, i) - 20
    case SetAbort(i) => Left(c, t, i) - 21
    case ReadAbort(i) => Left(c, t, i) - 21
    case Reduce(r, k) => top - 6 * r - k
    case Done => 0
  }

  function Left(c: Config, t: nat, i: nat): int
    requires ValidConfig(c)
  { 6 * Rounds(c) + 21 + 50 * (BlockSize(c, t) - i) }

  /** The facts about one thread that bound its rank. */
  ghost predicate Ready(c: Config, s: State, t: nat)
    requires ValidConfig(c) && Shaped(c, s) && t < c.jobs
  {
    && InStep(c, s.th[t].pc, s.gen) && RanOk(c, t, s.th[t]) && BufferOk(s.th[t])
    && (Phase(c, s.th[t].pc) > 0 ==> BlockKnown(c, s, t))
  }

  lemma IsReady(c: Config, s: State, t: nat)
    requires ValidConfig(c) && Shaped(c, s) && t < c.jobs && Inv(c, s)
    ensures Ready(c, s, t)
  {
    hide BlockSize, BlockStart, Totals, FailFast, Complete;
    if Phase(c, s.th[t].pc) > 0 { SplitComplete(c, s, t); }
  }

  lemma RankNat(c: Config, s: State, t: nat)
    requires ValidConfig(c) && Shaped(c, s) && t < c.jobs && Ready(c, s, t)
    ensures Rank(c, t, s.th[t]) >= 0
  {
    hide BlockSize, BlockStart;
  }

  lemma RoundRank(c: Config, t: nat, me: Thread, b: nat)
    requires ValidConfig(c) && b > 0 && (b >= 2 ==> b - 2 < Rounds(c)) && me.pc == AfterBarrier(c, t, b)
    ensures Rank(c, t, me) < 6 * Rounds(c) - 6 * (b - 1) + 1
  {
    hide BlockSize, Off;
    Offsets(c, b - 1);
  }

  lemma RankBarrier(c: Config, s: State, t: nat)
    requires ValidConfig(c) && Shaped(c, s) && t < c.jobs && Ready(c, s, t) && Exec(c, s, t).Some?
    requires var pc := s.th[t].pc; pc.Collect? || pc.InitLog? || pc.Arrive? || pc.Wait? || pc.Reduce?
    ensures |Exec(c, s, t).value.th| == c.jobs && Rank(c, t, Exec(c, s, t).value.th[t]) < Rank(c, t, s.th[t])
  {
    hide BlockSize, BlockStart, Off, Round, Rounds;
    var me' := Exec(c, s, t).value.th[t];
    var pc := s.th[t].pc;
    if (pc.Arrive? || pc.Wait?) && pc.b > 0 && me'.pc == AfterBarrier(c, t, pc.b) { RoundRank(c, t, me', pc.b); }
  }

  lemma RankTest(c: Config, s: State, t: nat)
    requires ValidConfig(c) && Shaped(c, s) && t < c.jobs && Ready(c, s, t) && Exec(c, s, t).Some?
    requires var pc := s.th[t].pc; !(pc.Collect? || pc.InitLog? || pc.Arrive? || pc.Wait? || pc.Reduce?)
    ensures |Exec(c, s, t).value.th| == c.jobs && Rank(c, t, Exec(c, s, t).value.th[t]) < Rank(c, t, s.th[t])
  {
    hide BlockSize, BlockStart, Off, AfterBarrier, Rounds;
  }

  /** The steps left over all threads below `n`. */
  function Total(c: Config, s: State, n: nat): int
    requires ValidConfig(c) && Shaped(c, s) && n <= c.jobs
  { if n == 0 then 0 else Total(c, s, n - 1) + Rank(c, n - 1, s.th[n - 1]) }

  lemma {:induction false} TotalNat(c: Config, s: State, n: nat)
    requires ValidConfig(c) && Shaped(c, s) && n <= c.jobs && Inv(c, s)
    ensures Total(c, s, n) >= 0
  {
    hide Inv, Rank, Ready;
    if n > 0 {
      TotalNat(c, s, n - 1);
      IsReady(c, s, n - 1);
      RankNat(c, s, n - 1);
    }
  }

  lemma {:induction false} TotalOthers(c: Config, s: State, s': State, t: nat, n: nat)
    requires ValidConfig(c) && Shaped(c, s) && Shaped(c, s') && n <= c.jobs && t < c.jobs
    requires forall u :: 0 <= u < c.jobs && u != t ==> s'.th[u] == s.th[u]
    ensures Total(c, s', n) - Total(c, s, n) == if t < n then Rank(c, t, s'.th[t]) - Rank(c, t, s.th[t]) else 0
  {
    hide Rank;
    if n > 0 { TotalOthers(c, s, s', t, n - 1); }
  }

  /** Every step uses up some of a finite budget. */
  lemma StepsBounded(c: Config, s: State, t: nat)
    requires ValidConfig(c) && Shaped(c, s) && t < c.jobs && Inv(c, s) && Exec(c, s, t).Some?
    ensures var s' := Exec(c, s, t).value; Shaped(c, s') && Inv(c, s')
    ensures var s' := Exec(c, s, t).value; 0 <= Total(c, s', c.jobs) < Total(c, s, c.jobs)
  {
    hide Inv, Rank, Ready, Exec;
    InvStep(c, s, t);
    IsReady(c, s, t);
    StepOthers(c, s, t);
    var s', pc := Exec(c, s, t).value, s.th[t].pc;
    if pc.Collect? || pc.InitLog? || pc.Arrive? || pc.Wait? || pc.Reduce? {
      RankBarrier(c, s, t);
    } else {
      RankTest(c, s, t);
    }
    TotalOthers(c, s, s', t, c.jobs);
    TotalNat(c, s', c.jobs);
  }

  /** The turns of a schedule in which the thread could step. */
  function Effective(c: Config, schedule: seq<nat>): nat
    requires ValidConfig(c)
  {
    if schedule == [] then 0
    else
      var rest, t := schedule[..|schedule| - 1], schedule[|schedule| - 1];
      Effective(c, rest) + (if t < c.jobs && Exec(c, Run(c, rest), t).Some? then 1 else 0)
  }

  /** However long a schedule is, only so many of its turns do anything. */
  lemma {:induction false} RunsAreFinite(c: Config, schedule: seq<nat>)
    requires ValidConfig(c)
    ensures Effective(c, schedule) + Total(c, Run(c, schedule), c.jobs) <= Total(c, Start(c), c.jobs)
    ensures Total(c, Run(c, schedule), c.jobs) >= 0
  {
    hide Inv, Total, Exec;
    Invariant(c, schedule);
    TotalNat(c, Run(c, schedule), c.jobs);
    if schedule != [] {
      var rest, t := schedule[..|schedule| - 1], schedule[|schedule| - 1];
      RunsAreFinite(c, rest);
      Invariant(c, rest);
      if t < c.jobs && Exec(c, Run(c, rest), t).Some? { StepsBounded(c, Run(c, rest), t); }
    }
  }

  /** From wherever a schedule leads, the runner can be brought to its end: no thread is stuck for good. */
  lemma {:induction false} CanFinish(c: Config, schedule: seq<nat>) returns (more: seq<nat>)
    requires ValidConfig(c)
    ensures AllDone(c, Run(c, schedule + more))
    decreases Total(c, Run(c, schedule), c.jobs)
  {
    hide Inv, Total, Exec, AllDone;
    Invariant(c, schedule);
    var s := Run(c, schedule);
    TotalNat(c, s, c.jobs);
    if AllDone(c, s) {
      more := [];
      assert schedule + more == schedule;
    } else {
      var t := Progress(c, s);
      StepsBounded(c, s, t);
      assert (schedule + [t])[..|schedule + [t]| - 1] == schedule;
      var rest := CanFinish(c, schedule + [t]);
      more := [t] + rest;
      assert schedule + more == schedule + [t] + rest;
    }
  }
}
